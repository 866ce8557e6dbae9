/** The cache of outbound TLS clients (crates/auth/src/tls_client.rs). Times are seconds of a monotonic clock. */
module TlsClients {
  import opened Bytes
  import opened Options

  datatype TlsProfile = TlsProfile(enabled: bool, caBundle: seq<byte>, clientCert: seq<byte>, clientKey: seq<byte>)

  datatype Service = Service(profile: Option<TlsProfile>)

  datatype Config = Config(
    verifyServer: bool, customCas: seq<seq<byte>>, clientCert: Option<seq<byte>>, clientKey: Option<seq<byte>>,
    alpn: seq<string>, handshakeTimeout: nat)

  /** A client remembers the configuration it was built from and when; a hit does not refresh the time. */
  datatype Client = Client(config: Config, created: nat)

  type Cache = map<string, Client>

  const DEFAULT_CONFIG: Config := Config(true, [], None, None, ["h2", "http/1.1"], 10)

  /** `get_service_tls_config`. */
  function ConfigOf(service: Service): Config
  {
    match service.profile
    case None => DEFAULT_CONFIG
    case Some(p) =>
      if !p.enabled then DEFAULT_CONFIG
      else
        var withCas := if p.caBundle == [] then DEFAULT_CONFIG else DEFAULT_CONFIG.(customCas := [p.caBundle]);
        if p.clientCert == [] || p.clientKey == [] then withCas
        else withCas.(clientCert := Some(p.clientCert), clientKey := Some(p.clientKey))
  }

  /** The profile is in use and names both parts of a client certificate. */
  predicate NamesClientPair(profile: Option<TlsProfile>)
  {
    profile.Some? && profile.value.enabled && |profile.value.clientCert| > 0 && |profile.value.clientKey| > 0
  }

  /** A configuration, field by field, as the profile of a service asks for it. */
  ghost predicate Fits(config: Config, profile: Option<TlsProfile>)
  {
    && (forall c :: config.clientCert == Some(c) <==> NamesClientPair(profile) && c == profile.value.clientCert)
    && (forall k :: config.clientKey == Some(k) <==> NamesClientPair(profile) && k == profile.value.clientKey)
    && (if profile.Some? && profile.value.enabled && |profile.value.caBundle| > 0
        then config.customCas == [profile.value.caBundle] else config.customCas == [])
    && config.verifyServer
    && config.alpn == ["h2", "http/1.1"] && config.handshakeTimeout == 10
  }

  /** What a service asks for is what its configuration holds, and nothing else fits. */
  lemma ConfigFits(service: Service, config: Config)
    ensures Fits(config, service.profile) <==> config == ConfigOf(service)
  {
    var of := ConfigOf(service);
    assert Fits(of, service.profile);
    if Fits(config, service.profile) {
      assert config.clientCert == of.clientCert;
      assert config.clientKey == of.clientKey;
    }
  }

  predicate Fresh(c: Client, now: nat, ttl: nat)
  {
    now - c.created < ttl
  }

  function Unexpired(cache: Cache, now: nat, ttl: nat): Cache
  {
    map h | h in cache && Fresh(cache[h], now, ttl) :: cache[h]
  }

  function Lookup(cache: Cache, h: string, now: nat, ttl: nat): Option<Client>
  {
    if h in cache && Fresh(cache[h], now, ttl) then Some(cache[h]) else None
  }

  /** How many of the unexpired entries an eviction drops: ten more than needed, or all of them. */
  function EvictCount(size: nat, max: nat): nat
  {
    if size < max then 0 else if size - max + 10 < size then size - max + 10 else size
  }

  /** A full cache shrinks to ten below its bound, or to nothing if the bound is smaller than that. */
  lemma EvictCountLeaves(size: nat, max: nat)
    ensures size < max ==> EvictCount(size, max) == 0
    ensures size >= max ==> size - EvictCount(size, max) == if max > 10 then max - 10 else 0
  {}

  /** An eviction drops the expired entries and then, if the cache is still full, the oldest ones. */
  ghost predicate Evicts(before: Cache, after: Cache, now: nat, ttl: nat, max: nat)
  {
    var live := Unexpired(before, now, ttl);
    && after.Keys <= live.Keys
    && (forall h :: h in after ==> after[h] == live[h])
    && |after| == |live| - EvictCount(|live|, max)
    && forall h, d :: h in after && d in live && d !in after ==> live[d].created <= live[h].created
  }

  /** Making room happens only when the cache is full. */
  ghost predicate MakesRoom(before: Cache, after: Cache, now: nat, ttl: nat, max: nat)
  {
    if |before| >= max then Evicts(before, after, now, ttl, max) else after == before
  }

  // ---- the manager ----

  lemma {:induction false} OldestExists(cache: Cache, rest: set<string>)
    requires rest != {} && rest <= cache.Keys
    ensures exists h :: h in rest && forall x :: x in rest ==> cache[h].created <= cache[x].created
    decreases |rest|
  {
    var h :| h in rest;
    if rest != {h} {
      OldestExists(cache, rest - {h});
      var m :| m in rest - {h} && forall x :: x in rest - {h} ==> cache[m].created <= cache[x].created;
      var best := if cache[h].created <= cache[m].created then h else m;
      assert best in rest && forall x :: x in rest ==> cache[best].created <= cache[x].created;
    } else {
      assert h in rest && forall x :: x in rest ==> cache[h].created <= cache[x].created;
    }
  }

  predicate Older(cache: Cache, q: seq<string>, i: int, j: int)
  {
    0 <= i < j < |q| ==> q[i] in cache && q[j] in cache && q[i] != q[j] && cache[q[i]].created <= cache[q[j]].created
  }

  /** The keys of the cache, each once, oldest first. */
  ghost predicate ByAge(cache: Cache, q: seq<string>)
  {
    (forall h :: h in q <==> h in cache) && forall i, j :: Older(cache, q, i, j)
  }

  method SortByAge(cache: Cache) returns (q: seq<string>)
    ensures ByAge(cache, q) && |q| == |cache|
  {
    q := [];
    var rest := cache.Keys;
    assert |cache.Keys| == |cache|;
    while rest != {}
      invariant rest <= cache.Keys && |q| + |rest| == |cache|
      invariant forall h :: h in cache <==> h in q || h in rest
      invariant forall h :: h in q ==> h !in rest && forall x :: x in rest ==> cache[h].created <= cache[x].created
      invariant forall i, j :: Older(cache, q, i, j)
      decreases |rest|
    {
      OldestExists(cache, rest);
      var h :| h in rest && forall x :: x in rest ==> cache[h].created <= cache[x].created;
      OlderPush(cache, q, h);
      q, rest := q + [h], rest - {h};
    }
  }

  lemma OlderPush(cache: Cache, q: seq<string>, h: string)
    requires h in cache && forall x :: x in q ==> x in cache && x != h && cache[x].created <= cache[h].created
    requires forall i, j :: Older(cache, q, i, j)
    ensures forall i, j :: Older(cache, q + [h], i, j)
  {
    forall i, j ensures Older(cache, q + [h], i, j) {
      assert Older(cache, q, i, j);
      if 0 <= i < j == |q| { assert q[i] in q; }
    }
  }

  class TlsClientManager {
    var clients: Cache
    const maxCacheSize: nat
    const ttl: nat

    constructor ()
      ensures clients == map[] && maxCacheSize == 100 && ttl == 3600
    {
      clients := map[];
      maxCacheSize := 100;
      ttl := 3600;
    }

    method EvictOldEntries(now: nat)
      modifies this
      ensures Evicts(old(clients), clients, now, ttl, maxCacheSize)
    {
      var live := Unexpired(clients, now, ttl);
      clients := live;
      if |clients| >= maxCacheSize {
        var toRemove := |clients| - maxCacheSize + 10;
        var q := SortByAge(live);
        var n := if toRemove < |q| then toRemove else |q|;
        DropFirst(q, n);
        OldestDropped(live, clients, q, n);
      }
    }

    /** Removes the first n of the listed entries. */
    method DropFirst(q: seq<string>, n: nat)
      requires ByAge(clients, q) && |q| == |clients| && n <= |q|
      modifies this
      ensures |clients| == |old(clients)| - n
      ensures forall h :: h in clients <==> h in q[n..]
      ensures forall h :: h in clients ==> h in old(clients) && clients[h] == old(clients)[h]
    {
      for i := 0 to n
        invariant |clients| == |old(clients)| - i
        invariant forall h :: h in clients <==> h in q[i..]
        invariant forall h :: h in clients ==> h in old(clients) && clients[h] == old(clients)[h]
      {
        OnceOnly(old(clients), q, i);
        RemoveShrinks(clients, q[i]);
        clients := clients - {q[i]};
      }
    }

    /** The second critical section of a lookup that missed. */
    method Insert(h: string, client: Client, now: nat)
      modifies this
      ensures exists mid :: MakesRoom(old(clients), mid, now, ttl, maxCacheSize) && clients == mid[h := client]
    {
      if |clients| >= maxCacheSize {
        EvictOldEntries(now);
      }
      ghost var mid := clients;
      assert MakesRoom(old(clients), mid, now, ttl, maxCacheSize);
      clients := clients[h := client];
    }

    /** One call that runs alone: a fresh cached client, or a new one that enters the cache. */
    method GetClient(hash: Config -> string, service: Service, now: nat, buildOk: bool) returns (r: Option<Client>)
      modifies this
      ensures exists config :: Fits(config, service.profile) &&
                var h := hash(config);
                if h in old(clients) && now - old(clients)[h].created < ttl
                then r == Some(old(clients)[h]) && clients == old(clients)
                else if !buildOk then r == None && clients == old(clients)
                else
                  && r == Some(Client(config, now))
                  && exists mid :: MakesRoom(old(clients), mid, now, ttl, maxCacheSize) && clients == mid[h := r.value]
    {
      var config := ConfigOf(service);
      ConfigFits(service, config);
      var h := hash(config);
      r := Lookup(clients, h, now, ttl);
      if r.None? && buildOk {
        var client := Client(config, now);
        Insert(h, client, now);
        r := Some(client);
      }
    }

    method CleanupExpired(now: nat) returns (removed: nat)
      modifies this
      ensures clients == map h | h in old(clients) && now - old(clients)[h].created < ttl :: old(clients)[h]
      ensures removed == |old(clients)| - |clients|
    {
      var size := |clients|;
      UnexpiredSmaller(clients, now, ttl);
      clients := Unexpired(clients, now, ttl);
      removed := size - |clients|;
    }

    method Stats(now: nat) returns (total: nat, active: nat, expired: nat)
      ensures total == |clients| && active + expired == total
      ensures active == |set h | h in clients && now - clients[h].created < ttl|
    {
      total, active, expired := |clients|, 0, 0;
      var rest := clients.Keys;
      ghost var seen: Cache := map[];
      assert |clients.Keys| == |clients|;
      while rest != {}
        invariant rest <= clients.Keys && active + expired + |rest| == |clients|
        invariant seen.Keys == clients.Keys - rest && forall h :: h in seen ==> seen[h] == clients[h]
        invariant active == |Unexpired(seen, now, ttl)|
        decreases |rest|
      {
        var h :| h in rest;
        ghost var grown := seen[h := clients[h]];
        UnexpiredGrows(seen, h, clients[h], now, ttl);
        if Fresh(clients[h], now, ttl) { active := active + 1; } else { expired := expired + 1; }
        seen, rest := grown, rest - {h};
      }
      assert seen == clients;
      assert Unexpired(clients, now, ttl).Keys == set h | h in clients && now - clients[h].created < ttl;
    }
  }

  lemma RemoveShrinks(cache: Cache, h: string)
    requires h in cache
    ensures |cache - {h}| == |cache| - 1
  {
    assert (cache - {h}).Keys == cache.Keys - {h};
    assert |cache| == |cache.Keys| && |cache - {h}| == |(cache - {h}).Keys|;
  }

  lemma OnceOnly(cache: Cache, q: seq<string>, i: nat)
    requires ByAge(cache, q) && i < |q|
    ensures forall h :: h in q[i + 1..] <==> h in q[i..] && h != q[i]
    ensures q[i] in q[i..]
  {
    forall h | h in q[i + 1..] ensures h != q[i] && h in q[i..] {
      var j :| 0 <= j < |q[i + 1..]| && q[i + 1..][j] == h;
      assert Older(cache, q, i, i + 1 + j);
      assert q[i..][1 + j] == h;
    }
    assert q[i..] == [q[i]] + q[i + 1..];
  }

  lemma OldestDropped(live: Cache, after: Cache, q: seq<string>, n: nat)
    requires n <= |q| && ByAge(live, q)
    requires forall h :: h in after <==> h in q[n..]
    ensures after.Keys <= live.Keys
    ensures forall h, d :: h in after && d in live && d !in after ==> live[d].created <= live[h].created
  {
    forall h | h in after ensures h in live {
      assert h in q;
    }
    forall h, d | h in after && d in live && d !in after ensures live[d].created <= live[h].created {
      var j :| 0 <= j < |q[n..]| && q[n..][j] == h;
      assert d in q;
      var i :| 0 <= i < |q| && q[i] == d;
      assert i < n;
      assert Older(live, q, i, n + j);
    }
  }

  lemma UnexpiredSmaller(cache: Cache, now: nat, ttl: nat)
    ensures |Unexpired(cache, now, ttl)| <= |cache|
  {
    SubsetSize(Unexpired(cache, now, ttl).Keys, cache.Keys);
    assert |cache| == |cache.Keys| && |Unexpired(cache, now, ttl)| == |Unexpired(cache, now, ttl).Keys|;
  }

  lemma {:induction false} SubsetSize(a: set<string>, b: set<string>)
    requires a <= b
    ensures |a| <= |b|
    decreases |a|
  {
    if x :| x in a {
      SubsetSize(a - {x}, b - {x});
    }
  }

  lemma UnexpiredGrows(seen: Cache, h: string, c: Client, now: nat, ttl: nat)
    requires h !in seen
    ensures |Unexpired(seen[h := c], now, ttl)| == |Unexpired(seen, now, ttl)| + if Fresh(c, now, ttl) then 1 else 0
  {
    var a, b := Unexpired(seen, now, ttl), Unexpired(seen[h := c], now, ttl);
    if Fresh(c, now, ttl) {
      assert b.Keys == a.Keys + {h};
    } else {
      assert b.Keys == a.Keys;
    }
    assert |a| == |a.Keys| && |b| == |b.Keys|;
  }

  /** After an insertion the cache is within its bound exactly when the bound is at least one. */
  lemma InsertBounded(before: Cache, mid: Cache, h: string, client: Client, now: nat, ttl: nat, max: nat)
    requires |before| <= max && MakesRoom(before, mid, now, ttl, max)
    ensures |mid[h := client]| <= max <==> max >= 1
  {
    UnexpiredSmaller(before, now, ttl);
    if h in mid {
      assert mid[h := client].Keys == mid.Keys;
    } else {
      assert mid[h := client].Keys == mid.Keys + {h};
    }
    assert |mid| == |mid.Keys| && |mid[h := client]| == |mid[h := client].Keys|;
  }
}
