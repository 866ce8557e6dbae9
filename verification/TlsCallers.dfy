/**
 Concurrent callers of the TLS client cache: the lock is released between looking a client up and
 inserting a new one, so calls interleave at those points (crates/auth/src/tls_client.rs).
 */
module TlsCallers {
  import opened Options
  import opened ServiceIds
  import opened TlsClients

  /** A call between two accesses to shared state. `Returned` keeps what was loaded and what was given back. */
  datatype Caller =
    | Loaded(config: Config)
    | Missed(config: Config)
    | Built(config: Config, client: Client)
    | Returned(config: Config, client: Client, hit: bool, at: nat)

  datatype Params = Params(hash: Config -> string, ttl: nat, max: nat)

  datatype State = State(services: map<ServiceId, Service>, cache: Cache, callers: map<nat, Caller>, now: nat)

  datatype Step =
    | PutService(id: ServiceId, service: Service)
    | RemoveService(id: ServiceId)
    | Wait(seconds: nat)
    | Load(tid: nat, id: ServiceId)
    | Look(tid: nat)
    | Build(tid: nat)
    | Insert(tid: nat, mid: Cache)
    | Fail(tid: nat)
    | Cleanup

  ghost predicate Enabled(p: Params, s: State, step: Step)
  {
    match step
    case PutService(_, _) => true
    case RemoveService(_) => true
    case Wait(_) => true
    case Load(tid, id) => tid !in s.callers && id in s.services
    case Look(tid) => tid in s.callers && s.callers[tid].Loaded?
    case Build(tid) => tid in s.callers && s.callers[tid].Missed?
    case Insert(tid, mid) =>
      tid in s.callers && s.callers[tid].Built? && MakesRoom(s.cache, mid, s.now, p.ttl, p.max)
    case Fail(tid) => tid in s.callers
    case Cleanup => true
  }

  function SetCaller(s: State, tid: nat, c: Caller): State
  {
    s.(callers := s.callers[tid := c])
  }

  ghost function Next(p: Params, s: State, step: Step): State
    requires Enabled(p, s, step)
  {
    match step
    case PutService(id, m) => s.(services := s.services[id := m])
    case RemoveService(id) => s.(services := s.services - {id})
    case Wait(seconds) => s.(now := s.now + seconds)
    case Load(tid, id) => SetCaller(s, tid, Loaded(ConfigOf(s.services[id])))
    case Look(tid) =>
      var config := s.callers[tid].config;
      (match Lookup(s.cache, p.hash(config), s.now, p.ttl)
       case Some(c) => SetCaller(s, tid, Returned(config, c, true, s.now))
       case None => SetCaller(s, tid, Missed(config)))
    case Build(tid) =>
      var config := s.callers[tid].config;
      SetCaller(s, tid, Built(config, Client(config, s.now)))
    case Insert(tid, mid) =>
      var Built(config, client) := s.callers[tid];
      SetCaller(s, tid, Returned(config, client, false, s.now)).(cache := mid[p.hash(config) := client])
    case Fail(tid) => s.(callers := s.callers - {tid})
    case Cleanup => s.(cache := Unexpired(s.cache, s.now, p.ttl))
  }

  datatype Run = Run(states: seq<State>, steps: seq<Step>)

  ghost predicate Initial(s: State)
  {
    s.cache == map[] && s.callers == map[]
  }

  ghost predicate StepAt(p: Params, r: Run, i: int)
  {
    0 <= i < |r.steps| && |r.states| == |r.steps| + 1 ==>
      Enabled(p, r.states[i], r.steps[i]) && r.states[i + 1] == Next(p, r.states[i], r.steps[i])
  }

  ghost predicate IsRun(p: Params, r: Run)
  {
    |r.states| == |r.steps| + 1 && Initial(r.states[0]) && forall i :: StepAt(p, r, i)
  }

  // ---- what every step keeps ----

  /** Entries sit under the hash of their own configuration and were not built in the future. */
  ghost predicate CacheOk(p: Params, cache: Cache, now: nat)
  {
    forall h :: h in cache ==> p.hash(cache[h].config) == h && cache[h].created <= now
  }

  ghost predicate CallerOk(p: Params, c: Caller, now: nat)
  {
    match c
    case Loaded(_) => true
    case Missed(_) => true
    case Built(config, client) => client.config == config && client.created <= now
    case Returned(config, client, hit, at) =>
      && client.created <= at <= now
      && if hit then p.hash(client.config) == p.hash(config) && at - client.created < p.ttl else client.config == config
  }

  ghost predicate Ok(p: Params, s: State)
  {
    && CacheOk(p, s.cache, s.now)
    && (forall tid :: tid in s.callers ==> CallerOk(p, s.callers[tid], s.now))
    && (p.max >= 1 ==> |s.cache| <= p.max)
  }

  lemma InsertOk(p: Params, s: State, tid: nat, mid: Cache)
    requires Ok(p, s) && Enabled(p, s, Insert(tid, mid))
    ensures Ok(p, Next(p, s, Insert(tid, mid)))
  {
    var c := s.callers[tid];
    assert CallerOk(p, c, s.now);
    forall h | h in mid ensures h in s.cache && mid[h] == s.cache[h] {}
    if p.max >= 1 {
      InsertBounded(s.cache, mid, p.hash(c.config), c.client, s.now, p.ttl, p.max);
    }
  }

  lemma LookOk(p: Params, s: State, tid: nat)
    requires Ok(p, s) && Enabled(p, s, Look(tid))
    ensures Ok(p, Next(p, s, Look(tid)))
  {
    var config := s.callers[tid].config;
    var h := p.hash(config);
    if h in s.cache {
      assert p.hash(s.cache[h].config) == h;
    }
  }

  lemma StepKeepsOk(p: Params, s: State, step: Step)
    requires Ok(p, s) && Enabled(p, s, step)
    ensures Ok(p, Next(p, s, step))
  {
    if step.Insert? {
      InsertOk(p, s, step.tid, step.mid);
    } else if step.Look? {
      LookOk(p, s, step.tid);
    } else if step.Cleanup? {
      UnexpiredSmaller(s.cache, s.now, p.ttl);
    } else if step.Wait? {
      forall tid | tid in s.callers ensures CallerOk(p, s.callers[tid], s.now + step.seconds) {
        assert CallerOk(p, s.callers[tid], s.now);
      }
    }
  }

  lemma {:induction false} RunKeepsOk(p: Params, r: Run, k: nat)
    requires IsRun(p, r) && k < |r.states|
    ensures Ok(p, r.states[k])
  {
    if k > 0 {
      RunKeepsOk(p, r, k - 1);
      assert StepAt(p, r, k - 1);
      StepKeepsOk(p, r.states[k - 1], r.steps[k - 1]);
    }
  }

  /** In every reachable state the cache holds at most `max` entries, if `max` is at least one. */
  lemma CacheBounded(p: Params, r: Run, k: nat)
    requires IsRun(p, r) && k < |r.states| && p.max >= 1
    ensures |r.states[k].cache| <= p.max
  {
    RunKeepsOk(p, r, k);
  }

  /** The service model a call loaded is the one its configuration comes from. */
  ghost predicate LoadedAt(p: Params, r: Run, i: nat, tid: nat, config: Config)
    requires IsRun(p, r)
  {
    && i < |r.steps| && StepAt(p, r, i) && r.steps[i].Load? && r.steps[i].tid == tid
    && config == ConfigOf(r.states[i].services[r.steps[i].id])
  }

  predicate Busy(r: Run, h: int, tid: nat)
  {
    0 <= h < |r.states| && tid in r.states[h].callers
  }

  /** The call that is under way in state k is the one that loaded its service at step i: it never ended since. */
  ghost predicate LoadOf(p: Params, r: Run, i: nat, k: nat, tid: nat)
    requires IsRun(p, r)
  {
    && i < k < |r.states| && tid in r.states[k].callers && LoadedAt(p, r, i, tid, r.states[k].callers[tid].config)
    && forall h :: i < h <= k ==> Busy(r, h, tid)
  }

  lemma {:induction false} ConfigWasLoaded(p: Params, r: Run, k: nat, tid: nat) returns (i: nat)
    requires IsRun(p, r) && k < |r.states| && tid in r.states[k].callers
    ensures LoadOf(p, r, i, k, tid)
  {
    assert k > 0;
    var s := r.states[k - 1];
    assert StepAt(p, r, k - 1);
    if tid in s.callers {
      i := ConfigWasLoaded(p, r, k - 1, tid);
      SameConfig(p, s, r.steps[k - 1], tid);
    } else {
      i := k - 1;
      OnlyLoadStarts(p, s, r.steps[k - 1], tid);
    }
  }

  lemma SameConfig(p: Params, s: State, step: Step, tid: nat)
    requires Enabled(p, s, step) && tid in s.callers && tid in Next(p, s, step).callers
    ensures Next(p, s, step).callers[tid].config == s.callers[tid].config
  {}

  lemma OnlyLoadStarts(p: Params, s: State, step: Step, tid: nat)
    requires Enabled(p, s, step) && tid !in s.callers && tid in Next(p, s, step).callers
    ensures step.Load? && step.tid == tid && Next(p, s, step).callers[tid].config == ConfigOf(s.services[step.id])
  {}

  /** Some call loaded this configuration before step k. */
  ghost predicate WasLoaded(p: Params, r: Run, k: nat, config: Config)
    requires IsRun(p, r)
  {
    exists i: nat, tid: nat :: i < k && LoadedAt(p, r, i, tid, config)
  }

  lemma CallerConfigLoaded(p: Params, r: Run, k: nat, tid: nat)
    requires IsRun(p, r) && k < |r.states| && tid in r.states[k].callers
    ensures WasLoaded(p, r, k, r.states[k].callers[tid].config)
  {
    var i := ConfigWasLoaded(p, r, k, tid);
  }

  lemma WasLoadedLater(p: Params, r: Run, k: nat, config: Config)
    requires IsRun(p, r) && WasLoaded(p, r, k, config)
    ensures WasLoaded(p, r, k + 1, config)
  {
    var i: nat, tid: nat :| i < k && LoadedAt(p, r, i, tid, config);
  }

  /** A step leaves a cache entry as it was, or a built client entered under its hash. */
  lemma EntryOrigin(p: Params, s: State, step: Step, h: string)
    requires Enabled(p, s, step) && h in Next(p, s, step).cache
    ensures || (h in s.cache && Next(p, s, step).cache[h] == s.cache[h])
            || (step.Insert? && Next(p, s, step).cache[h] == s.callers[step.tid].client)
  {}

  lemma {:induction false} EntryWasLoaded(p: Params, r: Run, k: nat, h: string)
    requires IsRun(p, r) && k < |r.states| && h in r.states[k].cache
    ensures WasLoaded(p, r, k, r.states[k].cache[h].config)
  {
    if k > 0 {
      var s, step := r.states[k - 1], r.steps[k - 1];
      assert StepAt(p, r, k - 1);
      EntryOrigin(p, s, step, h);
      if h in s.cache && r.states[k].cache[h] == s.cache[h] {
        EntryWasLoaded(p, r, k - 1, h);
      } else {
        RunKeepsOk(p, r, k - 1);
        assert CallerOk(p, s.callers[step.tid], s.now);
        CallerConfigLoaded(p, r, k - 1, step.tid);
      }
      WasLoadedLater(p, r, k - 1, r.states[k].cache[h].config);
    }
  }

  /** A returned client was already returned, was found in the cache, or was built by the call itself. */
  lemma ReturnOrigin(p: Params, s: State, step: Step, tid: nat)
    requires Enabled(p, s, step) && tid in Next(p, s, step).callers && Next(p, s, step).callers[tid].Returned?
    ensures var c := Next(p, s, step).callers[tid];
            || (tid in s.callers && s.callers[tid] == c)
            || (c.hit && p.hash(c.config) in s.cache && c.client == s.cache[p.hash(c.config)])
            || !c.hit
  {}

  lemma ClientWasLoaded(p: Params, r: Run, k: nat, tid: nat)
    requires IsRun(p, r) && k < |r.states| && tid in r.states[k].callers && r.states[k].callers[tid].Returned?
    ensures WasLoaded(p, r, k, r.states[k].callers[tid].client.config)
  {
    var c := r.states[k].callers[tid];
    RunKeepsOk(p, r, k);
    assert CallerOk(p, c, r.states[k].now);
    if c.hit {
      CachedClientWasLoaded(p, r, k, tid);
    } else {
      CallerConfigLoaded(p, r, k, tid);
    }
  }

  lemma {:induction false} CachedClientWasLoaded(p: Params, r: Run, k: nat, tid: nat)
    requires IsRun(p, r) && k < |r.states| && tid in r.states[k].callers
    requires r.states[k].callers[tid].Returned? && r.states[k].callers[tid].hit
    ensures WasLoaded(p, r, k, r.states[k].callers[tid].client.config)
  {
    if k > 0 {
      var c, s := r.states[k].callers[tid], r.states[k - 1];
      assert StepAt(p, r, k - 1);
      ReturnOrigin(p, s, r.steps[k - 1], tid);
      if tid in s.callers && s.callers[tid] == c {
        CachedClientWasLoaded(p, r, k - 1, tid);
      } else {
        EntryWasLoaded(p, r, k - 1, p.hash(c.config));
      }
      WasLoadedLater(p, r, k - 1, c.client.config);
    }
  }

  /** The configurations loaded before step k have different hashes when they differ. */
  ghost predicate CollisionFree(p: Params, r: Run, k: nat)
    requires IsRun(p, r)
  {
    forall c, d :: WasLoaded(p, r, k, c) && WasLoaded(p, r, k, d) && p.hash(c) == p.hash(d) ==> c == d
  }

  /**
   Without a hash collision, a call gives back a client built from exactly the configuration of the
   service model it loaded itself, and a cached one only within its lifetime: as if it always built afresh.
   */
  lemma CacheRefinesFreshBuild(p: Params, r: Run, k: nat, tid: nat) returns (i: nat)
    requires IsRun(p, r) && k < |r.states| && CollisionFree(p, r, k)
    requires tid in r.states[k].callers && r.states[k].callers[tid].Returned?
    ensures LoadOf(p, r, i, k, tid)
    ensures var c := r.states[k].callers[tid];
            && r.steps[i].id in r.states[i].services
            && Fits(c.client.config, r.states[i].services[r.steps[i].id].profile)
            && (c.hit ==> c.at - c.client.created < p.ttl)
  {
    var c := r.states[k].callers[tid];
    RunKeepsOk(p, r, k);
    assert CallerOk(p, c, r.states[k].now);
    i := ConfigWasLoaded(p, r, k, tid);
    ClientWasLoaded(p, r, k, tid);
    assert WasLoaded(p, r, k, c.config);
    ConfigFits(r.states[i].services[r.steps[i].id], c.client.config);
  }

  /** With a hash that keeps all configurations apart this holds of every call of every run. */
  lemma InjectiveHashServesOwn(p: Params, r: Run, k: nat, tid: nat) returns (i: nat)
    requires IsRun(p, r) && k < |r.states| && forall c, d :: p.hash(c) == p.hash(d) ==> c == d
    requires tid in r.states[k].callers && r.states[k].callers[tid].Returned?
    ensures LoadOf(p, r, i, k, tid) && r.steps[i].id in r.states[i].services
    ensures Fits(r.states[k].callers[tid].client.config, r.states[i].services[r.steps[i].id].profile)
  {
    assert CollisionFree(p, r, k);
    i := CacheRefinesFreshBuild(p, r, k, tid);
  }

  // ---- a collision is served the wrong client ----

  ghost predicate Goes(p: Params, s: State, step: Step, s': State)
  {
    Enabled(p, s, step) && s' == Next(p, s, step)
  }

  lemma FirstCall(p: Params, a: Service, id: ServiceId, s0: State) returns (s1: State, s2: State, s3: State, s4: State)
    requires p.max >= 1 && id in s0.services && s0.services[id] == a && s0.cache == map[] && s0.callers == map[]
    ensures Goes(p, s0, Load(1, id), s1) && Goes(p, s1, Look(1), s2)
    ensures Goes(p, s2, Build(1), s3) && Goes(p, s3, Insert(1, map[]), s4)
    ensures s4.services == s0.services && s4.now == s0.now && 2 !in s4.callers
    ensures s4.cache == map[p.hash(ConfigOf(a)) := Client(ConfigOf(a), s0.now)]
  {
    s1 := Next(p, s0, Load(1, id));
    s2 := Next(p, s1, Look(1));
    s3 := Next(p, s2, Build(1));
    s4 := Next(p, s3, Insert(1, map[]));
  }

  lemma SecondCall(p: Params, b: Service, id: ServiceId, s4: State, c: Client) returns (s5: State, s6: State)
    requires p.ttl >= 1 && id in s4.services && s4.services[id] == b && 2 !in s4.callers
    requires s4.cache == map[p.hash(ConfigOf(b)) := c] && c.created == s4.now
    ensures Goes(p, s4, Load(2, id), s5) && Goes(p, s5, Look(2), s6)
    ensures 2 in s6.callers && s6.callers[2] == Returned(ConfigOf(b), c, true, s4.now)
  {
    s5 := Next(p, s4, Load(2, id));
    s6 := Next(p, s5, Look(2));
  }

  /** Six steps that follow one another make a run. */
  lemma RunOf(p: Params, q: seq<State>, steps: seq<Step>)
    requires |q| == 7 && |steps| == 6 && Initial(q[0])
    requires Goes(p, q[0], steps[0], q[1]) && Goes(p, q[1], steps[1], q[2]) && Goes(p, q[2], steps[2], q[3])
    requires Goes(p, q[3], steps[3], q[4]) && Goes(p, q[4], steps[4], q[5]) && Goes(p, q[5], steps[5], q[6])
    ensures IsRun(p, Run(q, steps))
  {
    forall i ensures StepAt(p, Run(q, steps), i) {
      if 0 <= i < 6 {
        assert Goes(p, q[i], steps[i], q[i + 1]) by {
          assert i == 0 || i == 1 || i == 2 || i == 3 || i == 4 || i == 5;
        }
      }
    }
  }

  lemma CollisionStates(p: Params, a: Service, b: Service, idA: ServiceId, idB: ServiceId) returns (q: seq<State>)
    requires idA != idB && p.ttl >= 1 && p.max >= 1 && p.hash(ConfigOf(a)) == p.hash(ConfigOf(b))
    ensures |q| == 7 && Initial(q[0])
    ensures Goes(p, q[0], Load(1, idA), q[1]) && Goes(p, q[1], Look(1), q[2]) && Goes(p, q[2], Build(1), q[3])
    ensures Goes(p, q[3], Insert(1, map[]), q[4]) && Goes(p, q[4], Load(2, idB), q[5]) && Goes(p, q[5], Look(2), q[6])
    ensures idB in q[4].services && q[4].services[idB] == b
    ensures 2 in q[6].callers && q[6].callers[2] == Returned(ConfigOf(b), Client(ConfigOf(a), 0), true, 0)
  {
    var s0 := State(map[idA := a, idB := b], map[], map[], 0);
    var s1, s2, s3, s4 := FirstCall(p, a, idA, s0);
    var s5, s6 := SecondCall(p, b, idB, s4, Client(ConfigOf(a), 0));
    q := [s0, s1, s2, s3, s4, s5, s6];
  }

  /** Two services whose configurations collide: the second caller is given the first one's client. */
  lemma CollisionServesOther(p: Params, a: Service, b: Service, idA: ServiceId, idB: ServiceId) returns (r: Run)
    requires idA != idB && p.ttl >= 1 && p.max >= 1
    requires p.hash(ConfigOf(a)) == p.hash(ConfigOf(b)) && ConfigOf(a) != ConfigOf(b)
    ensures IsRun(p, r) && |r.states| == 7
    ensures r.steps[4] == Load(2, idB) && idB in r.states[4].services && r.states[4].services[idB] == b
    ensures 2 in r.states[6].callers && r.states[6].callers[2].Returned? && r.states[6].callers[2].client.config != ConfigOf(b)
  {
    var q := CollisionStates(p, a, b, idA, idB);
    var steps := [Load(1, idA), Look(1), Build(1), Insert(1, map[]), Load(2, idB), Look(2)];
    RunOf(p, q, steps);
    r := Run(q, steps);
  }
}
