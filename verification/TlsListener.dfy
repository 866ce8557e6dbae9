/**
 The inbound TLS listener: per-service configurations, the host-name index and the start-once
 life cycle (crates/auth/src/tls_listener.rs). Building a configuration from its stored material is
 outside the model; a built server configuration is an opaque number.
 */
module TlsListener {
  import opened Options
  import opened ServiceIds

  datatype ServiceConfig = ServiceConfig(service: ServiceId, server: nat, requireMtls: bool, sni: Option<string>)

  type Profiles = map<ServiceId, ServiceConfig>
  type SniIndex = map<string, ServiceId>
  type Addr = nat

  datatype TlsError = UnrecognizedName(name: string) | NoProfiles | SniRequired | BindFailed | NotInitialised

  /** What the operating system answers to a bind. */
  datatype BindAnswer = Bound(addr: Addr) | AddrInUse | Refused

  // ---- choosing a configuration ----

  /** `c` is the one stored configuration. */
  ghost predicate IsOnly(profiles: Profiles, c: ServiceConfig)
  {
    exists id :: profiles == map[id := c]
  }

  /** `select_service_config` as a relation between the registry and the answer. */
  ghost predicate Selects(profiles: Profiles, index: SniIndex, sni: Option<string>, r: Result<ServiceConfig, TlsError>)
  {
    match sni
    case Some(name) =>
      if name in index && index[name] in profiles then r == Ok(profiles[index[name]])
      else if |profiles| == 1 then r.Ok? && IsOnly(profiles, r.value)
      else r == Err(UnrecognizedName(name))
    case None =>
      if |profiles| == 0 then r == Err(NoProfiles)
      else if |profiles| == 1 then r.Ok? && IsOnly(profiles, r.value)
      else r == Err(SniRequired)
  }

  lemma OnlyEntry(profiles: Profiles, id: ServiceId)
    requires |profiles| == 1 && id in profiles
    ensures profiles == map[id := profiles[id]] && IsOnly(profiles, profiles[id])
  {
    assert |profiles.Keys| == 1;
    forall k | k in profiles ensures k == id {
      assert |profiles.Keys - {id}| == 0;
      assert k !in profiles.Keys - {id};
    }
  }

  class TlsListenerManager {
    var router: Option<nat>
    var profiles: Profiles
    var sniIndex: SniIndex
    var boundAddr: Option<Addr>
    var running: bool

    ghost predicate Valid()
      reads this
    {
      && (forall n :: n in sniIndex ==> sniIndex[n] in profiles)
      && (running <==> boundAddr.Some?)
      && (running ==> router.Some?)
    }

    constructor ()
      ensures Valid() && router == None && profiles == map[] && sniIndex == map[] && !running
    {
      router, boundAddr := None, None;
      profiles, sniIndex, running := map[], map[], false;
    }

    /** Stores the configuration, then claims its host name if it has one. */
    method StoreServiceConfig(config: ServiceConfig)
      requires Valid()
      modifies this`profiles, this`sniIndex
      ensures Valid()
      ensures profiles == old(profiles)[config.service := config]
      ensures sniIndex == match config.sni
                          case Some(name) => old(sniIndex)[name := config.service]
                          case None => old(sniIndex)
    {
      profiles := profiles[config.service := config];
      match config.sni {
        case Some(name) => sniIndex := sniIndex[name := config.service];
        case None =>
      }
    }

    method SelectServiceConfig(sni: Option<string>) returns (r: Result<ServiceConfig, TlsError>)
      ensures Selects(profiles, sniIndex, sni, r)
    {
      if sni.Some? {
        var name := sni.value;
        if name in sniIndex && sniIndex[name] in profiles {
          return Ok(profiles[sniIndex[name]]);
        }
        if |profiles| == 1 {
          r := TheOnly();
          return;
        }
        return Err(UnrecognizedName(name));
      }
      if |profiles| == 0 {
        return Err(NoProfiles);
      } else if |profiles| == 1 {
        r := TheOnly();
      } else {
        return Err(SniRequired);
      }
    }

    method TheOnly() returns (r: Result<ServiceConfig, TlsError>)
      requires |profiles| == 1
      ensures r.Ok? && IsOnly(profiles, r.value)
    {
      assert profiles.Keys != {} by { assert |profiles.Keys| == 1; }
      var id :| id in profiles.Keys;
      OnlyEntry(profiles, id);
      r := Ok(profiles[id]);
    }

    /** A second installation is ignored. */
    method InstallRouter(newRouter: nat) returns (installed: bool)
      requires Valid()
      modifies this`router
      ensures Valid() && router.Some?
      ensures installed <==> old(router).None?
      ensures router == if installed then Some(newRouter) else old(router)
    {
      installed := router.None?;
      if installed {
        router := Some(newRouter);
      }
    }

    /** Binds once a router is installed; an occupied port falls back to the second answer. */
    method EnsureListener(first: BindAnswer, fallback: BindAnswer) returns (r: Result<(), TlsError>)
      requires Valid()
      modifies this`boundAddr, this`running
      ensures Valid()
      ensures old(running) || router.None? ==> r.Ok? && running == old(running) && boundAddr == old(boundAddr)
      ensures !old(running) && router.Some? ==>
                match (first, fallback)
                case (Bound(a), _) => r.Ok? && boundAddr == Some(a)
                case (AddrInUse, Bound(a)) => r.Ok? && boundAddr == Some(a)
                case _ => r == Err(BindFailed) && boundAddr == None
    {
      if running || router.None? {
        return Ok(());
      }
      match first {
        case Bound(a) => boundAddr := Some(a);
        case AddrInUse =>
          match fallback {
            case Bound(a) => boundAddr := Some(a);
            case _ => return Err(BindFailed);
          }
        case Refused => return Err(BindFailed);
      }
      running := true;
      return Ok(());
    }

    /** Succeeds exactly when a listener is running afterwards. */
    method UpsertServiceProfile(config: ServiceConfig, first: BindAnswer, fallback: BindAnswer)
      returns (r: Result<Addr, TlsError>)
      requires Valid()
      modifies this`profiles, this`sniIndex, this`boundAddr, this`running
      ensures Valid() && profiles == old(profiles)[config.service := config]
      ensures sniIndex == match config.sni
                          case Some(name) => old(sniIndex)[name := config.service]
                          case None => old(sniIndex)
      ensures r.Ok? <==> running
      ensures r.Ok? ==> boundAddr == Some(r.value)
      ensures old(running) ==> r == Ok(old(boundAddr).value)
    {
      StoreServiceConfig(config);
      var started := EnsureListener(first, fallback);
      if started.Err? {
        return Err(started.error);
      }
      match boundAddr {
        case Some(a) => return Ok(a);
        case None => return Err(NotInitialised);
      }
    }
  }

  // ---- interleaved use ----

  /** A store that has written the profile but not yet the index. */
  datatype Task = Indexing(config: ServiceConfig) | Binding

  datatype State = State(router: Option<nat>, profiles: Profiles, index: SniIndex,
                         lock: Option<nat>, addr: Option<Addr>, running: bool, binds: nat, tasks: map<nat, Task>)

  /** `Idle` is an attempt to start that finds a running listener or no router. */
  datatype Step =
    | StoreProfile(tid: nat, config: ServiceConfig)
    | StoreIndex(tid: nat)
    | InstallRouter(router: nat)
    | BeginBind(tid: nat)
    | FinishBind(tid: nat, answer: BindAnswer)
    | Idle

  ghost predicate Initial(s: State)
  {
    s == State(None, map[], map[], None, None, false, 0, map[])
  }

  /** The life-cycle lock is held from the checks to the end of the bind. */
  ghost predicate Enabled(s: State, step: Step)
  {
    match step
    case StoreProfile(tid, _) => tid !in s.tasks
    case StoreIndex(tid) => tid in s.tasks && s.tasks[tid].Indexing? && s.tasks[tid].config.sni.Some?
    case InstallRouter(_) => true
    case BeginBind(tid) => tid !in s.tasks && s.lock.None? && !s.running && s.router.Some?
    case FinishBind(tid, _) => tid in s.tasks && s.tasks[tid].Binding? && s.lock == Some(tid)
    case Idle => s.lock.None? && (s.running || s.router.None?)
  }

  ghost function Next(s: State, step: Step): State
    requires Enabled(s, step)
  {
    match step
    case StoreProfile(tid, config) =>
      var s' := s.(profiles := s.profiles[config.service := config]);
      if config.sni.None? then s' else s'.(tasks := s.tasks[tid := Indexing(config)])
    case StoreIndex(tid) =>
      var config := s.tasks[tid].config;
      s.(index := s.index[config.sni.value := config.service], tasks := s.tasks - {tid})
    case InstallRouter(router) => if s.router.Some? then s else s.(router := Some(router))
    case BeginBind(tid) => s.(lock := Some(tid), tasks := s.tasks[tid := Binding])
    case FinishBind(tid, answer) =>
      var s' := s.(lock := None, tasks := s.tasks - {tid});
      if answer.Bound? then s'.(addr := Some(answer.addr), running := true, binds := s.binds + 1) else s'
    case Idle => s
  }

  datatype Run = Run(states: seq<State>, steps: seq<Step>)

  ghost predicate StepAt(r: Run, i: int)
  {
    0 <= i < |r.steps| && |r.states| == |r.steps| + 1 ==>
      Enabled(r.states[i], r.steps[i]) && r.states[i + 1] == Next(r.states[i], r.steps[i])
  }

  ghost predicate IsRun(r: Run)
  {
    |r.states| == |r.steps| + 1 && Initial(r.states[0]) && forall i :: StepAt(r, i)
  }

  // ---- safety of every reachable state ----

  /** Pending and finished claims name stored profiles; binding happens once, under the lock, with a router. */
  ghost predicate Safe(s: State)
  {
    && (forall n :: n in s.index ==> s.index[n] in s.profiles)
    && (forall tid :: tid in s.tasks && s.tasks[tid].Indexing? ==>
          s.tasks[tid].config.sni.Some? && s.tasks[tid].config.service in s.profiles)
    && (forall tid :: tid in s.tasks && s.tasks[tid].Binding? ==> s.lock == Some(tid))
    && (s.lock.Some? ==> !s.running && s.router.Some? && s.lock.value in s.tasks && s.tasks[s.lock.value].Binding?)
    && (s.running <==> s.addr.Some?)
    && s.binds == (if s.running then 1 else 0)
    && (s.running ==> s.router.Some?)
  }

  lemma StepKeepsSafe(s: State, step: Step)
    requires Safe(s) && Enabled(s, step)
    ensures Safe(Next(s, step))
    ensures s.running ==> Next(s, step).running && Next(s, step).addr == s.addr
    ensures s.router.Some? ==> Next(s, step).router == s.router
  {}

  lemma {:induction false} RunKeepsSafe(r: Run, k: nat)
    requires IsRun(r) && k < |r.states|
    ensures Safe(r.states[k])
  {
    if k > 0 {
      RunKeepsSafe(r, k - 1);
      assert StepAt(r, k - 1);
      StepKeepsSafe(r.states[k - 1], r.steps[k - 1]);
    }
  }

  /** A bound listener stays bound to the same address, and an installed router stays installed. */
  lemma {:induction false} ListenerIsStable(r: Run, j: nat, k: nat)
    requires IsRun(r) && j <= k < |r.states|
    ensures r.states[j].running ==> r.states[k].running && r.states[k].addr == r.states[j].addr
    ensures r.states[j].router.Some? ==> r.states[k].router == r.states[j].router
    decreases k - j
  {
    if j < k {
      ListenerIsStable(r, j, k - 1);
      RunKeepsSafe(r, k - 1);
      assert StepAt(r, k - 1);
      StepKeepsSafe(r.states[k - 1], r.steps[k - 1]);
    }
  }

  /** The listener is bound at most once, and only after a router was installed. */
  lemma BoundOnceAfterRouter(r: Run, k: nat)
    requires IsRun(r) && k < |r.steps| && r.steps[k].FinishBind? && r.steps[k].answer.Bound?
    ensures r.states[k].router.Some? && !r.states[k].running
    ensures forall j :: k < j < |r.steps| ==> !(r.steps[j].FinishBind? && r.steps[j].answer.Bound?)
  {
    assert StepAt(r, k);
    RunKeepsSafe(r, k);
    forall j | k < j < |r.steps| ensures !r.steps[j].FinishBind? {
      assert StepAt(r, j);
      RunKeepsSafe(r, j);
      ListenerIsStable(r, k + 1, j);
    }
  }

  // ---- no run gets stuck ----

  /** The run with one more step. */
  ghost function Push(r: Run, step: Step): Run
    requires r.states != [] && Enabled(r.states[|r.states| - 1], step)
  {
    Run(r.states + [Next(r.states[|r.states| - 1], step)], r.steps + [step])
  }

  lemma PushRuns(r: Run, step: Step)
    requires IsRun(r) && Enabled(r.states[|r.steps|], step)
    ensures IsRun(Push(r, step))
  {
    var r' := Push(r, step);
    forall i ensures StepAt(r', i) {
      assert StepAt(r, i);
    }
  }

  lemma {:induction false} UnusedId(ids: set<nat>) returns (n: nat)
    ensures forall x :: x in ids ==> x < n
  {
    n := 0;
    if ids != {} {
      var x :| x in ids;
      n := UnusedId(ids - {x});
      n := if x < n then n else x + 1;
      forall y | y in ids ensures y < n {
        assert y == x || y in ids - {x};
      }
    }
  }

  /** In every reachable state a stuck bind can be given up, after which the lock is free and nothing else has changed. */
  lemma LockIsReleased(r: Run) returns (longer: Run)
    requires IsRun(r)
    ensures IsRun(longer) && r.states <= longer.states
    ensures var s, s' := r.states[|r.steps|], longer.states[|longer.steps|];
            s'.lock == None && (s'.router, s'.profiles, s'.index, s'.running) == (s.router, s.profiles, s.index, s.running)
  {
    longer := r;
    var s := r.states[|r.steps|];
    if s.lock.Some? {
      RunKeepsSafe(r, |r.steps|);
      PushRuns(r, FinishBind(s.lock.value, Refused));
      longer := Push(r, FinishBind(s.lock.value, Refused));
    }
  }

  /** Once a router is installed, the listener can be brought up from every reachable state, at any address. */
  lemma ListenerCanStart(r: Run, addr: Addr) returns (longer: Run)
    requires IsRun(r) && r.states[|r.steps|].router.Some? && !r.states[|r.steps|].running
    ensures IsRun(longer) && r.states <= longer.states
    ensures longer.states[|longer.steps|].running && longer.states[|longer.steps|].addr == Some(addr)
  {
    longer := LockIsReleased(r);
    var tid := UnusedId(longer.states[|longer.steps|].tasks.Keys);
    PushRuns(longer, BeginBind(tid));
    longer := Push(longer, BeginBind(tid));
    PushRuns(longer, FinishBind(tid, Bound(addr)));
    longer := Push(longer, FinishBind(tid, Bound(addr)));
  }

  /** In every reachable state any configuration can be published under its name, whatever else is under way. */
  lemma ProfileCanBePublished(r: Run, config: ServiceConfig, name: string, answer: Result<ServiceConfig, TlsError>)
    returns (longer: Run)
    requires IsRun(r) && config.sni == Some(name)
    ensures IsRun(longer) && r.states <= longer.states
    ensures var s := longer.states[|longer.steps|];
            Selects(s.profiles, s.index, Some(name), answer) <==> answer == Ok(config)
  {
    var tid := UnusedId(r.states[|r.steps|].tasks.Keys);
    PushRuns(r, StoreProfile(tid, config));
    longer := Push(r, StoreProfile(tid, config));
    PushRuns(longer, StoreIndex(tid));
    longer := Push(longer, StoreIndex(tid));
  }

  // ---- the registry is what the history says ----

  /** The configuration stored last for a service among the first k steps. */
  ghost function LastStored(r: Run, k: nat, id: ServiceId): Option<ServiceConfig>
    requires k <= |r.steps|
  {
    if k == 0 then None
    else if r.steps[k - 1].StoreProfile? && r.steps[k - 1].config.service == id then Some(r.steps[k - 1].config)
    else LastStored(r, k - 1, id)
  }

  /** The service that claimed a host name last among the first k steps. */
  ghost function LastClaim(r: Run, k: nat, name: string): Option<ServiceId>
    requires IsRun(r) && k <= |r.steps|
  {
    if k == 0 then None
    else
      assert StepAt(r, k - 1);
      if r.steps[k - 1].StoreIndex? && r.states[k - 1].tasks[r.steps[k - 1].tid].config.sni == Some(name)
      then Some(r.states[k - 1].tasks[r.steps[k - 1].tid].config.service)
      else LastClaim(r, k - 1, name)
  }

  function Get<K, V>(m: map<K, V>, k: K): Option<V>
  {
    if k in m then Some(m[k]) else None
  }

  lemma {:induction false} RegistryIsHistory(r: Run, k: nat, id: ServiceId, name: string)
    requires IsRun(r) && k < |r.states|
    ensures Get(r.states[k].profiles, id) == LastStored(r, k, id)
    ensures Get(r.states[k].index, name) == LastClaim(r, k, name)
  {
    if k > 0 {
      RegistryIsHistory(r, k - 1, id, name);
      assert StepAt(r, k - 1);
    }
  }

  /**
   A client that asks for a claimed name gets the configuration stored last by the service that claimed
   the name last, even if that service has since been configured for another name.
   */
  lemma ClaimedNameResolves(r: Run, k: nat, name: string, answer: Result<ServiceConfig, TlsError>)
    requires IsRun(r) && k < |r.states| && LastClaim(r, k, name).Some?
    requires Selects(r.states[k].profiles, r.states[k].index, Some(name), answer)
    ensures answer.Ok? && LastStored(r, k, LastClaim(r, k, name).value) == Some(answer.value)
  {
    var id := LastClaim(r, k, name).value;
    RegistryIsHistory(r, k, id, name);
    RunKeepsSafe(r, k);
  }

  /** A name nobody claimed is served only when there is exactly one service. */
  lemma UnclaimedName(r: Run, k: nat, name: string, answer: Result<ServiceConfig, TlsError>)
    requires IsRun(r) && k < |r.states| && LastClaim(r, k, name).None?
    requires Selects(r.states[k].profiles, r.states[k].index, Some(name), answer)
    ensures answer.Ok? <==> |r.states[k].profiles| == 1
  {
    RegistryIsHistory(r, k, ServiceId(0, 0), name);
  }
}
