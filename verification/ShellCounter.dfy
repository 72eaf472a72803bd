/**
  The shell sessions and the daemon's `shellsSpawned` counter, handler by handler: each
  handler, sweep and health-check timeout is one step on a value.  What the operating
  system answers to stopping a shell, and whether the process still exists, is arbitrary.
 */
module ShellCounter {
  import opened SessionRegistry

  datatype Status = Active | Expired | Idle | Hanged | Empty | New

  /** The part of a session that changes after its creation; `started` is `s.shell != nil`. */
  datatype Shell = Shell(status: Status, started: bool, expiresAt: int, activeAt: int)

  /** Go's zero time, before every clock reading. */
  const ZERO_TIME: int := 0

  const DEFAULT_EXPIRE: int := 1024   // seconds

  datatype Config = Config(maxShells: nat, maxPerUser: nat, expireAfter: int, expireAfterIdle: int)

  datatype State = State(
    registry: Registry, shells: map<nat, Shell>, next: nat,
    idleTimeout: int,   // defaultSessionIdleExpiredTimeout
    spawned: nat)       // shellsSpawned

  const INITIAL: State := State(EMPTY, map[], 0, 0, 0)

  /** What stopping each shell gives, and whether its process exists afterwards. */
  datatype Answers = Answers(stops: nat -> bool, survives: nat -> bool)

  function ShellOf(st: State, ref: nat): Shell {
    if ref in st.shells then st.shells[ref] else Shell(New, false, ZERO_TIME, ZERO_TIME)
  }

  predicate Running(sh: Shell) {
    sh.status == Active || sh.status == Hanged
  }

  /** `StopShell` returns no error. */
  predicate StopOk(st: State, ans: Answers, ref: nat) {
    Running(ShellOf(st, ref)) && ans.stops(ref)
  }

  /** `StopShell` on each of the sessions: a running one becomes empty, whatever error follows. */
  function MarkStopped(shells: map<nat, Shell>, refs: set<nat>): map<nat, Shell> {
    map ref | ref in shells ::
      if ref in refs && Running(shells[ref]) then shells[ref].(status := Empty) else shells[ref]
  }

  function RefsOf(r: Registry, ids: set<string>): set<nat> {
    set id | id in ids && id in r.byId :: r.byId[id].ref
  }

  /** `DecreaseSpawnedShellsCount`. */
  function Decrease(spawned: nat, n: nat): nat {
    if n >= spawned then 0 else spawned - n
  }

  /** `IsExpired` at one clock reading: an idle timeout, once set, replaces the expiry time. */
  predicate IsExpired(st: State, sh: Shell, now: int) {
    if st.idleTimeout != 0 then now > sh.activeAt + st.idleTimeout else now > sh.expiresAt
  }

  function ExpiredIds(st: State, now: int): set<string> {
    set id | id in st.registry.byId && IsExpired(st, ShellOf(st, st.registry.byId[id].ref), now)
  }

  function StoppedOk(st: State, ans: Answers, ids: set<string>): set<string> {
    set id | id in ids && id in st.registry.byId && StopOk(st, ans, st.registry.byId[id].ref)
  }

  /** Stop and delete the given sessions. */
  function Terminate(st: State, ids: set<string>): State {
    st.(registry := Without(st.registry, ids), shells := MarkStopped(st.shells, RefsOf(st.registry, ids)))
  }

  // ---------------------------------------------------------------- the handlers

  function Registered(c: Config, st: State, id: string, user: string, now: int): State {
    State(Insert(st.registry, Session(st.next, id, user)),
          st.shells[st.next := Shell(New, false,
                                     now + (if c.expireAfter == 0 then DEFAULT_EXPIRE else c.expireAfter),
                                     ZERO_TIME)],
          st.next + 1,
          if c.expireAfterIdle != 0 then c.expireAfterIdle else st.idleTimeout,
          st.spawned)
  }

  datatype SpawnResult = Spawned | TooManyShells | TooManySessions | AlreadyRunning | StartFailed

  /** `StartShell` on a registered session, and the counter after it. */
  function Start(st: State, ref: nat, now: int, execOk: bool): (State, SpawnResult) {
    if Running(ShellOf(st, ref)) then (st, AlreadyRunning)
    else if !execOk then (st, StartFailed)
    else (st.(shells := st.shells[ref := ShellOf(st, ref).(status := Active, started := true, activeAt := now)],
              spawned := st.spawned + 1), Spawned)
  }

  /** `routeMessageSpawnShell`. */
  function Spawn(c: Config, st: State, id: string, user: string, now: int, execOk: bool): (State, SpawnResult) {
    if st.spawned >= c.maxShells then (st, TooManyShells)
    else if id in st.registry.byId then Start(st, st.registry.byId[id].ref, now, execOk)
    else if |UserList(st.registry, user)| >= c.maxPerUser then (st, TooManySessions)
    else Start(Registered(c, st, id, user, now), st.next, now, execOk)
  }

  /** `routeMessageStopShell` with a session id. */
  function StopOne(st: State, ans: Answers, id: string): State {
    if id !in st.registry.byId then st
    else
      var ref := st.registry.byId[id].ref;
      var kept := !StopOk(st, ans, ref) && ans.survives(ref);
      st.(registry := if kept then st.registry else Without(st.registry, {id}),
          shells := MarkStopped(st.shells, {ref}),
          spawned := if kept then st.spawned else Decrease(st.spawned, 1))
  }

  function UserIds(r: Registry, user: string): set<string> {
    set s | s in UserList(r, user) :: s.id
  }

  function StartedAmong(st: State, ids: set<string>): set<string> {
    set id | id in ids && id in st.registry.byId && ShellOf(st, st.registry.byId[id].ref).started
  }

  /** The sessions whose shell could not be stopped and whose process still exists. */
  function Survivors(st: State, ans: Answers, ids: set<string>): set<string> {
    set id | id in ids && id in st.registry.byId
             && !StopOk(st, ans, st.registry.byId[id].ref) && ans.survives(st.registry.byId[id].ref)
  }

  /** `MenderShellStopByUserId`: sessions without a shell are skipped, survivors are kept. */
  function StopUser(st: State, ans: Answers, user: string): State {
    var tried := StartedAmong(st, UserIds(st.registry, user));
    st.(registry := Without(st.registry, tried - Survivors(st, ans, tried)),
        shells := MarkStopped(st.shells, RefsOf(st.registry, tried)))
  }

  /** `routeMessageStopShell` without a session id. */
  function StopByUser(st: State, ans: Answers, user: string): State {
    var tried := StartedAmong(st, UserIds(st.registry, user));
    if user == "" || UserList(st.registry, user) == [] then st
    else
      StopUser(st, ans, user).(
        spawned := if Survivors(st, ans, tried) == {} then Decrease(st.spawned, |tried|) else st.spawned)
  }

  /** `MenderSessionTerminateAll` and the counter update of `processJwtTokenStateChange`. */
  function Deauthorize(st: State, ans: Answers): State {
    var ids := st.registry.byId.Keys;
    Terminate(st, ids).(spawned := Decrease(st.spawned, |StoppedOk(st, ans, ids)|))
  }

  /** `MenderSessionTerminateExpired` and the counter update of the main loop. */
  function Sweep(st: State, ans: Answers, now: int): State {
    var ids := ExpiredIds(st, now);
    Terminate(st, ids).(
      spawned := if StoppedOk(st, ans, ids) == ids then Decrease(st.spawned, |ids|) else st.spawned)
  }

  /** `MenderShellStopById`, with no counter update. */
  function StoppedById(st: State, ans: Answers, id: string): State {
    if id !in st.registry.byId || !ShellOf(st, st.registry.byId[id].ref).started then st
    else
      var ref := st.registry.byId[id].ref;
      var kept := !StopOk(st, ans, ref) && ans.survives(ref);
      st.(registry := if kept then st.registry else Without(st.registry, {id}),
          shells := MarkStopped(st.shells, {ref}))
  }

  /** The health-check timeout: the session expires now, and is stopped. */
  function HealthTimeout(st: State, now: int, ans: Answers, id: string): State {
    if id !in st.registry.byId || !ShellOf(st, st.registry.byId[id].ref).started then st
    else
      var ref := st.registry.byId[id].ref;
      StoppedById(st.(shells := st.shells[ref := ShellOf(st, ref).(expiresAt := now)]), ans, id)
  }

  /** Input for a session's shell, `ShellCommand`: the session was active just now. */
  function Touch(st: State, now: int, id: string): State {
    if id !in st.registry.byId || !ShellOf(st, st.registry.byId[id].ref).started then st
    else
      var ref := st.registry.byId[id].ref;
      st.(shells := st.shells[ref := ShellOf(st, ref).(activeAt := now)])
  }

  datatype Event =
    | SpawnShell(id: string, user: string, now: int, execOk: bool)
    | StopMessage(id: string, user: string, ans: Answers)
    | Unauthorized(ans: Answers)
    | ExpirySweep(now: int, ans: Answers)
    | HealthCheckTimeout(id: string, now: int, ans: Answers)
    | ShellInput(id: string, now: int)

  function Step(c: Config, st: State, e: Event): State {
    match e
    case SpawnShell(id, user, now, execOk) => Spawn(c, st, id, user, now, execOk).0
    case StopMessage(id, user, ans) => if id == "" then StopByUser(st, ans, user) else StopOne(st, ans, id)
    case Unauthorized(ans) => Deauthorize(st, ans)
    case ExpirySweep(now, ans) => Sweep(st, ans, now)
    case HealthCheckTimeout(id, now, ans) => HealthTimeout(st, now, ans, id)
    case ShellInput(id, now) => Touch(st, now, id)
  }

  function RunEvents(c: Config, st: State, events: seq<Event>): State
    decreases |events|
  {
    if events == [] then st else RunEvents(c, Step(c, st, events[0]), events[1..])
  }

  /** The session is registered and its shell was started once. */
  predicate IsStarted(st: State, id: string) {
    id in st.registry.byId && ShellOf(st, st.registry.byId[id].ref).started
  }

  /** Its shell cannot be stopped, and its process survives. */
  predicate Survives(st: State, ans: Answers, id: string) {
    id in st.registry.byId && !StopOk(st, ans, st.registry.byId[id].ref) && ans.survives(st.registry.byId[id].ref)
  }

  // ---------------------------------------------------------------- well-formed states

  predicate RefsOk(st: State) {
    && (forall ref :: ref in st.shells ==> ref < st.next)
    && (forall id :: id in st.registry.byId ==> st.registry.byId[id].ref in st.shells)
    && (forall a, b :: a in st.registry.byId && b in st.registry.byId && a != b ==>
          st.registry.byId[a].ref != st.registry.byId[b].ref)
  }

  predicate RunningIsStarted(shells: map<nat, Shell>) {
    forall ref :: ref in shells && Running(shells[ref]) ==> shells[ref].started
  }

  predicate ShellsOk(st: State) {
    RefsOk(st) && RunningIsStarted(st.shells)
  }

  /** The registered sessions whose shell was started. */
  function StartedIds(st: State): set<string> {
    StartedAmong(st, st.registry.byId.Keys)
  }

  predicate Capped(c: Config, st: State) {
    |StartedIds(st)| <= st.spawned <= c.maxShells
  }

  /** A stop message for a session whose shell never started, and whose pid names no process. */
  predicate PhantomStop(st: State, e: Event) {
    && e.StopMessage? && e.id in st.registry.byId && e.id != ""
    && !ShellOf(st, st.registry.byId[e.id].ref).started
    && !e.ans.survives(st.registry.byId[e.id].ref)
  }

  // ---------------------------------------------------------------- removal

  /** What a removal of `ids`, with some shells stopped, does to the started sessions. */
  lemma Removal(st: State, ids: set<string>, refs: set<nat>, t: State)
    requires ShellsOk(st)
    requires t.registry.byId == st.registry.byId - ids
    requires t.shells == MarkStopped(st.shells, refs) && t.next == st.next
    ensures ShellsOk(t)
    ensures StartedIds(t) == StartedIds(st) - ids
  {
  }

  lemma Subtract(all: set<string>, gone: set<string>)
    ensures |all - gone| <= |all|
    ensures gone <= all ==> |all - gone| == |all| - |gone|
  {
    assert all == (all - gone) + (all * gone);
    assert gone <= all ==> all * gone == gone;
  }

  /** Removing `gone` and counting down by no more than the started sessions among them keeps the cap. */
  lemma RemovalKeepsCap(c: Config, st: State, gone: set<string>, n: nat, counted: set<string>)
    requires Capped(c, st) && counted <= StartedIds(st) && counted <= gone && n == |counted|
    ensures |StartedIds(st) - gone| <= Decrease(st.spawned, n) <= c.maxShells
  {
    var all := StartedIds(st);
    Subtract(all, counted);
    Subtract(all - counted, gone - counted);
    assert (all - counted) - (gone - counted) == all - gone;
  }

  // ---------------------------------------------------------------- each handler

  predicate Ok(c: Config, st: State) {
    ShellsOk(st) && Capped(c, st)
  }

  lemma RegisterKeeps(c: Config, st: State, id: string, user: string, now: int)
    requires Ok(c, st) && id !in st.registry.byId
    ensures Ok(c, Registered(c, st, id, user, now))
  {
    assert StartedIds(Registered(c, st, id, user, now)) == StartedIds(st);
  }

  lemma StartKeeps(c: Config, st: State, id: string, now: int, execOk: bool)
    requires Ok(c, st) && st.spawned < c.maxShells && id in st.registry.byId
    ensures Ok(c, Start(st, st.registry.byId[id].ref, now, execOk).0)
  {
    var t := Start(st, st.registry.byId[id].ref, now, execOk).0;
    if t != st {
      assert StartedIds(t) == StartedIds(st) + {id};
    }
  }

  lemma SpawnKeeps(c: Config, st: State, id: string, user: string, now: int, execOk: bool)
    requires Ok(c, st)
    ensures Ok(c, Spawn(c, st, id, user, now, execOk).0)
  {
    if st.spawned < c.maxShells {
      if id in st.registry.byId {
        StartKeeps(c, st, id, now, execOk);
      } else if |UserList(st.registry, user)| < c.maxPerUser {
        RegisterKeeps(c, st, id, user, now);
        StartKeeps(c, Registered(c, st, id, user, now), id, now, execOk);
      }
    }
  }

  lemma StopOneKeeps(c: Config, st: State, ans: Answers, id: string)
    requires Ok(c, st) && id in st.registry.byId
    ensures var ref := st.registry.byId[id].ref;
            var phantom := !ShellOf(st, ref).started && !ans.survives(ref);
            && ShellsOk(StopOne(st, ans, id))
            && (Capped(c, StopOne(st, ans, id)) <==> !(phantom && |StartedIds(st)| == st.spawned > 0))
  {
    var ref, t := st.registry.byId[id].ref, StopOne(st, ans, id);
    if !StopOk(st, ans, ref) && ans.survives(ref) {
      Removal(st, {}, {ref}, t);
    } else {
      Removal(st, {id}, {ref}, t);
      if ShellOf(st, ref).started {
        RemovalKeepsCap(c, st, {id}, 1, {id});
      } else {
        assert StartedIds(st) - {id} == StartedIds(st);
      }
    }
  }

  lemma StopByUserKeeps(c: Config, st: State, ans: Answers, user: string)
    requires Ok(c, st)
    ensures Ok(c, StopByUser(st, ans, user))
  {
    var tried := StartedAmong(st, UserIds(st.registry, user));
    var gone := tried - Survivors(st, ans, tried);
    var t := StopByUser(st, ans, user);
    if user == "" || UserList(st.registry, user) == [] {
      return;
    }
    Removal(st, gone, RefsOf(st.registry, tried), t);
    if Survivors(st, ans, tried) == {} {
      RemovalKeepsCap(c, st, tried, |tried|, tried);
      assert gone == tried;
    } else {
      RemovalKeepsCap(c, st, gone, 0, {});
    }
  }

  lemma DeauthorizeKeeps(c: Config, st: State, ans: Answers)
    requires Ok(c, st)
    ensures Ok(c, Deauthorize(st, ans)) && Deauthorize(st, ans).registry.byId == map[]
  {
    var ids := st.registry.byId.Keys;
    var counted := StoppedOk(st, ans, ids);
    Removal(st, ids, RefsOf(st.registry, ids), Deauthorize(st, ans));
    RemovalKeepsCap(c, st, ids, |counted|, counted);
  }

  lemma SweepKeeps(c: Config, st: State, ans: Answers, now: int)
    requires Ok(c, st)
    ensures Ok(c, Sweep(st, ans, now))
  {
    var ids := ExpiredIds(st, now);
    Removal(st, ids, RefsOf(st.registry, ids), Sweep(st, ans, now));
    if StoppedOk(st, ans, ids) == ids {
      assert ids <= StartedIds(st);
      RemovalKeepsCap(c, st, ids, |ids|, ids);
    } else {
      RemovalKeepsCap(c, st, ids, 0, {});
    }
  }

  /** A change of the clock readings of one session matters to neither the shells nor the cap. */
  lemma ClockKeeps(c: Config, st: State, ref: nat, sh: Shell)
    requires Ok(c, st) && ref in st.shells
    requires sh.status == st.shells[ref].status && sh.started == st.shells[ref].started
    ensures Ok(c, st.(shells := st.shells[ref := sh]))
  {
    assert StartedIds(st.(shells := st.shells[ref := sh])) == StartedIds(st);
  }

  lemma StoppedByIdKeeps(c: Config, st: State, ans: Answers, id: string)
    requires Ok(c, st)
    ensures Ok(c, StoppedById(st, ans, id))
  {
    if id in st.registry.byId && ShellOf(st, st.registry.byId[id].ref).started {
      var ref := st.registry.byId[id].ref;
      var gone := if !StopOk(st, ans, ref) && ans.survives(ref) then {} else {id};
      Removal(st, gone, {ref}, StoppedById(st, ans, id));
      RemovalKeepsCap(c, st, gone, 0, {});
    }
  }

  lemma HealthTimeoutKeeps(c: Config, st: State, now: int, ans: Answers, id: string)
    requires Ok(c, st)
    ensures Ok(c, HealthTimeout(st, now, ans, id))
  {
    if id in st.registry.byId && ShellOf(st, st.registry.byId[id].ref).started {
      var ref := st.registry.byId[id].ref;
      var sh := st.shells[ref].(expiresAt := now);
      ClockKeeps(c, st, ref, sh);
      StoppedByIdKeeps(c, st.(shells := st.shells[ref := sh]), ans, id);
    }
  }

  lemma TouchKeeps(c: Config, st: State, now: int, id: string)
    requires Ok(c, st)
    ensures Ok(c, Touch(st, now, id))
  {
    if id in st.registry.byId && ShellOf(st, st.registry.byId[id].ref).started {
      var ref := st.registry.byId[id].ref;
      ClockKeeps(c, st, ref, st.shells[ref].(activeAt := now));
    }
  }

  /** Every handler but the spawn changes the indexes only by removing sessions from both. */
  lemma StepRemoves(c: Config, st: State, e: Event)
    requires !e.SpawnShell?
    ensures exists gone :: Step(c, st, e).registry == Without(st.registry, gone)
  {
    WithoutNothing(st.registry);
  }

  lemma StepKeepsAgreement(c: Config, st: State, e: Event)
    requires Agreement(st.registry, c.maxPerUser)
    ensures Agreement(Step(c, st, e).registry, c.maxPerUser)
  {
    var t := Step(c, st, e).registry;
    if e.SpawnShell? {
      if t != st.registry {
        FreshInsertAgrees(st.registry, c.maxPerUser, Session(st.next, e.id, e.user));
      }
    } else {
      StepRemoves(c, st, e);
      var gone :| t == Without(st.registry, gone);
      WithoutKeepsAgreement(st.registry, c.maxPerUser, gone);
    }
  }

  /**
    Exactly one kind of step breaks the cap: stopping a session whose shell never started
    and whose process does not exist, while the counter equals the number of started sessions.
   */
  lemma StepKeepsCapExactly(c: Config, st: State, e: Event)
    requires Ok(c, st)
    ensures ShellsOk(Step(c, st, e))
    ensures Capped(c, Step(c, st, e)) <==> !(PhantomStop(st, e) && |StartedIds(st)| == st.spawned > 0)
  {
    match e
    case SpawnShell(id, user, now, execOk) => SpawnKeeps(c, st, id, user, now, execOk);
    case StopMessage(id, user, ans) =>
      if id == "" {
        StopByUserKeeps(c, st, ans, user);
      } else if id in st.registry.byId {
        StopOneKeeps(c, st, ans, id);
      }
    case Unauthorized(ans) => DeauthorizeKeeps(c, st, ans);
    case ExpirySweep(now, ans) => SweepKeeps(c, st, ans, now);
    case HealthCheckTimeout(id, now, ans) => HealthTimeoutKeeps(c, st, now, ans, id);
    case ShellInput(id, now) => TouchKeeps(c, st, now, id);
  }

  // ---------------------------------------------------------------- whole runs

  /** No event of the run stops a session whose shell never started. */
  predicate NoPhantomStops(c: Config, st: State, events: seq<Event>)
    decreases |events|
  {
    events == [] || (!PhantomStop(st, events[0]) && NoPhantomStops(c, Step(c, st, events[0]), events[1..]))
  }

  lemma {:induction false} RunKeepsCap(c: Config, st: State, events: seq<Event>)
    requires Ok(c, st) && Agreement(st.registry, c.maxPerUser) && NoPhantomStops(c, st, events)
    ensures Ok(c, RunEvents(c, st, events)) && Agreement(RunEvents(c, st, events).registry, c.maxPerUser)
    decreases |events|
  {
    if events != [] {
      StepKeepsCapExactly(c, st, events[0]);
      StepKeepsAgreement(c, st, events[0]);
      RunKeepsCap(c, Step(c, st, events[0]), events[1..]);
    }
  }

  /** Starting the shell of a newly registered session succeeds. */
  predicate FreshStartsSucceed(c: Config, st: State, events: seq<Event>)
    decreases |events|
  {
    events == []
    || (var e := events[0];
        && (e.SpawnShell? && e.id !in st.registry.byId ==> e.execOk)
        && FreshStartsSucceed(c, Step(c, st, e), events[1..]))
  }

  predicate AllStarted(st: State) {
    forall id :: id in st.registry.byId ==> ShellOf(st, st.registry.byId[id].ref).started
  }

  lemma StepKeepsAllStarted(c: Config, st: State, e: Event)
    requires ShellsOk(st) && AllStarted(st)
    requires e.SpawnShell? && e.id !in st.registry.byId ==> e.execOk
    ensures AllStarted(Step(c, st, e))
  {
  }

  lemma {:induction false} FreshStartsMeanNoPhantoms(c: Config, st: State, events: seq<Event>)
    requires Ok(c, st) && AllStarted(st) && FreshStartsSucceed(c, st, events)
    ensures NoPhantomStops(c, st, events) && AllStarted(RunEvents(c, st, events))
    decreases |events|
  {
    if events != [] {
      StepKeepsAllStarted(c, st, events[0]);
      StepKeepsCapExactly(c, st, events[0]);
      FreshStartsMeanNoPhantoms(c, Step(c, st, events[0]), events[1..]);
    }
  }

  /**
    Over every run in which starting a new session's shell succeeds, the registered
    sessions, all with a started shell, never outnumber the counter, nor the counter the cap.
   */
  lemma ShellCapHolds(c: Config, events: seq<Event>)
    requires FreshStartsSucceed(c, INITIAL, events)
    ensures var t := RunEvents(c, INITIAL, events);
            && |t.registry.byId| <= t.spawned <= c.maxShells
            && AllStarted(t) && Agreement(t.registry, c.maxPerUser)
  {
    assert StartedIds(INITIAL) == {};
    FreshStartsMeanNoPhantoms(c, INITIAL, events);
    RunKeepsCap(c, INITIAL, events);
    var t := RunEvents(c, INITIAL, events);
    assert StartedIds(t) == t.registry.byId.Keys;
  }

  lemma StepKeepsShells(c: Config, st: State, e: Event)
    requires ShellsOk(st)
    ensures ShellsOk(Step(c, st, e))
  {
  }

  // ---------------------------------------------------------------- why the hypothesis is needed

  const NOTHING_STOPS: Answers := Answers(_ => false, _ => false)

  const SA: Session := Session(0, "a", "u")
  const SB: Session := Session(1, "b", "v")
  const SC: Session := Session(2, "c", "w")
  const FAILED: Shell := Shell(New, false, 1 + DEFAULT_EXPIRE, ZERO_TIME)
  const RUNS: Shell := Shell(Active, true, 1 + DEFAULT_EXPIRE, 1)
  const CAP_OF_ONE: Config := Config(1, 1, 0, 0)

  const AFTER_FAILED_START: State :=
    State(Registry(map["a" := SA], map["u" := [SA]]), map[0 := FAILED], 1, 0, 0)

  const AFTER_SECOND_USER: State :=
    State(Registry(map["a" := SA, "b" := SB], map["u" := [SA], "v" := [SB]]), map[0 := FAILED, 1 := RUNS], 2, 0, 1)

  const AFTER_PHANTOM_STOP: State := StopOne(AFTER_SECOND_USER, NOTHING_STOPS, "a")

  const AFTER_THIRD_USER: State := Step(CAP_OF_ONE, AFTER_PHANTOM_STOP, SpawnShell("c", "w", 1, true))

  /** Two states with the same parts are the same state. */
  lemma SameState(s: State, t: State)
    requires s.registry.byId == t.registry.byId && s.registry.byUser == t.registry.byUser
    requires s.shells == t.shells && s.next == t.next && s.idleTimeout == t.idleTimeout && s.spawned == t.spawned
    ensures s == t
  {
  }

  lemma SlipStart()
    ensures Step(CAP_OF_ONE, INITIAL, SpawnShell("a", "u", 1, false)) == AFTER_FAILED_START
  {
    assert UserList(EMPTY, "u") + [SA] == [SA];
    SameState(Step(CAP_OF_ONE, INITIAL, SpawnShell("a", "u", 1, false)), AFTER_FAILED_START);
  }

  lemma SlipSecond()
    ensures Step(CAP_OF_ONE, AFTER_FAILED_START, SpawnShell("b", "v", 1, true)) == AFTER_SECOND_USER
  {
    assert UserList(AFTER_FAILED_START.registry, "v") + [SB] == [SB];
    SameState(Step(CAP_OF_ONE, AFTER_FAILED_START, SpawnShell("b", "v", 1, true)), AFTER_SECOND_USER);
  }

  lemma SlipStop()
    ensures AFTER_PHANTOM_STOP.registry.byId == map["b" := SB] && AFTER_PHANTOM_STOP.spawned == 0
    ensures AFTER_PHANTOM_STOP.shells == AFTER_SECOND_USER.shells && AFTER_PHANTOM_STOP.next == 2
    ensures "w" !in AFTER_PHANTOM_STOP.registry.byUser
  {
    assert MarkStopped(AFTER_SECOND_USER.shells, {0}) == AFTER_SECOND_USER.shells;
  }

  lemma SlipAgain()
    ensures StartedIds(AFTER_THIRD_USER) == {"b", "c"}
  {
    SlipStop();
    assert AFTER_THIRD_USER.registry.byId == map["b" := SB, "c" := SC];
  }

  lemma RunCons(c: Config, st: State, e: Event, rest: seq<Event>)
    ensures RunEvents(c, st, [e] + rest) == RunEvents(c, Step(c, st, e), rest)
  {
  }

  /** One shell that failed to start and is then stopped lets a second shell past a cap of one. */
  lemma FailedStartLetsTheCapSlip() returns (events: seq<Event>)
    ensures |events| == 4
    ensures |StartedIds(RunEvents(CAP_OF_ONE, INITIAL, events))| == 2 > CAP_OF_ONE.maxShells
  {
    var e1, e2 := SpawnShell("a", "u", 1, false), SpawnShell("b", "v", 1, true);
    var e3, e4 := StopMessage("a", "", NOTHING_STOPS), SpawnShell("c", "w", 1, true);
    events := [e1] + ([e2] + ([e3] + ([e4] + [])));
    calc {
      RunEvents(CAP_OF_ONE, INITIAL, events);
      { RunCons(CAP_OF_ONE, INITIAL, e1, [e2] + ([e3] + ([e4] + []))); SlipStart(); }
      RunEvents(CAP_OF_ONE, AFTER_FAILED_START, [e2] + ([e3] + ([e4] + [])));
      { RunCons(CAP_OF_ONE, AFTER_FAILED_START, e2, [e3] + ([e4] + [])); SlipSecond(); }
      RunEvents(CAP_OF_ONE, AFTER_SECOND_USER, [e3] + ([e4] + []));
      { RunCons(CAP_OF_ONE, AFTER_SECOND_USER, e3, [e4] + []); }
      RunEvents(CAP_OF_ONE, AFTER_PHANTOM_STOP, [e4] + []);
      { RunCons(CAP_OF_ONE, AFTER_PHANTOM_STOP, e4, []); }
      AFTER_THIRD_USER;
    }
    SlipAgain();
  }
}
