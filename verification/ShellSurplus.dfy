/**
  The law of the shell counter: how far `shellsSpawned` may exceed the sessions whose shell
  was started, event by event and over whole runs.
 */
module ShellSurplus {
  import opened SessionRegistry
  import opened ShellCounter

  function One(yes: bool): int {
    if yes then 1 else 0
  }

  /** Slots of the cap that no session with a started shell accounts for. */
  function Surplus(st: State): int {
    st.spawned - |StartedIds(st)|
  }

  /** The given sessions whose shell was started, and is not reported as stopped. */
  function Unstopped(st: State, ans: Answers, ids: set<string>): set<string> {
    set id | id in ids && IsStarted(st, id) && !StopOk(st, ans, st.registry.byId[id].ref)
  }

  /**
    What an event adds to the surplus: a second start of one session's shell; the sessions
    removed by a stop that leaves a survivor, by a sweep that has an error, or by a health
    check; and those that losing the authorization removes without stopping their shell.
    A phantom stop takes one away.
   */
  function Leak(c: Config, st: State, e: Event): int {
    match e
    case SpawnShell(id, _, _, execOk) =>
      One(st.spawned < c.maxShells && execOk && IsStarted(st, id) && !Running(ShellOf(st, st.registry.byId[id].ref)))
    case StopMessage(id, user, ans) =>
      var tried := StartedAmong(st, UserIds(st.registry, user));
      if id != "" then -One(PhantomStop(st, e) && st.spawned > 0)
      else if user == "" || Survivors(st, ans, tried) == {} then 0
      else |tried - Survivors(st, ans, tried)|
    case Unauthorized(ans) => |Unstopped(st, ans, st.registry.byId.Keys)|
    case ExpirySweep(now, ans) =>
      var ids := ExpiredIds(st, now);
      if StoppedOk(st, ans, ids) == ids then 0 else |StartedAmong(st, ids)|
    case HealthCheckTimeout(id, now, ans) => One(IsStarted(st, id) && !Survives(st, ans, id))
    case ShellInput(_, _) => 0
  }

  lemma StartLeaks(st: State, id: string, now: int, execOk: bool)
    requires ShellsOk(st) && id in st.registry.byId
    ensures var sh, t := ShellOf(st, st.registry.byId[id].ref), Start(st, st.registry.byId[id].ref, now, execOk).0;
            Surplus(t) == Surplus(st) + One(execOk && sh.started && !Running(sh))
  {
    var sh, t := ShellOf(st, st.registry.byId[id].ref), Start(st, st.registry.byId[id].ref, now, execOk).0;
    if !Running(sh) && execOk {
      assert StartedIds(t) == StartedIds(st) + {id};
      assert id in StartedIds(st) <==> sh.started;
    }
  }

  lemma SpawnLeaks(c: Config, st: State, e: Event)
    requires Ok(c, st) && e.SpawnShell?
    ensures Surplus(Step(c, st, e)) == Surplus(st) + Leak(c, st, e)
  {
    var t := Step(c, st, e);
    if st.spawned >= c.maxShells {
    } else if e.id in st.registry.byId {
      StartLeaks(st, e.id, e.now, e.execOk);
    } else if |UserList(st.registry, e.user)| < c.maxPerUser {
      var r := Registered(c, st, e.id, e.user, e.now);
      RegisterKeeps(c, st, e.id, e.user, e.now);
      assert StartedIds(r) == StartedIds(st);
      StartLeaks(r, e.id, e.now, e.execOk);
    }
  }

  /** Removing `gone` and counting down by `n`, which no step does below zero, changes the surplus by the difference. */
  lemma RemovalLeaks(st: State, gone: set<string>, refs: set<nat>, t: State)
    requires ShellsOk(st)
    requires t.registry.byId == st.registry.byId - gone
    requires t.shells == MarkStopped(st.shells, refs) && t.next == st.next
    ensures Surplus(t) == Surplus(st) + t.spawned - st.spawned + |StartedAmong(st, gone)|
  {
    Removal(st, gone, refs, t);
    var started := StartedAmong(st, gone);
    assert StartedIds(st) - gone == StartedIds(st) - started && started <= StartedIds(st);
    Subtract(StartedIds(st), started);
  }

  lemma SomeStarted(st: State, id: string)
    requires IsStarted(st, id)
    ensures |StartedIds(st)| >= 1
  {
    assert id in StartedIds(st);
  }

  lemma StopOneLeaks(c: Config, st: State, e: Event)
    requires Ok(c, st) && e.StopMessage? && e.id != ""
    ensures Surplus(Step(c, st, e)) == Surplus(st) + Leak(c, st, e)
  {
    if e.id in st.registry.byId {
      var ref, t := st.registry.byId[e.id].ref, Step(c, st, e);
      var gone := if Survives(st, e.ans, e.id) then {} else {e.id};
      RemovalLeaks(st, gone, {ref}, t);
      if ShellOf(st, ref).started {
        assert StartedAmong(st, {e.id}) == {e.id};
        SomeStarted(st, e.id);
      } else {
        assert StartedAmong(st, {e.id}) == {};
      }
      assert StartedAmong(st, {}) == {};
    }
  }

  lemma AtMostStarted(st: State, ids: set<string>)
    requires ids <= StartedIds(st)
    ensures |ids| <= |StartedIds(st)|
  {
    Subtract(StartedIds(st), ids);
  }

  lemma StopByUserLeaks(c: Config, st: State, e: Event)
    requires Ok(c, st) && e.StopMessage? && e.id == ""
    ensures Surplus(Step(c, st, e)) == Surplus(st) + Leak(c, st, e)
  {
    var tried := StartedAmong(st, UserIds(st.registry, e.user));
    var gone := tried - Survivors(st, e.ans, tried);
    assert UserList(st.registry, e.user) == [] ==> tried == {};
    if e.user != "" && UserList(st.registry, e.user) != [] {
      RemovalLeaks(st, gone, RefsOf(st.registry, tried), Step(c, st, e));
      assert StartedAmong(st, gone) == gone;
      AtMostStarted(st, tried);
      assert Survivors(st, e.ans, tried) == {} ==> gone == tried;
    }
  }

  lemma DeauthorizeLeaks(c: Config, st: State, e: Event)
    requires Ok(c, st) && e.Unauthorized?
    ensures Surplus(Step(c, st, e)) == Surplus(st) + Leak(c, st, e)
  {
    var ids := st.registry.byId.Keys;
    var stopped, left := StoppedOk(st, e.ans, ids), Unstopped(st, e.ans, ids);
    RemovalLeaks(st, ids, RefsOf(st.registry, ids), Step(c, st, e));
    AtMostStarted(st, stopped);
    assert StartedIds(st) - stopped == left && stopped <= StartedIds(st);
    Subtract(StartedIds(st), stopped);
  }

  lemma SweepLeaks(c: Config, st: State, e: Event)
    requires Ok(c, st) && e.ExpirySweep?
    ensures Surplus(Step(c, st, e)) == Surplus(st) + Leak(c, st, e)
  {
    var ids := ExpiredIds(st, e.now);
    RemovalLeaks(st, ids, RefsOf(st.registry, ids), Step(c, st, e));
    if StoppedOk(st, e.ans, ids) == ids {
      assert StartedAmong(st, ids) == ids;
      AtMostStarted(st, ids);
    }
  }

  lemma HealthTimeoutLeaks(c: Config, st: State, e: Event)
    requires Ok(c, st) && e.HealthCheckTimeout?
    ensures Surplus(Step(c, st, e)) == Surplus(st) + Leak(c, st, e)
  {
    if IsStarted(st, e.id) {
      var ref := st.registry.byId[e.id].ref;
      var sh := st.shells[ref].(expiresAt := e.now);
      var s1 := st.(shells := st.shells[ref := sh]);
      ClockKeeps(c, st, ref, sh);
      assert StartedIds(s1) == StartedIds(st);
      var gone := if Survives(st, e.ans, e.id) then {} else {e.id};
      RemovalLeaks(s1, gone, {ref}, Step(c, st, e));
      assert StartedAmong(s1, {}) == {} && StartedAmong(s1, {e.id}) == {e.id};
    }
  }

  /** The law of the counter: every event changes the surplus by exactly its leak. */
  lemma StepLeaks(c: Config, st: State, e: Event)
    requires Ok(c, st)
    ensures Surplus(Step(c, st, e)) == Surplus(st) + Leak(c, st, e)
  {
    match e
    case SpawnShell(_, _, _, _) => SpawnLeaks(c, st, e);
    case StopMessage(id, _, _) =>
      if id == "" {
        StopByUserLeaks(c, st, e);
      } else {
        StopOneLeaks(c, st, e);
      }
    case Unauthorized(_) => DeauthorizeLeaks(c, st, e);
    case ExpirySweep(_, _) => SweepLeaks(c, st, e);
    case HealthCheckTimeout(_, _, _) => HealthTimeoutLeaks(c, st, e);
    case ShellInput(id, now) =>
      assert StartedIds(Step(c, st, e)) == StartedIds(st);
  }

  function TotalLeak(c: Config, st: State, events: seq<Event>): int
    decreases |events|
  {
    if events == [] then 0 else Leak(c, st, events[0]) + TotalLeak(c, Step(c, st, events[0]), events[1..])
  }

  /** Over every run without phantom stops the counter is the started sessions plus what leaked. */
  lemma {:induction false} RunLeaks(c: Config, st: State, events: seq<Event>)
    requires Ok(c, st) && NoPhantomStops(c, st, events)
    ensures Surplus(RunEvents(c, st, events)) == Surplus(st) + TotalLeak(c, st, events)
    decreases |events|
  {
    if events != [] {
      StepLeaks(c, st, events[0]);
      StepKeepsCapExactly(c, st, events[0]);
      RunLeaks(c, Step(c, st, events[0]), events[1..]);
    }
  }

  /** Every stop that the event makes succeeds. */
  ghost predicate StopsSucceed(e: Event) {
    match e
    case StopMessage(_, _, ans) => forall ref :: ans.stops(ref)
    case Unauthorized(ans) => forall ref :: ans.stops(ref)
    case ExpirySweep(_, ans) => forall ref :: ans.stops(ref)
    case HealthCheckTimeout(_, _, ans) => forall ref :: ans.stops(ref)
    case _ => true
  }

  predicate AllRunning(st: State) {
    forall id :: id in st.registry.byId ==> Running(ShellOf(st, st.registry.byId[id].ref))
  }

  lemma CleanStepLeaks(c: Config, st: State, e: Event)
    requires Ok(c, st) && AllRunning(st) && StopsSucceed(e)
    ensures Leak(c, st, e) == One(e.HealthCheckTimeout? && e.id in st.registry.byId)
    ensures !PhantomStop(st, e)
  {
    match e
    case StopMessage(_, user, ans) => assert Survivors(st, ans, StartedAmong(st, UserIds(st.registry, user))) == {};
    case Unauthorized(ans) => assert Unstopped(st, ans, st.registry.byId.Keys) == {};
    case ExpirySweep(now, ans) => assert StoppedOk(st, ans, ExpiredIds(st, now)) == ExpiredIds(st, now);
    case _ =>
  }

  lemma CleanStepKeepsRunning(c: Config, st: State, e: Event)
    requires ShellsOk(st) && AllRunning(st) && StopsSucceed(e)
    requires e.SpawnShell? && e.id !in st.registry.byId ==> e.execOk
    ensures AllRunning(Step(c, st, e))
  {
  }

  /** How many sessions health checks removed. */
  function HealthRemovals(c: Config, st: State, events: seq<Event>): int
    decreases |events|
  {
    if events == [] then 0
    else One(events[0].HealthCheckTimeout? && events[0].id in st.registry.byId)
         + HealthRemovals(c, Step(c, st, events[0]), events[1..])
  }

  lemma {:induction false} CleanRun(c: Config, st: State, events: seq<Event>)
    requires Ok(c, st) && AllRunning(st) && FreshStartsSucceed(c, st, events)
    requires forall e :: e in events ==> StopsSucceed(e)
    ensures var t := RunEvents(c, st, events);
            ShellsOk(t) && AllRunning(t) && Surplus(t) == Surplus(st) + HealthRemovals(c, st, events)
    decreases |events|
  {
    if events != [] {
      var e := events[0];
      assert e in events && forall x :: x in events[1..] ==> x in events;
      CleanStepLeaks(c, st, e);
      StepLeaks(c, st, e);
      StepKeepsCapExactly(c, st, e);
      CleanStepKeepsRunning(c, st, e);
      CleanRun(c, Step(c, st, e), events[1..]);
    }
  }

  /**
    Where every new session's shell starts and every stop succeeds, all registered sessions
    run, and the counter is their number plus the sessions that health checks removed.
   */
  lemma CounterIsExact(c: Config, events: seq<Event>)
    requires FreshStartsSucceed(c, INITIAL, events) && forall e :: e in events ==> StopsSucceed(e)
    ensures var t := RunEvents(c, INITIAL, events);
            AllRunning(t) && t.spawned == |t.registry.byId| + HealthRemovals(c, INITIAL, events)
  {
    assert StartedIds(INITIAL) == {};
    CleanRun(c, INITIAL, events);
    var t := RunEvents(c, INITIAL, events);
    assert StartedIds(t) == t.registry.byId.Keys;
  }
}
