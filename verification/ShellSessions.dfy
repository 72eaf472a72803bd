/**
  Which sessions each event removes, registers, starts and leaves running, and when a
  session expires.
 */
module ShellSessions {
  import opened SessionRegistry
  import opened ShellCounter

  // ---------------------------------------------------------------- what each event removes and leaves running

  /** The event removes this registered session. */
  predicate Removes(st: State, e: Event, id: string)
    requires id in st.registry.byId
  {
    match e
    case SpawnShell(_, _, _, _) => false
    case StopMessage("", user, ans) =>
      user != "" && id in UserIds(st.registry, user) && IsStarted(st, id) && !Survives(st, ans, id)
    case StopMessage(stopId, _, ans) => id == stopId && !Survives(st, ans, id)
    case Unauthorized(_) => true
    case ExpirySweep(now, _) => IsExpired(st, ShellOf(st, st.registry.byId[id].ref), now)
    case HealthCheckTimeout(timeoutId, _, ans) => id == timeoutId && IsStarted(st, id) && !Survives(st, ans, id)
    case ShellInput(_, _) => false
  }

  /**
    An event removes exactly the sessions it is meant to, and registers at most its own:
    survivors of a stop are kept, while a sweep and a lost authorization keep nothing.
   */
  lemma StepRemovesExactly(c: Config, st: State, e: Event, id: string)
    requires ShellsOk(st)
    ensures id in st.registry.byId ==> (id in Step(c, st, e).registry.byId <==> !Removes(st, e, id))
    ensures id in st.registry.byId && id in Step(c, st, e).registry.byId ==>
              Step(c, st, e).registry.byId[id] == st.registry.byId[id]
    ensures id !in st.registry.byId ==>
              (id in Step(c, st, e).registry.byId <==>
                 e.SpawnShell? && e.id == id && st.spawned < c.maxShells
                 && |UserList(st.registry, e.user)| < c.maxPerUser)
  {
  }

  /** Every running shell belongs to a registered session. */
  ghost predicate NoOrphans(st: State) {
    forall ref :: ref in st.shells && Running(st.shells[ref]) ==>
      exists id :: id in st.registry.byId && st.registry.byId[id].ref == ref
  }

  lemma RemovalKeepsNoOrphans(st: State, gone: set<string>, stopped: set<string>, t: State)
    requires NoOrphans(st) && gone <= stopped
    requires t.registry.byId == st.registry.byId - gone
    requires t.shells == MarkStopped(st.shells, RefsOf(st.registry, stopped))
    ensures NoOrphans(t)
    ensures forall id :: id in stopped && id in st.registry.byId ==> !Running(ShellOf(t, st.registry.byId[id].ref))
  {
    forall ref | ref in t.shells && Running(t.shells[ref])
      ensures exists id :: id in t.registry.byId && t.registry.byId[id].ref == ref
    {
      var id :| id in st.registry.byId && st.registry.byId[id].ref == ref;
      assert id !in stopped;
      assert id in t.registry.byId;
    }
  }

  lemma SpawnKeepsNoOrphans(c: Config, st: State, e: Event)
    requires ShellsOk(st) && NoOrphans(st) && e.SpawnShell?
    ensures NoOrphans(Step(c, st, e))
  {
    var t := Step(c, st, e);
    forall ref | ref in t.shells && Running(t.shells[ref])
      ensures exists id :: id in t.registry.byId && t.registry.byId[id].ref == ref
    {
      if ref in st.shells && Running(st.shells[ref]) {
        var id :| id in st.registry.byId && st.registry.byId[id].ref == ref;
        assert id in t.registry.byId && t.registry.byId[id].ref == ref;
      } else {
        assert e.id in t.registry.byId && t.registry.byId[e.id].ref == ref;
      }
    }
  }

  lemma ClockKeepsNoOrphans(st: State, ref: nat, sh: Shell)
    requires NoOrphans(st) && ref in st.shells && sh.status == st.shells[ref].status
    ensures NoOrphans(st.(shells := st.shells[ref := sh]))
  {
    var t := st.(shells := st.shells[ref := sh]);
    forall r | r in t.shells && Running(t.shells[r])
      ensures exists id :: id in t.registry.byId && t.registry.byId[id].ref == r
    {
      assert r in st.shells && Running(st.shells[r]);
    }
  }

  lemma StoppedByIdKeepsNoOrphans(st: State, ans: Answers, id: string)
    requires ShellsOk(st) && NoOrphans(st)
    ensures NoOrphans(StoppedById(st, ans, id))
  {
    if IsStarted(st, id) {
      var gone := if Survives(st, ans, id) then {} else {id};
      assert RefsOf(st.registry, {id}) == {st.registry.byId[id].ref};
      RemovalKeepsNoOrphans(st, gone, {id}, StoppedById(st, ans, id));
    }
  }

  lemma StepKeepsNoOrphans(c: Config, st: State, e: Event)
    requires ShellsOk(st) && NoOrphans(st)
    ensures NoOrphans(Step(c, st, e))
  {
    match e
    case SpawnShell(_, _, _, _) => SpawnKeepsNoOrphans(c, st, e);
    case StopMessage(id, user, ans) =>
      var tried := StartedAmong(st, UserIds(st.registry, user));
      if id == "" && user != "" && UserList(st.registry, user) != [] {
        RemovalKeepsNoOrphans(st, tried - Survivors(st, ans, tried), tried, Step(c, st, e));
      } else if id in st.registry.byId {
        assert RefsOf(st.registry, {id}) == {st.registry.byId[id].ref};
        RemovalKeepsNoOrphans(st, if Survives(st, ans, id) then {} else {id}, {id}, StopOne(st, ans, id));
      }
    case Unauthorized(ans) => RemovalKeepsNoOrphans(st, st.registry.byId.Keys, st.registry.byId.Keys, Step(c, st, e));
    case ExpirySweep(now, ans) => RemovalKeepsNoOrphans(st, ExpiredIds(st, now), ExpiredIds(st, now), Step(c, st, e));
    case HealthCheckTimeout(id, now, ans) =>
      if IsStarted(st, id) {
        var ref := st.registry.byId[id].ref;
        ClockKeepsNoOrphans(st, ref, st.shells[ref].(expiresAt := now));
        StoppedByIdKeepsNoOrphans(st.(shells := st.shells[ref := st.shells[ref].(expiresAt := now)]), ans, id);
      }
    case ShellInput(id, now) =>
      if IsStarted(st, id) {
        var ref := st.registry.byId[id].ref;
        ClockKeepsNoOrphans(st, ref, st.shells[ref].(activeAt := now));
      }
  }

  /** Over every run, phantom stops included, no shell is left running without a session. */
  lemma {:induction false} RunLeavesNoOrphans(c: Config, st: State, events: seq<Event>)
    requires ShellsOk(st) && NoOrphans(st)
    ensures NoOrphans(RunEvents(c, st, events)) && ShellsOk(RunEvents(c, st, events))
    decreases |events|
  {
    if events != [] {
      StepKeepsNoOrphans(c, st, events[0]);
      StepKeepsShells(c, st, events[0]);
      RunLeavesNoOrphans(c, Step(c, st, events[0]), events[1..]);
    }
  }

  // ---------------------------------------------------------------- the outcome of a spawn

  /** Each outcome of a spawn has its own condition. */
  lemma SpawnDecides(c: Config, st: State, id: string, user: string, now: int, execOk: bool)
    requires ShellsOk(st)
    ensures var known := id in st.registry.byId;
            var full := !known && |UserList(st.registry, user)| >= c.maxPerUser;
            var running := known && Running(ShellOf(st, st.registry.byId[id].ref));
            var result := Spawn(c, st, id, user, now, execOk).1;
            && (result == TooManyShells <==> st.spawned >= c.maxShells)
            && (result == TooManySessions <==> st.spawned < c.maxShells && full)
            && (result == AlreadyRunning <==> st.spawned < c.maxShells && running)
            && (result == StartFailed <==> st.spawned < c.maxShells && !full && !running && !execOk)
            && (result == Spawned <==> st.spawned < c.maxShells && !full && !running && execOk)
  {
  }

  /** A shell runs and is counted after a spawn exactly if that was its outcome; a failed start changes no shell. */
  lemma SpawnStartsExactly(c: Config, st: State, id: string, user: string, now: int, execOk: bool)
    requires ShellsOk(st)
    ensures var (t, result) := Spawn(c, st, id, user, now, execOk);
            && t.spawned == st.spawned + (if result == Spawned then 1 else 0)
            && (result in {Spawned, AlreadyRunning} ==>
                  id in t.registry.byId && Running(ShellOf(t, t.registry.byId[id].ref)))
            && (result == StartFailed ==> id in t.registry.byId && !Running(ShellOf(t, t.registry.byId[id].ref)))
            && (result in {TooManyShells, TooManySessions, AlreadyRunning} ==> t == st)
            && (forall ref :: ref in st.shells && !(result == Spawned && t.registry.byId[id].ref == ref) ==>
                  ref in t.shells && t.shells[ref] == st.shells[ref])
  {
  }

  // ---------------------------------------------------------------- the expiry sweep

  /**
    One sweep at one clock reading removes exactly the expired sessions from both indexes
    and leaves none behind; if every stop succeeded, exactly that many shells were running,
    so the counter may be reduced by the number of sessions.
   */
  lemma SweepIsExact(c: Config, st: State, ans: Answers, now: int)
    requires Agreement(st.registry, c.maxPerUser) && ShellsOk(st)
    ensures var t := Sweep(st, ans, now);
            && t.registry.byId.Keys == st.registry.byId.Keys - ExpiredIds(st, now)
            && (forall user, s :: user in st.registry.byUser ==>
                  (s in t.registry.byUser[user] <==> s in st.registry.byUser[user] && s.id !in ExpiredIds(st, now)))
            && ExpiredIds(t, now) == {}
            && (StoppedOk(st, ans, ExpiredIds(st, now)) == ExpiredIds(st, now) ==>
                  forall id :: id in ExpiredIds(st, now) ==> Running(ShellOf(st, st.registry.byId[id].ref)))
  {
    var ids, t := ExpiredIds(st, now), Sweep(st, ans, now);
    forall id | id in t.registry.byId
      ensures !IsExpired(t, ShellOf(t, t.registry.byId[id].ref), now)
    {
      assert id !in ids;
    }
    forall id | id in ids && StoppedOk(st, ans, ids) == ids
      ensures Running(ShellOf(st, st.registry.byId[id].ref))
    {
      assert id in StoppedOk(st, ans, ids);
    }
  }

  // ---------------------------------------------------------------- when a session expires

  /** The idle timeout is in force from the first registration on. */
  predicate IdleOk(c: Config, st: State) {
    st.idleTimeout == if st.next == 0 then 0 else c.expireAfterIdle
  }

  /** No other session ever has this shell. */
  predicate Owns(st: State, id: string, ref: nat) {
    ref in st.shells && forall x :: x in st.registry.byId && st.registry.byId[x].ref == ref ==> x == id
  }

  /** A health check of this session timed out. */
  predicate TimesOut(e: Event, id: string) {
    e.HealthCheckTimeout? && e.id == id
  }

  /** Input for this session, or an attempt to start its shell. */
  predicate IsActivity(e: Event, id: string) {
    (e.ShellInput? || e.SpawnShell?) && e.id == id
  }

  /** What every step keeps of one session's clocks. */
  lemma StepKeepsClocks(c: Config, st: State, e: Event, id: string, ref: nat)
    requires ShellsOk(st) && IdleOk(c, st) && Owns(st, id, ref)
    ensures var t := Step(c, st, e);
            && IdleOk(c, t) && Owns(t, id, ref)
            && (!TimesOut(e, id) ==> t.shells[ref].expiresAt == st.shells[ref].expiresAt)
            && (!IsActivity(e, id) ==> t.shells[ref].activeAt == st.shells[ref].activeAt)
  {
  }

  lemma {:induction false} RunKeepsClocks(c: Config, st: State, events: seq<Event>, id: string, ref: nat)
    requires ShellsOk(st) && Agreement(st.registry, c.maxPerUser) && IdleOk(c, st) && Owns(st, id, ref)
    ensures var t := RunEvents(c, st, events);
            && ShellsOk(t) && Agreement(t.registry, c.maxPerUser) && IdleOk(c, t) && Owns(t, id, ref)
            && ((forall e :: e in events ==> !TimesOut(e, id)) ==> t.shells[ref].expiresAt == st.shells[ref].expiresAt)
            && ((forall e :: e in events ==> !IsActivity(e, id)) ==> t.shells[ref].activeAt == st.shells[ref].activeAt)
    decreases |events|
  {
    if events != [] {
      var e := events[0];
      assert e in events && forall x :: x in events[1..] ==> x in events;
      StepKeepsClocks(c, st, e, id, ref);
      StepKeepsShells(c, st, e);
      StepKeepsAgreement(c, st, e);
      RunKeepsClocks(c, Step(c, st, e), events[1..], id, ref);
    }
  }

  /** After a sweep this session is in both maps exactly if it had not expired. */
  lemma SweptExactly(c: Config, t: State, s: Session, now: int, ans: Answers)
    requires ShellsOk(t) && Agreement(t.registry, c.maxPerUser)
    requires s.id in t.registry.byId && t.registry.byId[s.id] == s
    ensures var u := Step(c, t, ExpirySweep(now, ans)).registry;
            && (s.id in u.byId <==> !IsExpired(t, t.shells[s.ref], now))
            && (OccursOnce(u, s) <==> !IsExpired(t, t.shells[s.ref], now))
  {
    StepKeepsAgreement(c, t, ExpirySweep(now, ans));
    StepRemovesExactly(c, t, ExpirySweep(now, ans), s.id);
    AgreementCounts(Step(c, t, ExpirySweep(now, ans)).registry, c.maxPerUser, s);
  }

  function ExpiryOf(c: Config): int {
    if c.expireAfter == 0 then DEFAULT_EXPIRE else c.expireAfter
  }

  lemma RegistersClock(c: Config, st: State, spawn: Event)
    requires ShellsOk(st) && IdleOk(c, st)
    requires spawn.SpawnShell? && spawn.id !in st.registry.byId && st.spawned < c.maxShells
    requires |UserList(st.registry, spawn.user)| < c.maxPerUser
    ensures var t := Step(c, st, spawn);
            IdleOk(c, t) && Owns(t, spawn.id, st.next) && t.shells[st.next].expiresAt == spawn.now + ExpiryOf(c)
  {
  }

  /**
    Without an idle timeout: a session registered at `at` that is still registered, and
    whose health check never timed out, survives a sweep at `now` if and only if `now` is
    not after `at` plus the expiry.
   */
  lemma ExpiresAfterRegistration(c: Config, st: State, spawn: Event, events: seq<Event>, now: int, ans: Answers)
    requires ShellsOk(st) && Agreement(st.registry, c.maxPerUser) && IdleOk(c, st) && c.expireAfterIdle == 0
    requires spawn.SpawnShell? && spawn.id !in st.registry.byId && st.spawned < c.maxShells
    requires |UserList(st.registry, spawn.user)| < c.maxPerUser
    requires forall e :: e in events ==> !TimesOut(e, spawn.id)
    requires var t := RunEvents(c, Step(c, st, spawn), events);
             spawn.id in t.registry.byId && t.registry.byId[spawn.id] == Session(st.next, spawn.id, spawn.user)
    ensures var t := RunEvents(c, Step(c, st, spawn), events);
            var u := Step(c, t, ExpirySweep(now, ans)).registry;
            && (spawn.id in u.byId <==> now <= spawn.now + ExpiryOf(c))
            && (OccursOnce(u, Session(st.next, spawn.id, spawn.user)) <==> now <= spawn.now + ExpiryOf(c))
  {
    var s := Session(st.next, spawn.id, spawn.user);
    var s1 := Step(c, st, spawn);
    RegistersClock(c, st, spawn);
    StepKeepsShells(c, st, spawn);
    StepKeepsAgreement(c, st, spawn);
    RunKeepsClocks(c, s1, events, spawn.id, st.next);
    SweptExactly(c, RunEvents(c, s1, events), s, now, ans);
  }

  /** The event is input for the session's shell, or the successful start of it. */
  predicate KeepsActive(c: Config, st: State, e: Event) {
    || (e.ShellInput? && IsStarted(st, e.id))
    || (e.SpawnShell? && Spawn(c, st, e.id, e.user, e.now, e.execOk).1 == Spawned)
  }

  lemma ActivityClock(c: Config, st: State, active: Event)
    requires ShellsOk(st) && Agreement(st.registry, c.maxPerUser) && IdleOk(c, st) && KeepsActive(c, st, active)
    ensures var t := Step(c, st, active);
            && active.id in t.registry.byId && t.registry.byId[active.id].id == active.id
            && IdleOk(c, t) && t.next > 0 && Owns(t, active.id, t.registry.byId[active.id].ref)
            && t.shells[t.registry.byId[active.id].ref].activeAt == active.now
  {
  }

  /**
    With an idle timeout: after its last activity a session that is still registered
    survives a sweep if and only if the timeout has not passed since, whatever its expiry.
   */
  lemma ExpiresAfterActivity(c: Config, st: State, active: Event, events: seq<Event>, now: int, ans: Answers)
    requires ShellsOk(st) && Agreement(st.registry, c.maxPerUser) && IdleOk(c, st) && c.expireAfterIdle != 0
    requires KeepsActive(c, st, active) && forall e :: e in events ==> !IsActivity(e, active.id)
    requires var s1 := Step(c, st, active);
             var t := RunEvents(c, s1, events);
             active.id in s1.registry.byId && active.id in t.registry.byId
             && t.registry.byId[active.id] == s1.registry.byId[active.id]
    ensures var t := RunEvents(c, Step(c, st, active), events);
            var u := Step(c, t, ExpirySweep(now, ans)).registry;
            && (active.id in u.byId <==> now <= active.now + c.expireAfterIdle)
            && (OccursOnce(u, t.registry.byId[active.id]) <==> now <= active.now + c.expireAfterIdle)
  {
    var s1 := Step(c, st, active);
    var s := s1.registry.byId[active.id];
    ActivityClock(c, st, active);
    StepKeepsShells(c, st, active);
    StepKeepsAgreement(c, st, active);
    RunKeepsClocks(c, s1, events, active.id, s.ref);
    SweptExactly(c, RunEvents(c, s1, events), s, now, ans);
  }

  /** A survivor of a failed health check expires at that moment. */
  lemma ExpiresAfterTimeout(c: Config, st: State, timeout: Event, events: seq<Event>, now: int, ans: Answers)
    requires ShellsOk(st) && Agreement(st.registry, c.maxPerUser) && IdleOk(c, st) && c.expireAfterIdle == 0
    requires timeout.HealthCheckTimeout? && IsStarted(st, timeout.id) && Survives(st, timeout.ans, timeout.id)
    requires forall e :: e in events ==> !TimesOut(e, timeout.id)
    requires var t := RunEvents(c, Step(c, st, timeout), events);
             timeout.id in t.registry.byId && t.registry.byId[timeout.id] == st.registry.byId[timeout.id]
    ensures var t := RunEvents(c, Step(c, st, timeout), events);
            timeout.id in Step(c, t, ExpirySweep(now, ans)).registry.byId <==> now <= timeout.now
  {
    var s1 := Step(c, st, timeout);
    var s := st.registry.byId[timeout.id];
    StepKeepsClocks(c, st, timeout, timeout.id, s.ref);
    StepKeepsShells(c, st, timeout);
    StepKeepsAgreement(c, st, timeout);
    RunKeepsClocks(c, s1, events, timeout.id, s.ref);
    SweptExactly(c, RunEvents(c, s1, events), s, now, ans);
  }
}
