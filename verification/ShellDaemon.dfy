/**
  The session maps and the shell counter as the daemon changes them: the loops that stop
  and delete sessions one by one, in whatever order Go's map iteration yields them, and
  the handlers that update `shellsSpawned`.  Every method is proved to take the state to
  the one that the step function of `ShellCounter` describes.
 */
module ShellDaemon {
  import opened SessionRegistry
  import opened ShellCounter

  lemma {:induction false} RemoveFirstAt(list: seq<Session>, id: string, i: nat)
    requires i < |list| && list[i].id == id && forall k :: 0 <= k < i ==> list[k].id != id
    ensures RemoveFirst(list, id) == list[..i] + list[i + 1..]
  {
    if i > 0 {
      RemoveFirstAt(list[1..], id, i - 1);
    }
  }

  lemma {:induction false} RemoveFirstNothing(list: seq<Session>, id: string)
    requires forall s :: s in list ==> s.id != id
    ensures RemoveFirst(list, id) == list
  {
    if list != [] {
      RemoveFirstNothing(list[1..], id);
    }
  }

  predicate Distinct(list: seq<string>) {
    forall i, j :: 0 <= i < j < |list| ==> list[i] != list[j]
  }

  lemma ElementsNext(list: seq<string>, i: nat)
    requires i < |list| && Distinct(list)
    ensures list[i] !in Elements(list[..i]) && list[i] in Elements(list) && Elements(list[..i]) <= Elements(list)
    ensures Elements(list[..i + 1]) == Elements(list[..i]) + {list[i]}
  {
    ElementsSnoc(list[..i + 1]);
    assert list[..i + 1][..i] == list[..i];
  }

  /** Before the first and after the last round of a loop over the list. */
  lemma ElementsEnds(list: seq<string>)
    ensures Elements(list[..0]) == {} && Elements(list[..|list|]) == Elements(list)
  {
    assert list[..|list|] == list;
  }

  lemma {:induction false} DistinctSize(list: seq<string>)
    requires Distinct(list)
    ensures |Elements(list)| == |list|
  {
    if list != [] {
      var n := |list| - 1;
      DistinctSize(list[..n]);
      ElementsNext(list, n);
      assert list[..n + 1] == list;
    }
  }

  /** Stopping one more session on top of those already stopped. */
  lemma MarkOneMore(st: State, done: set<string>, id: string)
    requires ShellsOk(st) && done <= st.registry.byId.Keys && id in st.registry.byId && id !in done
    ensures var ref, marked := st.registry.byId[id].ref, MarkStopped(st.shells, RefsOf(st.registry, done));
            && ref in marked && marked[ref] == st.shells[ref]
            && MarkStopped(marked, {ref}) == MarkStopped(st.shells, RefsOf(st.registry, done + {id}))
  {
    var ref := st.registry.byId[id].ref;
    assert RefsOf(st.registry, done + {id}) == RefsOf(st.registry, done) + {ref};
    assert ref !in RefsOf(st.registry, done);
  }

  lemma NothingStopped(st: State, ans: Answers)
    ensures MarkStopped(st.shells, RefsOf(st.registry, {})) == st.shells && StoppedOk(st, ans, {}) == {}
  {
  }

  lemma CountOneMore(st: State, ans: Answers, done: set<string>, id: string)
    requires id in st.registry.byId && id !in done
    ensures var ok, before, after := StopOk(st, ans, st.registry.byId[id].ref), StoppedOk(st, ans, done),
                                     StoppedOk(st, ans, done + {id});
            && |after| == |before| + (if ok then 1 else 0)
            && (after == done + {id} <==> before == done && ok)
  {
    var before := StoppedOk(st, ans, done);
    assert id !in before;
    if StopOk(st, ans, st.registry.byId[id].ref) {
      assert StoppedOk(st, ans, done + {id}) == before + {id};
    } else {
      assert StoppedOk(st, ans, done + {id}) == before;
    }
  }

  lemma SurvivorsOneMore(st: State, ans: Answers, done: set<string>, id: string)
    requires done <= st.registry.byId.Keys && id in st.registry.byId && id !in done
    ensures var ref := st.registry.byId[id].ref;
            var more := Survivors(st, ans, done + {id});
            if !StopOk(st, ans, ref) && ans.survives(ref)
            then id in more && done + {id} - more == done - Survivors(st, ans, done)
            else more == Survivors(st, ans, done) && done + {id} - more == done - Survivors(st, ans, done) + {id}
  {
  }

  /** The ids of the given set that the list mentions. */
  function Among(ids: set<string>, list: seq<Session>): set<string> {
    set id | id in ids && exists s :: s in list && s.id == id
  }

  lemma AmongEnds(st: State, user: string, tried: set<string>)
    requires tried == StartedAmong(st, UserIds(st.registry, user))
    ensures Among(tried, UserList(st.registry, user)[..0]) == {}
    ensures Among(tried, UserList(st.registry, user)) == tried
  {
  }

  lemma AmongNext(ids: set<string>, list: seq<Session>, i: nat)
    requires i < |list|
    ensures Among(ids, list[..i + 1]) == Among(ids, list[..i]) + (if list[i].id in ids then {list[i].id} else {})
  {
    assert list[..i + 1] == list[..i] + [list[i]];
  }

  /** The i-th session of a user: registered, not met before, and tried exactly if its shell was started. */
  lemma NextOfUser(st: State, cap: nat, user: string, i: nat, tried: set<string>)
    requires Agreement(st.registry, cap) && ShellsOk(st)
    requires i < |UserList(st.registry, user)| && tried == StartedAmong(st, UserIds(st.registry, user))
    ensures var list, s := UserList(st.registry, user), UserList(st.registry, user)[i];
            && s.id in st.registry.byId && st.registry.byId[s.id] == s
            && s.id !in Among(tried, list[..i])
            && (s.id in tried <==> st.shells[s.ref].started)
            && Among(tried, list[..i + 1]) == Among(tried, list[..i]) + (if s.id in tried then {s.id} else {})
  {
    var list := UserList(st.registry, user);
    assert ListOk(st.registry, user, list, cap) && list[i] in list;
    AmongNext(tried, list, i);
  }

  class Daemon {
    const c: Config
    var sessionsMap: map<string, Session>
    var sessionsByUserIdMap: map<string, seq<Session>>
    var shells: map<nat, Shell>
    var next: nat
    var idleTimeout: int
    var shellsSpawned: nat

    function Sessions(): Registry
      reads this
    {
      Registry(sessionsMap, sessionsByUserIdMap)
    }

    function St(): State
      reads this
    {
      State(Sessions(), shells, next, idleTimeout, shellsSpawned)
    }

    ghost predicate Valid()
      reads this
    {
      Agreement(Sessions(), c.maxPerUser) && ShellsOk(St())
    }

    constructor (config: Config)
      ensures Valid() && c == config && St() == INITIAL
    {
      c := config;
      sessionsMap, sessionsByUserIdMap, shells, next, idleTimeout, shellsSpawned := map[], map[], map[], 0, 0, 0;
    }

    /** `menderShellDeleteByIdLocked`: find the session in its user's list, cut it out, forget the id. */
    method DeleteByIdLocked(id: string) returns (found: bool)
      modifies `sessionsMap, `sessionsByUserIdMap
      ensures Sessions() == Delete(old(Sessions()), id)
      ensures found <==> id in old(sessionsMap)
    {
      if id !in sessionsMap {
        return false;
      }
      var user := sessionsMap[id].userId;
      if user in sessionsByUserIdMap {
        var list, i := sessionsByUserIdMap[user], 0;
        while i < |list| && list[i].id != id
          invariant i <= |list| && forall k :: 0 <= k < i ==> list[k].id != id
        {
          i := i + 1;
        }
        if i < |list| {
          RemoveFirstAt(list, id, i);
          sessionsByUserIdMap := sessionsByUserIdMap[user := list[..i] + list[i + 1..]];
        } else {
          RemoveFirstNothing(list, id);
          sessionsByUserIdMap := sessionsByUserIdMap[user := list];
        }
      }
      sessionsMap := sessionsMap - {id};
      return true;
    }

    /** `StopShell`: an error if no shell runs; a running one is marked empty even if stopping it fails. */
    method StopShell(ref: nat, ans: Answers) returns (ok: bool)
      requires ref in shells
      modifies `shells
      ensures ok == (Running(old(shells)[ref]) && ans.stops(ref))
      ensures shells == MarkStopped(old(shells), {ref})
    {
      ok := Running(shells[ref]) && ans.stops(ref);
      if Running(shells[ref]) {
        shells := shells[ref := shells[ref].(status := Empty)];
      }
    }

    /** What the first loop of both terminate functions has done once it is through with `done`. */
    ghost predicate StoppedSoFar(st: State, ans: Answers, done: set<string>, shellCount: nat, err: bool)
      reads this
    {
      && shells == MarkStopped(st.shells, RefsOf(st.registry, done))
      && shellCount == |StoppedOk(st, ans, done)|
      && (err <==> StoppedOk(st, ans, done) != done)
    }

    /** One round of the first loop of both terminate functions. */
    method StopNext(ghost st: State, ghost done: set<string>, id: string, ans: Answers, shellCount0: nat, err0: bool)
      returns (shellCount: nat, err: bool)
      requires ShellsOk(st) && done <= sessionsMap.Keys && id in sessionsMap && id !in done
      requires Sessions() == st.registry && StoppedSoFar(st, ans, done, shellCount0, err0)
      modifies `shells
      ensures StoppedSoFar(st, ans, done + {id}, shellCount, err)
    {
      MarkOneMore(st, done, id);
      CountOneMore(st, ans, done, id);
      var ok := StopShell(sessionsMap[id].ref, ans);
      shellCount := if ok then shellCount0 + 1 else shellCount0;
      err := err0 || !ok;
    }

    /** The whole loop: stop every session, count the successes. */
    method StopEach(list: seq<string>, ans: Answers) returns (shellCount: nat, err: bool)
      requires ShellsOk(St()) && Distinct(list) && Elements(list) <= sessionsMap.Keys
      modifies `shells
      ensures StoppedSoFar(old(St()), ans, Elements(list), shellCount, err)
    {
      ghost var st := St();
      shellCount, err := 0, false;
      ElementsEnds(list);
      NothingStopped(st, ans);
      for i := 0 to |list|
        invariant StoppedSoFar(st, ans, Elements(list[..i]), shellCount, err)
      {
        ElementsNext(list, i);
        shellCount, err := StopNext(st, Elements(list[..i]), list[i], ans, shellCount, err);
      }
    }

    /** The second loop of both terminate functions: delete every session, count those found. */
    method DeleteEach(list: seq<string>) returns (sessionCount: nat, left: int)
      requires Agreement(Sessions(), c.maxPerUser) && Distinct(list) && Elements(list) <= sessionsMap.Keys
      modifies `sessionsMap, `sessionsByUserIdMap
      ensures Sessions() == Without(old(Sessions()), Elements(list))
      ensures sessionCount == |list| && left == 0
    {
      ghost var r := Sessions();
      sessionCount, left := 0, 0;
      WithoutNothing(r);
      ElementsEnds(list);
      for i := 0 to |list|
        invariant Sessions() == Without(r, Elements(list[..i]))
        invariant sessionCount == i && left == 0
      {
        ElementsNext(list, i);
        DeleteOneMore(r, c.maxPerUser, Elements(list[..i]), list[i]);
        var found := DeleteByIdLocked(list[i]);
        if found {
          sessionCount := sessionCount + 1;
        } else {
          left := left + 1;
        }
      }
    }

    /** The collecting loop of `MenderSessionTerminateExpired`, in the order the map yields. */
    method CollectExpired(now: int) returns (expired: seq<string>)
      ensures Distinct(expired) && Elements(expired) == ExpiredIds(St(), now)
    {
      var todo := sessionsMap.Keys;
      expired := [];
      while todo != {}
        invariant todo <= sessionsMap.Keys && Distinct(expired)
        invariant forall id :: id in expired <==> id in ExpiredIds(St(), now) && id !in todo
        decreases todo
      {
        var id :| id in todo;
        if IsExpired(St(), ShellOf(St(), sessionsMap[id].ref), now) {
          expired := expired + [id];
        }
        todo := todo - {id};
      }
    }

    /** The collecting loop of `MenderSessionTerminateAll`. */
    method CollectAll() returns (all: seq<string>)
      ensures Distinct(all) && Elements(all) == sessionsMap.Keys
    {
      var todo := sessionsMap.Keys;
      all := [];
      while todo != {}
        invariant todo <= sessionsMap.Keys && Distinct(all)
        invariant forall id :: id in all <==> id in sessionsMap && id !in todo
        decreases todo
      {
        var id :| id in todo;
        all, todo := all + [id], todo - {id};
      }
    }

    /** `MenderSessionTerminateExpired`. */
    method TerminateExpired(ans: Answers, now: int) returns (shellCount: nat, sessionCount: nat, left: int, err: bool)
      requires Valid()
      modifies `shells, `sessionsMap, `sessionsByUserIdMap
      ensures var ids := ExpiredIds(old(St()), now);
              && St() == Terminate(old(St()), ids)
              && sessionCount == |ids| && left == 0
              && (!err ==> shellCount == sessionCount)
              && (err <==> StoppedOk(old(St()), ans, ids) != ids)
    {
      var expired := CollectExpired(now);
      DistinctSize(expired);
      shellCount, err := StopEach(expired, ans);
      sessionCount, left := DeleteEach(expired);
      err := err || left > 0;
    }

    /** `MenderSessionTerminateAll`. */
    method TerminateAll(ans: Answers) returns (shellCount: nat, sessionCount: nat, err: bool)
      requires Valid()
      modifies `shells, `sessionsMap, `sessionsByUserIdMap
      ensures St() == Terminate(old(St()), old(sessionsMap).Keys)
      ensures shellCount == |StoppedOk(old(St()), ans, old(sessionsMap).Keys)|
      ensures sessionCount == |old(sessionsMap).Keys|
    {
      var all := CollectAll();
      DistinctSize(all);
      shellCount, err := StopEach(all, ans);
      var left;
      sessionCount, left := DeleteEach(all);
      err := err || left > 0;
    }

    method DecreaseSpawnedShellsCount(n: nat)
      modifies `shellsSpawned
      ensures shellsSpawned == Decrease(old(shellsSpawned), n)
    {
      if shellsSpawned != 0 {
        shellsSpawned := if n >= shellsSpawned then 0 else shellsSpawned - n;
      }
    }

    // -------------------------------------------------------------- handlers

    /** The part of `processJwtTokenStateChange` that runs when the authorization is lost. */
    method LoseAuthorization(ans: Answers)
      requires Valid()
      modifies this
      ensures St() == Step(c, old(St()), Unauthorized(ans))
    {
      var shellCount, sessionCount, err := TerminateAll(ans);
      if shellCount > 0 {
        DecreaseSpawnedShellsCount(shellCount);
      }
    }

    /** The sweep of the main loop; it subtracts the session count, and only without an error. */
    method SweepSessions(ans: Answers, now: int)
      requires Valid()
      modifies this
      ensures St() == Step(c, old(St()), ExpirySweep(now, ans))
    {
      var shellCount, sessionCount, left, err := TerminateExpired(ans, now);
      if !err && sessionCount > 0 {
        DecreaseSpawnedShellsCount(sessionCount);
      }
    }

    /** `NewMenderShellSession`. */
    method NewSession(id: string, user: string, now: int) returns (s: Session, refused: bool)
      modifies `sessionsMap, `sessionsByUserIdMap, `shells, `next, `idleTimeout
      ensures refused <==> |UserList(old(Sessions()), user)| >= c.maxPerUser && user in old(sessionsByUserIdMap)
      ensures s == Session(old(next), id, user)
      ensures St() == if refused then old(St()) else Registered(c, old(St()), id, user, now)
    {
      s := Session(next, id, user);
      if user in sessionsByUserIdMap && |sessionsByUserIdMap[user]| >= c.maxPerUser {
        return s, true;
      }
      refused := false;
      if user !in sessionsByUserIdMap {
        sessionsByUserIdMap := sessionsByUserIdMap[user := []];
      }
      if c.expireAfterIdle != 0 {
        idleTimeout := c.expireAfterIdle;
      }
      var expire := if c.expireAfter == 0 then DEFAULT_EXPIRE else c.expireAfter;
      shells := shells[next := Shell(New, false, now + expire, ZERO_TIME)];
      sessionsMap := sessionsMap[id := s];
      sessionsByUserIdMap := sessionsByUserIdMap[user := sessionsByUserIdMap[user] + [s]];
      next := next + 1;
      assert sessionsByUserIdMap == Insert(old(Sessions()), s).byUser;
    }

    /** `routeMessageSpawnShell`. */
    method SpawnShellMessage(id: string, user: string, now: int, execOk: bool) returns (result: SpawnResult)
      requires Valid() && c.maxPerUser >= 1
      modifies this
      ensures St() == Step(c, old(St()), SpawnShell(id, user, now, execOk))
      ensures result == Spawn(c, old(St()), id, user, now, execOk).1
    {
      if shellsSpawned >= c.maxShells {
        return TooManyShells;
      }
      var s;
      if id in sessionsMap {
        s := sessionsMap[id];
      } else {
        var refused;
        s, refused := NewSession(id, user, now);
        if refused {
          return TooManySessions;
        }
      }
      if Running(shells[s.ref]) {
        return AlreadyRunning;
      }
      if !execOk {
        return StartFailed;
      }
      shells := shells[s.ref := shells[s.ref].(status := Active, started := true, activeAt := now)];
      shellsSpawned := shellsSpawned + 1;
      return Spawned;
    }

    /** `routeMessageStopShell` with a session id. */
    method StopShellMessage(id: string, ans: Answers)
      requires Valid() && id != ""
      modifies this
      ensures St() == Step(c, old(St()), StopMessage(id, "", ans))
    {
      if id !in sessionsMap {
        return;
      }
      var ref := sessionsMap[id].ref;
      var ok := StopShell(ref, ans);
      if !ok && ans.survives(ref) {
        return;
      }
      if shellsSpawned != 0 {
        shellsSpawned := shellsSpawned - 1;
      }
      DeleteIsWithout(Sessions(), c.maxPerUser, id);
      var found := DeleteByIdLocked(id);
    }

    /** `MenderShellStopById`. */
    method StopById(id: string, ans: Answers) returns (found: bool)
      requires Valid()
      modifies `shells, `sessionsMap, `sessionsByUserIdMap
      ensures St() == StoppedById(old(St()), ans, id)
      ensures found <==> id in old(sessionsMap) && old(shells)[old(sessionsMap)[id].ref].started
    {
      if id !in sessionsMap || !shells[sessionsMap[id].ref].started {
        return false;
      }
      found := true;
      var ref := sessionsMap[id].ref;
      var ok := StopShell(ref, ans);
      if !ok && ans.survives(ref) {
        return;
      }
      DeleteIsWithout(Sessions(), c.maxPerUser, id);
      var deleted := DeleteByIdLocked(id);
    }

    /** The health check after no pong arrived; it stops the session without touching the counter. */
    method HealthCheckTimedOut(id: string, now: int, ans: Answers)
      requires Valid()
      modifies `shells, `sessionsMap, `sessionsByUserIdMap
      ensures St() == Step(c, old(St()), HealthCheckTimeout(id, now, ans))
    {
      if id !in sessionsMap || !shells[sessionsMap[id].ref].started {
        return;
      }
      var ref := sessionsMap[id].ref;
      shells := shells[ref := shells[ref].(expiresAt := now)];
      var found := StopById(id, ans);
    }

    /** `ShellCommand` on a session with a shell, as far as the session itself changes. */
    method ShellCommand(id: string, now: int)
      requires Valid()
      modifies `shells
      ensures St() == Step(c, old(St()), ShellInput(id, now))
    {
      if id in sessionsMap && shells[sessionsMap[id].ref].started {
        var ref := sessionsMap[id].ref;
        shells := shells[ref := shells[ref].(activeAt := now)];
      }
    }

    /** One round of the stopping loop: skip a session without a shell, note a survivor, collect the rest. */
    method StopNextOfUser(ghost st: State, ghost done: set<string>, s: Session, ans: Answers,
                          stopped0: seq<string>, err0: bool)
      returns (stopped: seq<string>, err: bool, ghost done': set<string>)
      requires ShellsOk(st) && done <= st.registry.byId.Keys && s.id !in done
      requires s.id in st.registry.byId && st.registry.byId[s.id] == s
      requires St() == st.(shells := MarkStopped(st.shells, RefsOf(st.registry, done)))
      requires Distinct(stopped0) && Elements(stopped0) == done - Survivors(st, ans, done)
      requires err0 <==> Survivors(st, ans, done) != {}
      modifies `shells
      ensures done' == if st.shells[s.ref].started then done + {s.id} else done
      ensures St() == st.(shells := MarkStopped(st.shells, RefsOf(st.registry, done')))
      ensures Distinct(stopped) && Elements(stopped) == done' - Survivors(st, ans, done')
      ensures err <==> Survivors(st, ans, done') != {}
    {
      stopped, err, done' := stopped0, err0, done;
      MarkOneMore(st, done, s.id);
      if !shells[s.ref].started {
        return;
      }
      SurvivorsOneMore(st, ans, done, s.id);
      var ok := StopShell(s.ref, ans);
      if !ok && ans.survives(s.ref) {
        err := true;
      } else {
        assert s.id !in Elements(stopped);
        stopped := stopped + [s.id];
        ElementsSnoc(stopped);
        assert stopped[..|stopped| - 1] == stopped0;
      }
      done' := done + {s.id};
    }

    /** The stopping loop of `MenderShellStopByUserId`. */
    method StopEachOfUser(user: string, ans: Answers) returns (stopped: seq<string>, err: bool)
      requires Valid()
      modifies `shells
      ensures var st := old(St());
              var tried := StartedAmong(st, UserIds(st.registry, user));
              && shells == MarkStopped(st.shells, RefsOf(st.registry, tried))
              && Distinct(stopped) && Elements(stopped) == tried - Survivors(st, ans, tried)
              && (err <==> Survivors(st, ans, tried) != {})
    {
      ghost var st := St();
      ghost var tried := StartedAmong(st, UserIds(Sessions(), user));
      ghost var done: set<string> := {};
      var list, i := UserList(Sessions(), user), 0;
      stopped, err := [], false;
      AmongEnds(st, user, tried);
      while i < |list|
        invariant i <= |list| && done == Among(tried, list[..i])
        invariant St() == st.(shells := MarkStopped(st.shells, RefsOf(st.registry, done)))
        invariant Distinct(stopped) && Elements(stopped) == done - Survivors(st, ans, done)
        invariant err <==> Survivors(st, ans, done) != {}
      {
        NextOfUser(st, c.maxPerUser, user, i, tried);
        stopped, err, done := StopNextOfUser(st, done, list[i], ans, stopped, err);
        i := i + 1;
      }
      assert list[..i] == list;
    }

    /** `MenderShellStopByUserId` for a user with sessions. */
    method StopByUserId(user: string, ans: Answers) returns (count: nat, err: bool)
      requires Valid()
      modifies `shells, `sessionsMap, `sessionsByUserIdMap
      ensures St() == StopUser(old(St()), ans, user)
      ensures var tried := StartedAmong(old(St()), UserIds(old(Sessions()), user));
              && (err <==> Survivors(old(St()), ans, tried) != {})
              && (!err ==> count == |tried|)
    {
      var stopped;
      stopped, err := StopEachOfUser(user, ans);
      DistinctSize(stopped);
      var left;
      count, left := DeleteEach(stopped);
    }

    /** `routeMessageStopShell` with a user id only. */
    method StopUserMessage(user: string, ans: Answers)
      requires Valid() && user != ""
      modifies this
      ensures St() == Step(c, old(St()), StopMessage("", user, ans))
    {
      if UserList(Sessions(), user) == [] {
        return;
      }
      var count, err := StopByUserId(user, ans);
      if !err {
        DecreaseSpawnedShellsCount(count);
      }
    }

    /** One event, handled by the goroutine it belongs to. */
    method Handle(e: Event)
      requires Valid() && Capped(c, St()) && c.maxPerUser >= 1 && !PhantomStop(St(), e)
      modifies this
      ensures Valid() && Capped(c, St()) && St() == Step(c, old(St()), e)
    {
      StepKeepsCapExactly(c, St(), e);
      StepKeepsAgreement(c, St(), e);
      match e
      case SpawnShell(id, user, now, execOk) =>
        var result := SpawnShellMessage(id, user, now, execOk);
      case StopMessage(id, user, ans) =>
        if id != "" {
          StopShellMessage(id, ans);
        } else if user != "" {
          StopUserMessage(user, ans);
        }
      case Unauthorized(ans) => LoseAuthorization(ans);
      case ExpirySweep(now, ans) => SweepSessions(ans, now);
      case HealthCheckTimeout(id, now, ans) => HealthCheckTimedOut(id, now, ans);
      case ShellInput(id, now) => ShellCommand(id, now);
    }

  }
}
