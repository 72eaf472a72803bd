/**
  The two indexes of the shell sessions: the primary map by session id, and the list of
  sessions of each user.  A session value stands for the reference that the source stores
  in both; `ref` is its identity, so two sessions with one id are still two sessions.
 */
module SessionRegistry {

  datatype Session = Session(ref: nat, id: string, userId: string)

  datatype Registry = Registry(byId: map<string, Session>, byUser: map<string, seq<Session>>)

  const EMPTY: Registry := Registry(map[], map[])

  function UserList(r: Registry, user: string): seq<Session> {
    if user in r.byUser then r.byUser[user] else []
  }

  /** The registration step of `NewMenderShellSession`. */
  function Insert(r: Registry, s: Session): Registry {
    Registry(r.byId[s.id := s], r.byUser[s.userId := UserList(r, s.userId) + [s]])
  }

  /** The slice surgery of the delete: the first entry with this id goes. */
  function RemoveFirst(list: seq<Session>, id: string): seq<Session> {
    if list == [] then []
    else if list[0].id == id then list[1..]
    else [list[0]] + RemoveFirst(list[1..], id)
  }

  /** `menderShellDeleteByIdLocked`; an unknown id leaves the registry alone. */
  function Delete(r: Registry, id: string): Registry {
    if id !in r.byId then r
    else
      var user := r.byId[id].userId;
      Registry(r.byId - {id},
               if user in r.byUser then r.byUser[user := RemoveFirst(r.byUser[user], id)] else r.byUser)
  }

  // ---------------------------------------------------------------- agreement of the two indexes

  predicate DistinctIds(list: seq<Session>) {
    forall i, j :: 0 <= i < j < |list| ==> list[i].id != list[j].id
  }

  /** The primary map files every session under its own id, and its user's list has it. */
  predicate Filed(r: Registry) {
    forall id :: id in r.byId ==> r.byId[id].id == id && r.byId[id] in UserList(r, r.byId[id].userId)
  }

  /** A user's list is within the cap and holds distinct, registered sessions of that user. */
  predicate ListOk(r: Registry, user: string, list: seq<Session>, cap: nat) {
    && |list| <= cap
    && DistinctIds(list)
    && (forall s :: s in list ==> s.userId == user && s.id in r.byId && r.byId[s.id] == s)
  }

  predicate Agreement(r: Registry, cap: nat) {
    Filed(r) && forall user :: user in r.byUser ==> ListOk(r, user, r.byUser[user], cap)
  }

  /** Where a session occurs, in the terms of the two maps. */
  predicate OccursOnce(r: Registry, s: Session) {
    && multiset(UserList(r, s.userId))[s] == 1
    && forall user :: user in r.byUser && user != s.userId ==> multiset(r.byUser[user])[s] == 0
  }

  lemma {:induction false} DistinctCount(list: seq<Session>, s: Session)
    requires DistinctIds(list)
    ensures multiset(list)[s] == if s in list then 1 else 0
  {
    if list != [] {
      assert list == [list[0]] + list[1..];
      DistinctCount(list[1..], s);
      assert list[0] !in list[1..];
    }
  }

  /** A session is registered under its id exactly when it occurs once in its user's list and nowhere else. */
  lemma AgreementCounts(r: Registry, cap: nat, s: Session)
    requires Agreement(r, cap)
    ensures s.id in r.byId && r.byId[s.id] == s <==> OccursOnce(r, s)
    ensures forall user :: user in r.byUser ==> multiset(r.byUser[user])[s] <= 1
    ensures forall user :: user in r.byUser ==> |r.byUser[user]| <= cap
  {
    DistinctCount(UserList(r, s.userId), s);
    forall user | user in r.byUser
      ensures multiset(r.byUser[user])[s] <= 1 && (user != s.userId ==> multiset(r.byUser[user])[s] == 0)
    {
      DistinctCount(r.byUser[user], s);
    }
  }

  lemma FreshInsertAgrees(r: Registry, cap: nat, s: Session)
    requires Agreement(r, cap) && |UserList(r, s.userId)| < cap && s.id !in r.byId
    ensures Agreement(Insert(r, s), cap)
  {
    var t := Insert(r, s);
    var list := UserList(r, s.userId);
    assert ListOk(t, s.userId, list + [s], cap) by {
      forall i | 0 <= i < |list| ensures list[i].id != s.id {
        assert list[i] in list;
      }
    }
    forall user | user in t.byUser ensures ListOk(t, user, t.byUser[user], cap) {
      if user != s.userId {
        assert ListOk(r, user, r.byUser[user], cap);
      }
    }
    assert s in t.byUser[s.userId];
    forall x | x in list ensures x in t.byUser[s.userId] {}
  }

  lemma TakenInsertDisagrees(r: Registry, cap: nat, s: Session)
    requires Agreement(r, cap) && s.id in r.byId && r.byId[s.id] != s
    ensures !Agreement(Insert(r, s), cap)
  {
    var t := Insert(r, s);
    var prior := r.byId[s.id];
    assert prior in UserList(r, prior.userId);
    assert prior in t.byUser[prior.userId];
    assert !ListOk(t, prior.userId, t.byUser[prior.userId], cap);
  }

  /**
    Registration keeps the indexes in agreement exactly when the id is new; the caller
    looks the id up first.
   */
  lemma InsertAgrees(r: Registry, cap: nat, s: Session)
    requires Agreement(r, cap) && |UserList(r, s.userId)| < cap
    requires forall id :: id in r.byId ==> r.byId[id].ref != s.ref
    ensures Agreement(Insert(r, s), cap) <==> s.id !in r.byId
  {
    if s.id in r.byId {
      TakenInsertDisagrees(r, cap, s);
    } else {
      FreshInsertAgrees(r, cap, s);
    }
  }

  // ---------------------------------------------------------------- deletion, one by one and all at once

  function Filter(list: seq<Session>, ids: set<string>): (f: seq<Session>)
    ensures |f| <= |list|
    ensures forall s :: s in f <==> s in list && s.id !in ids
  {
    if list == [] then []
    else if list[0].id in ids then Filter(list[1..], ids)
    else [list[0]] + Filter(list[1..], ids)
  }

  /** The registry without the given ids, whatever order they are removed in. */
  function Without(r: Registry, ids: set<string>): Registry {
    Registry(r.byId - ids, map user | user in r.byUser :: Filter(r.byUser[user], ids))
  }

  lemma {:induction false} FilterKeepsDistinct(list: seq<Session>, ids: set<string>)
    requires DistinctIds(list)
    ensures DistinctIds(Filter(list, ids))
  {
    if list != [] {
      FilterKeepsDistinct(list[1..], ids);
      if list[0].id !in ids {
        var rest := Filter(list[1..], ids);
        forall j | 0 <= j < |rest| ensures rest[j].id != list[0].id {
          assert rest[j] in list[1..];
        }
      }
    }
  }

  lemma {:induction false} NothingToFilter(list: seq<Session>, ids: set<string>)
    requires forall s :: s in list ==> s.id !in ids
    ensures Filter(list, ids) == list
  {
    if list != [] {
      NothingToFilter(list[1..], ids);
    }
  }

  lemma {:induction false} RemoveFirstIsFilter(list: seq<Session>, id: string)
    requires DistinctIds(list)
    ensures RemoveFirst(list, id) == Filter(list, {id})
  {
    if list != [] {
      if list[0].id == id {
        NothingToFilter(list[1..], {id});
      } else {
        RemoveFirstIsFilter(list[1..], id);
      }
    }
  }

  lemma {:induction false} FilterTwice(list: seq<Session>, a: set<string>, b: set<string>)
    ensures Filter(Filter(list, a), b) == Filter(list, a + b)
  {
    if list != [] {
      FilterTwice(list[1..], a, b);
      if list[0].id !in a {
        assert ([list[0]] + Filter(list[1..], a))[1..] == Filter(list[1..], a);
      }
    }
  }

  lemma WithoutKeepsAgreement(r: Registry, cap: nat, ids: set<string>)
    requires Agreement(r, cap)
    ensures Agreement(Without(r, ids), cap)
  {
    var t := Without(r, ids);
    forall user | user in t.byUser ensures ListOk(t, user, t.byUser[user], cap) {
      FilterKeepsDistinct(r.byUser[user], ids);
    }
  }

  lemma DeletedList(r: Registry, cap: nat, id: string, user: string)
    requires Agreement(r, cap) && user in r.byUser
    ensures Delete(r, id).byUser[user] == Filter(r.byUser[user], {id})
  {
    assert ListOk(r, user, r.byUser[user], cap);
    if id in r.byId && r.byId[id].userId == user {
      RemoveFirstIsFilter(r.byUser[user], id);
    } else {
      NothingToFilter(r.byUser[user], {id});
    }
  }

  lemma DeleteKeepsUsers(r: Registry, id: string)
    ensures Delete(r, id).byUser.Keys == r.byUser.Keys && Delete(r, id).byId == r.byId - {id}
  {
  }

  /** With the indexes in agreement, the source's delete removes exactly one session from both. */
  lemma DeleteIsWithout(r: Registry, cap: nat, id: string)
    requires Agreement(r, cap)
    ensures Delete(r, id) == Without(r, {id})
  {
    DeleteKeepsUsers(r, id);
    assert Delete(r, id).byUser == Without(r, {id}).byUser by {
      forall user | user in r.byUser ensures Delete(r, id).byUser[user] == Filter(r.byUser[user], {id}) {
        DeletedList(r, cap, id, user);
      }
    }
  }

  lemma WithoutTwice(r: Registry, a: set<string>, b: set<string>)
    ensures Without(Without(r, a), b) == Without(r, a + b)
  {
    forall user | user in r.byUser
      ensures Filter(Filter(r.byUser[user], a), b) == Filter(r.byUser[user], a + b)
    {
      FilterTwice(r.byUser[user], a, b);
    }
    assert Without(Without(r, a), b).byUser == Without(r, a + b).byUser;
    assert Without(Without(r, a), b).byId == Without(r, a + b).byId;
  }

  lemma WithoutNothing(r: Registry)
    ensures Without(r, {}) == r
  {
    forall user | user in r.byUser ensures Filter(r.byUser[user], {}) == r.byUser[user] {
      NothingToFilter(r.byUser[user], {});
    }
    assert Without(r, {}).byUser == r.byUser;
  }

  /** One more delete on top of any set of deletes. */
  lemma DeleteOneMore(r: Registry, cap: nat, done: set<string>, id: string)
    requires Agreement(r, cap)
    ensures Delete(Without(r, done), id) == Without(r, done + {id})
  {
    WithoutKeepsAgreement(r, cap, done);
    DeleteIsWithout(Without(r, done), cap, id);
    WithoutTwice(r, done, {id});
  }

  /** The deletes of one lock-held section, in the order the source happens to make them. */
  function DeleteAll(r: Registry, ids: seq<string>): Registry
    decreases |ids|
  {
    if ids == [] then r else Delete(DeleteAll(r, ids[..|ids| - 1]), ids[|ids| - 1])
  }

  function Elements(ids: seq<string>): set<string> {
    set id | id in ids
  }

  lemma ElementsSnoc(ids: seq<string>)
    requires ids != []
    ensures Elements(ids) == Elements(ids[..|ids| - 1]) + {ids[|ids| - 1]}
  {
    var n := |ids| - 1;
    forall id | id in ids ensures id in ids[..n] || id == ids[n] {
      var i :| 0 <= i < |ids| && ids[i] == id;
      assert i < n ==> ids[..n][i] == id;
    }
  }

  /** The order of deletes does not matter: both maps lose exactly the named sessions. */
  lemma {:induction false} DeleteAllIsWithout(r: Registry, cap: nat, ids: seq<string>)
    requires Agreement(r, cap)
    ensures DeleteAll(r, ids) == Without(r, Elements(ids))
    decreases |ids|
  {
    if ids == [] {
      WithoutNothing(r);
      assert Elements(ids) == {};
    } else {
      var before, last := ids[..|ids| - 1], ids[|ids| - 1];
      calc {
        DeleteAll(r, ids);
        Delete(DeleteAll(r, before), last);
        { DeleteAllIsWithout(r, cap, before); }
        Delete(Without(r, Elements(before)), last);
        { DeleteOneMore(r, cap, Elements(before), last); }
        Without(r, Elements(before) + {last});
        { ElementsSnoc(ids); }
        Without(r, Elements(ids));
      }
    }
  }

  lemma InsertLooksUp(r: Registry, s: Session, x: Session)
    requires s.id !in r.byId
    ensures x.id in Insert(r, s).byId && Insert(r, s).byId[x.id] == x <==>
            x == s || (x.id in r.byId && r.byId[x.id] == x)
  {
  }

  /** Registering a new session adds it and leaves every other session where it occurs. */
  lemma InsertAddsOne(r: Registry, cap: nat, s: Session, x: Session)
    requires Agreement(r, cap) && |UserList(r, s.userId)| < cap && s.id !in r.byId
    ensures OccursOnce(Insert(r, s), x) <==> x == s || OccursOnce(r, x)
  {
    FreshInsertAgrees(r, cap, s);
    AgreementCounts(r, cap, x);
    AgreementCounts(Insert(r, s), cap, x);
    InsertLooksUp(r, s, x);
    assert Agreement(r, cap) && x.id in r.byId && r.byId[x.id] == x ==> x.id != s.id;
  }

  /** Removing ids takes exactly those sessions away. */
  lemma WithoutTakesExactly(r: Registry, cap: nat, ids: set<string>, x: Session)
    requires Agreement(r, cap)
    ensures OccursOnce(Without(r, ids), x) <==> OccursOnce(r, x) && x.id !in ids
  {
    WithoutKeepsAgreement(r, cap, ids);
    AgreementCounts(r, cap, x);
    AgreementCounts(Without(r, ids), cap, x);
  }

  // ---------------------------------------------------------------- every interleaving of lock-held sections

  /**
    What one goroutine does to the indexes while it holds the lock.  Ids to delete may be
    stale: the session may be gone, or the id may name a newer session by now.
   */
  datatype Section = AddSession(s: Session) | DeleteIds(ids: seq<string>)

  /** Only the message loop registers, after it looked the id up and found nothing. */
  predicate SectionEnabled(r: Registry, cap: nat, x: Section) {
    x.AddSession? ==> x.s.id !in r.byId
  }

  function SectionApply(r: Registry, cap: nat, x: Section): Registry {
    match x
    case AddSession(s) => if |UserList(r, s.userId)| < cap then Insert(r, s) else r
    case DeleteIds(ids) => DeleteAll(r, ids)
  }

  predicate SectionRun(r: Registry, cap: nat, sections: seq<Section>, t: Registry)
    decreases |sections|
  {
    if sections == [] then r == t
    else SectionEnabled(r, cap, sections[0])
         && SectionRun(SectionApply(r, cap, sections[0]), cap, sections[1..], t)
  }

  lemma {:induction false} SectionsKeepAgreement(r: Registry, cap: nat, sections: seq<Section>, t: Registry)
    requires Agreement(r, cap) && SectionRun(r, cap, sections, t)
    ensures Agreement(t, cap)
    decreases |sections|
  {
    if sections != [] {
      var x := sections[0];
      match x {
        case AddSession(s) =>
          if |UserList(r, s.userId)| < cap {
            FreshInsertAgrees(r, cap, s);
          }
        case DeleteIds(ids) =>
          DeleteAllIsWithout(r, cap, ids);
          WithoutKeepsAgreement(r, cap, Elements(ids));
      }
      SectionsKeepAgreement(SectionApply(r, cap, x), cap, sections[1..], t);
    }
  }

  /**
    A lock-held section leaves a session registered, in both maps, exactly if it adds it
    within its user's maximum, or if it was registered and the section does not delete it.
   */
  lemma SectionDecides(r: Registry, cap: nat, x: Section, s: Session)
    requires Agreement(r, cap) && SectionEnabled(r, cap, x)
    ensures OccursOnce(SectionApply(r, cap, x), s) <==>
            || (x == AddSession(s) && |UserList(r, s.userId)| < cap)
            || (OccursOnce(r, s) && (x.DeleteIds? ==> s.id !in x.ids))
  {
    match x
    case AddSession(y) =>
      if |UserList(r, y.userId)| < cap {
        InsertAddsOne(r, cap, y, s);
      } else {
        AgreementCounts(r, cap, s);
      }
    case DeleteIds(ids) =>
      DeleteAllIsWithout(r, cap, ids);
      WithoutTakesExactly(r, cap, Elements(ids), s);
  }

  /** After every lock-held section of every interleaving, the two indexes agree session by session. */
  lemma IndexesAlwaysAgree(cap: nat, sections: seq<Section>, t: Registry, s: Session)
    requires SectionRun(EMPTY, cap, sections, t)
    ensures s.id in t.byId && t.byId[s.id] == s <==> OccursOnce(t, s)
    ensures forall user :: user in t.byUser ==> |t.byUser[user]| <= cap
  {
    SectionsKeepAgreement(EMPTY, cap, sections, t);
    AgreementCounts(t, cap, s);
  }
}
