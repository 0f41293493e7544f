/** The guest cleanup call by call: the session check and the commit are separate steps, held together by the user's lock. */
module GuestLocks {
  import opened Account
  import opened GuestCleanup

  /** Who holds a lock, and which lock holder has seen its user without a session. */
  datatype Fine = Fine(w: World, locked: set<int>, clear: set<int>)

  /** `Other` is a step by anybody else; sessions are saved and guests upgraded under the same lock, sessions end at any time. */
  datatype Call =
    | Other(a: Action)
    | Lock(id: int)
    | CheckSessions(id: int)
    | Commit(id: int, now: int)
    | Unlock(id: int)

  predicate NeedsLock(a: Action) { a.SignIn? || a.Upgrade? }

  predicate CanCall(s: Fine, c: Call) {
    match c
    case Other(a) => Enabled(s.w, a) && !a.Clean? && (NeedsLock(a) ==> a.id !in s.locked)
    case Lock(id) => id !in s.locked
    case CheckSessions(id) => id in s.locked
    case Commit(id, _) => id in s.clear
    case Unlock(id) => id in s.locked
  }

  /** The commit checks the user and its content in its own transaction, but not the sessions again. */
  function Called(s: Fine, c: Call): Fine
    requires CanCall(s, c)
  {
    match c
    case Other(a) => s.(w := Do(s.w, a))
    case Lock(id) => s.(locked := s.locked + {id})
    case CheckSessions(id) => if HasSession(s.w, id) then s else s.(clear := s.clear + {id})
    case Commit(id, now) =>
      if KnownUser(s.w.users, id) && s.w.users[id].guest && !Owns(s.w, id)
      then s.(w := s.w.(users := s.w.users[id := s.w.users[id].SoftDelete(id, now)], cleaned := s.w.cleaned + {id}))
      else s
    case Unlock(id) => s.(locked := s.locked - {id}, clear := s.clear - {id})
  }

  /** What the lock protects: a user seen without a session still has none. */
  ghost predicate LockInv(s: Fine) { s.clear <= s.locked && forall u :: u in s.clear ==> !HasSession(s.w, u) }

  /** The step of the coarse model that a call amounts to; calls that change nothing there amount to none. */
  function Coarse(c: Call): seq<Action> {
    match c
    case Other(a) => [a]
    case Commit(id, now) => [Clean(id, now)]
    case _ => []
  }

  lemma CallKeepsLockInv(s: Fine, c: Call)
    requires LockInv(s) && CanCall(s, c)
    ensures LockInv(Called(s, c))
  {
    var t := Called(s, c);
    forall u, x | u in t.clear && x in t.w.sessions ensures x.0 != u {
      assert u in s.clear ==> !HasSession(s.w, u);
      assert HasSession(s.w, u) <== x in s.w.sessions && x.0 == u;
    }
  }

  /** Each call does to the world exactly what its coarse step does: the commit, without looking again, deletes only the unused. */
  lemma CallIsStep(s: Fine, c: Call)
    requires LockInv(s) && CanCall(s, c)
    ensures Coarse(c) == [] ==> Called(s, c).w == s.w
    ensures Coarse(c) != [] ==> |Coarse(c)| == 1 && Enabled(s.w, Coarse(c)[0]) && Called(s, c).w == Do(s.w, Coarse(c)[0])
  {
  }

  ghost predicate CallTrace(s: Fine, calls: seq<Call>)
    decreases |calls|
  {
    calls == [] || (CanCall(s, calls[0]) && CallTrace(Called(s, calls[0]), calls[1..]))
  }

  ghost function AfterCalls(s: Fine, calls: seq<Call>): Fine
    requires CallTrace(s, calls)
    decreases |calls|
  {
    if calls == [] then s else AfterCalls(Called(s, calls[0]), calls[1..])
  }

  function CoarseRun(calls: seq<Call>): seq<Action> { if calls == [] then [] else Coarse(calls[0]) + CoarseRun(calls[1..]) }

  /** Every interleaving of calls is a run of the coarse model with the same world, so all that is proved of its runs holds of the calls. */
  lemma {:induction false} CallsRefine(s: Fine, calls: seq<Call>)
    requires LockInv(s) && CallTrace(s, calls)
    ensures Trace(s.w, CoarseRun(calls)) && After(s.w, CoarseRun(calls)) == AfterCalls(s, calls).w
    ensures LockInv(AfterCalls(s, calls))
    decreases |calls|
  {
    if calls != [] {
      var c := calls[0];
      CallKeepsLockInv(s, c);
      CallIsStep(s, c);
      CallsRefine(Called(s, c), calls[1..]);
      var rest := CoarseRun(calls[1..]);
      if Coarse(c) == [] { assert [] + rest == rest; }
      else { assert Coarse(c) == [Coarse(c)[0]] && ([Coarse(c)[0]] + rest)[1..] == rest; }
    }
  }

  const UNLOCKED := Fine(NOBODY, {}, {})

  /** Call by call, from the start: whoever is cleaned was, at the commit, a known guest without session, content or upgrade. */
  lemma {:induction false} CommitCleansOnlyUnused(calls: seq<Call>, c: Call, u: int)
    requires CallTrace(UNLOCKED, calls) && CanCall(AfterCalls(UNLOCKED, calls), c)
    requires u in Called(AfterCalls(UNLOCKED, calls), c).w.cleaned && u !in AfterCalls(UNLOCKED, calls).w.cleaned
    ensures c.Commit? && c.id == u
    ensures var w := AfterCalls(UNLOCKED, calls).w;
      && u in w.users && w.users[u].status != DeletedUser && w.users[u].guest && (forall s :: s in w.sessions ==> s.0 != u)
      && u !in w.posts && u !in w.comments && u !in w.reactions && u !in w.reports && u !in w.upgraded
  {
    CallsRefine(UNLOCKED, calls);
    TraceKeepsInv(NOBODY, CoarseRun(calls));
  }
}
