/** Removing unused guests while guests sign in, write, and upgrade: steps at the granularity of the per-user session lock. */
module GuestCleanup {
  import opened Text
  import opened Numerals
  import opened Account

  /** `posts`, `comments`, `reactions` and `reports` hold the users who own at least one published, active or filed one.
      `upgraded` and `cleaned` are history: whose upgrade completed, and whom the cleanup soft-deleted. */
  datatype World = World(
    users: map<int, User>,
    sessions: set<(int, string)>,
    posts: set<int>, comments: set<int>, reactions: set<int>, reports: set<int>,
    upgraded: set<int>, cleaned: set<int>
  )

  datatype Content = APost | AComment | AReaction | AReport

  datatype Action =
    | Enter(id: int, name: string, now: int)
    | SignIn(id: int, token: string)
    | SignOut(id: int, token: string)
    | Write(id: int, content: Content)
    | Withdraw(id: int, content: Content)
    | Upgrade(id: int, name: string, email: string, password: string, now: int)
    | Leave(id: int, now: int)
    | Clean(id: int, now: int)

  const NOBODY := World(map[], {}, {}, {}, {}, {}, {}, {})

  predicate HasSession(w: World, id: int) { exists s :: s in w.sessions && s.0 == id }

  predicate Owns(w: World, id: int) { id in w.posts || id in w.comments || id in w.reactions || id in w.reports }

  /** The cleanup deletes exactly these. */
  predicate Unused(w: World, id: int) { KnownUser(w.users, id) && w.users[id].guest && !HasSession(w, id) && !Owns(w, id) }

  /** An id is entered once; only known users write; an upgrade needs a known guest.  A session may be saved for anybody,
      since a sign-in reads the user before it takes the lock. */
  predicate Enabled(w: World, a: Action) {
    match a
    case Enter(id, _, _) => id !in w.users
    case Write(id, _) => KnownUser(w.users, id)
    case Upgrade(id, _, _, _, _) => KnownUser(w.users, id) && w.users[id].guest
    case Leave(id, _) => KnownUser(w.users, id) && !w.users[id].guest
    case _ => true
  }

  function With(w: World, id: int, c: Content): World {
    match c
    case APost => w.(posts := w.posts + {id})
    case AComment => w.(comments := w.comments + {id})
    case AReaction => w.(reactions := w.reactions + {id})
    case AReport => w.(reports := w.reports + {id})
  }

  function Without(w: World, id: int, c: Content): World {
    match c
    case APost => w.(posts := w.posts - {id})
    case AComment => w.(comments := w.comments - {id})
    case AReaction => w.(reactions := w.reactions - {id})
    case AReport => w.(reports := w.reports - {id})
  }

  function Do(w: World, a: Action): World
    requires Enabled(w, a)
  {
    match a
    case Enter(id, name, now) => w.(users := w.users[id := User(name, "", "", true, None, ActiveUser, now)])
    case SignIn(id, token) => w.(sessions := w.sessions + {(id, token)})
    case SignOut(id, token) => w.(sessions := w.sessions - {(id, token)})
    case Write(id, c) => With(w, id, c)
    case Withdraw(id, c) => Without(w, id, c)
    case Upgrade(id, name, email, password, now) =>
      w.(users := w.users[id := w.users[id].UpgradeGuest(name, email, password, now)], upgraded := w.upgraded + {id})
    case Leave(id, now) => w.(users := w.users[id := w.users[id].SoftDelete(id, now)])
    case Clean(id, now) =>
      if Unused(w, id) then w.(users := w.users[id := w.users[id].SoftDelete(id, now)], cleaned := w.cleaned + {id}) else w
  }

  /** No one is both upgraded and cleaned; the cleaned are deleted for good and own nothing. */
  ghost predicate Inv(w: World) {
    && w.upgraded !! w.cleaned
    && (forall u :: u in w.upgraded ==> u in w.users && !w.users[u].guest)
    && (forall u :: u in w.cleaned ==> u in w.users && !KnownUser(w.users, u) && !Owns(w, u))
  }

  lemma StepKeepsInv(w: World, a: Action)
    requires Inv(w) && Enabled(w, a)
    ensures Inv(Do(w, a))
  {
  }

  ghost predicate Trace(w: World, actions: seq<Action>)
    decreases |actions|
  {
    actions == [] || (Enabled(w, actions[0]) && Trace(Do(w, actions[0]), actions[1..]))
  }

  ghost function After(w: World, actions: seq<Action>): World
    requires Trace(w, actions)
    decreases |actions|
  {
    if actions == [] then w else After(Do(w, actions[0]), actions[1..])
  }

  lemma {:induction false} TraceKeepsInv(w: World, actions: seq<Action>)
    requires Inv(w) && Trace(w, actions)
    ensures Inv(After(w, actions)) && w.upgraded <= After(w, actions).upgraded
    decreases |actions|
  {
    if actions != [] {
      StepKeepsInv(w, actions[0]);
      TraceKeepsInv(Do(w, actions[0]), actions[1..]);
    }
  }

  lemma {:induction false} TraceOnce(w: World, before: seq<Action>, a: Action)
    requires Trace(w, before) && Enabled(After(w, before), a)
    ensures Trace(w, before + [a]) && After(w, before + [a]) == Do(After(w, before), a)
    decreases |before|
  {
    var more := before + [a];
    if before == [] {
      assert more[1..] == [] && more[0] == a;
      assert Trace(Do(w, a), []);
    } else {
      TraceOnce(Do(w, before[0]), before[1..], a);
      assert more[0] == before[0] && more[1..] == before[1..] + [a];
    }
  }

  /** Along every interleaving: whoever is cleaned had a moment, the one just before, at which it was an existing guest
      without a session, content or upgrade. */
  lemma {:induction false} CleanedWasUnused(w: World, actions: seq<Action>, u: int) returns (i: nat)
    requires Inv(w) && Trace(w, actions) && u in After(w, actions).cleaned && u !in w.cleaned
    ensures i < |actions| && actions[i].Clean? && actions[i].id == u && Trace(w, actions[..i])
    ensures var at := After(w, actions[..i]);
      && u in at.users && at.users[u].status != DeletedUser && at.users[u].guest && (forall s :: s in at.sessions ==> s.0 != u)
      && u !in at.posts && u !in at.comments && u !in at.reactions && u !in at.reports && u !in at.upgraded && u !in at.cleaned
    decreases |actions|
  {
    var next := Do(w, actions[0]);
    StepKeepsInv(w, actions[0]);
    if u in next.cleaned {
      i := 0;
      assert actions[..0] == [];
    } else {
      var j := CleanedWasUnused(next, actions[1..], u);
      i := j + 1;
      assert actions[..i][0] == actions[0] && actions[..i][1..] == actions[1..][..j];
    }
  }

  /** Along every interleaving, a completed upgrade is never cleaned afterwards, nor is a cleaned guest upgraded. */
  lemma {:induction false} UpgradeIsSafe(before: seq<Action>, rest: seq<Action>, u: int)
    requires Trace(NOBODY, before) && Trace(After(NOBODY, before), rest)
    ensures u in After(NOBODY, before).upgraded ==> u !in After(After(NOBODY, before), rest).cleaned
    ensures u in After(NOBODY, before).cleaned ==> u !in After(After(NOBODY, before), rest).upgraded
  {
    TraceKeepsInv(NOBODY, before);
    TraceKeepsInv(After(NOBODY, before), rest);
    CleanedGrows(After(NOBODY, before), rest);
  }

  lemma {:induction false} CleanedGrows(w: World, actions: seq<Action>)
    requires Trace(w, actions)
    ensures w.cleaned <= After(w, actions).cleaned
    decreases |actions|
  {
    if actions != [] { CleanedGrows(Do(w, actions[0]), actions[1..]); }
  }

  /** One more step at the end. */
  lemma AddStep(w: World, before: seq<Action>, a: Action, t: World)
    requires Trace(w, before) && After(w, before) == t && Enabled(t, a)
    ensures Trace(w, before + [a]) && After(w, before + [a]) == Do(t, a)
  {
    TraceOnce(w, before, a);
  }

  /** A guest upgrade as the account service runs it, for every pattern of failures and compensations, is a run of these
      steps: nothing, a sign-in, an upgrade, or a sign-in, an upgrade and a sign-out. */
  method UpgradeAsSteps(service: AccountService, ghost w: World, id: int, currentToken: string, username: string, email: string, password: string,
                        passwordHash: string, candidate: string, hash: string, faults: Faults) returns (r: Result<string>, ghost steps: seq<Action>)
    requires w.users == service.tables.users && w.sessions == service.sessions
    requires (id, candidate) !in service.sessions
    requires id in service.tables.users ==> !Taken(service.tables.users, id, service.tables.users[id].name, service.tables.users[id].email)
    modifies service
    ensures Trace(w, steps) && After(w, steps) == w.(users := service.tables.users, sessions := service.sessions, upgraded := After(w, steps).upgraded)
    ensures w.upgraded <= After(w, steps).upgraded <= w.upgraded + {id}
    ensures r.Ok? ==> id in After(w, steps).upgraded
    ensures service.tables.users != w.users ==> id in After(w, steps).upgraded
  {
    ghost var before := service.tables;
    r := service.UpgradeGuestAccount(id, currentToken, username, email, password, passwordHash, candidate, hash, faults);
    ghost var name, mail, current := TrimSpace(username), TrimSpace(email), TrimSpace(currentToken);
    steps := [];
    ghost var t := w;
    if service.sessions != w.sessions {
      AddStep(w, steps, SignIn(id, candidate), t);
      steps, t := steps + [SignIn(id, candidate)], Do(t, SignIn(id, candidate));
    }
    if r.Ok? || service.tables.users != w.users {
      ghost var now := service.tables.users[id].updatedAt;
      assert service.tables.users == before.users[id := before.users[id].UpgradeGuest(name, mail, passwordHash, now)];
      AddStep(w, steps, Upgrade(id, name, mail, passwordHash, now), t);
      steps, t := steps + [Upgrade(id, name, mail, passwordHash, now)], Do(t, Upgrade(id, name, mail, passwordHash, now));
    }
    if r.Ok? {
      AddStep(w, steps, SignOut(id, current), t);
      steps, t := steps + [SignOut(id, current)], Do(t, SignOut(id, current));
      assert t.sessions == service.sessions;
    }
  }

  /** The user's turn came among the calls from the n-th on. */
  ghost predicate CheckedSince(history: seq<Action>, n: nat, id: int) { exists i :: n <= i < |history| && history[i].Clean? && history[i].id == id }

  lemma CheckedNext(history: seq<Action>, a: Action)
    ensures forall n: nat, u :: n <= |history| && CheckedSince(history, n, u) ==> CheckedSince(history + [a], n, u)
    ensures forall n: nat :: n <= |history| && a.Clean? ==> CheckedSince(history + [a], n, a.id)
  {
    assert (history + [a])[|history|] == a;
    forall n: nat, u | n <= |history| && CheckedSince(history, n, u) ensures CheckedSince(history + [a], n, u) {
      var i :| n <= i < |history| && history[i].Clean? && history[i].id == u;
      assert (history + [a])[i] == history[i];
    }
  }

  class GuestCleanupService {
    var w: World
    var clock: int
    const reliable: bool
    /** Every step so far, in order: an interleaving that leads from the start to the present state. */
    ghost var history: seq<Action>

    ghost predicate Valid()
      reads this
    {
      Inv(w) && Trace(NOBODY, history) && After(NOBODY, history) == w
    }

    constructor (start: int, reliable: bool)
      ensures w == NOBODY && history == [] && Valid() && this.reliable == reliable
    {
      w, clock, this.reliable, history := NOBODY, start, reliable, [];
    }

    /** Takes note of a step that has been made. */
    ghost method Note(a: Action, before: World)
      requires Inv(before) && Trace(NOBODY, history) && After(NOBODY, history) == before
      requires Enabled(before, a) && w == Do(before, a)
      modifies this`history
      ensures Valid() && history == old(history) + [a]
      ensures forall n: nat, u :: n <= |old(history)| && CheckedSince(old(history), n, u) ==> CheckedSince(history, n, u)
      ensures forall n: nat :: n <= |old(history)| && a.Clean? ==> CheckedSince(history, n, a.id)
    {
      StepKeepsInv(before, a);
      TraceOnce(NOBODY, history, a);
      CheckedNext(history, a);
      history := history + [a];
    }

    method CallFails() returns (failed: bool)
      ensures reliable ==> !failed
    {
      failed := *;
      if reliable { failed := false; }
    }

    method Act(a: Action)
      requires Valid() && Enabled(w, a)
      modifies this`w, this`history
      ensures Valid() && w == Do(old(w), a) && history == old(history) + [a]
      ensures forall n: nat, u :: n <= |old(history)| && CheckedSince(old(history), n, u) ==> CheckedSince(history, n, u)
    {
      w := Do(w, a);
      Note(a, old(w));
    }

    /** Anything others do between two users: sign-ins, posts, upgrades, another cleanup. */
    method Interfere()
      requires Valid()
      modifies this`w, this`history
      ensures Valid() && |old(history)| <= |history| && old(w).cleaned <= w.cleaned && old(w).upgraded <= w.upgraded
      ensures forall n: nat, u :: n <= |old(history)| && CheckedSince(old(history), n, u) ==> CheckedSince(history, n, u)
    {
      var k: int := *;
      for i := 0 to if k > 0 then k else 0
        invariant Valid() && |old(history)| <= |history| && old(w).cleaned <= w.cleaned && old(w).upgraded <= w.upgraded
        invariant forall n: nat, u :: n <= |old(history)| && CheckedSince(old(history), n, u) ==> CheckedSince(history, n, u)
      {
        var a: Action := *;
        if Enabled(w, a) { Act(a); }
      }
    }

    /** The checks in turn; true as soon as one of them spares the user. */
    method KeepsGuest(id: int) returns (r: Result<bool>)
      ensures r.Ok? ==> r.value == !Unused(w, id)
      ensures reliable ==> r.Ok?
    {
      var failed := CallFails();
      if failed { return Err(RepositoryFailure); }
      if !KnownUser(w.users, id) || !w.users[id].guest { return Ok(true); }
      failed := CallFails();
      if failed { return Err(RepositoryFailure); }
      if HasSession(w, id) { return Ok(true); }
      failed := CallFails();
      if failed { return Err(RepositoryFailure); }
      if id in w.posts { return Ok(true); }
      failed := CallFails();
      if failed { return Err(RepositoryFailure); }
      if id in w.comments { return Ok(true); }
      failed := CallFails();
      if failed { return Err(RepositoryFailure); }
      if id in w.reactions { return Ok(true); }
      failed := CallFails();
      if failed { return Err(RepositoryFailure); }
      return Ok(id in w.reports);
    }

    /** Under the user's lock and in one transaction: the checks, then the soft delete. */
    method CleanupGuest(id: int) returns (r: Result<bool>)
      requires Valid()
      modifies this
      ensures Valid() && |old(history)| <= |history|
      ensures r.Err? ==> w == old(w) && history == old(history)
      ensures r.Ok? ==> (r.value <==>
        && id in old(w).users && old(w).users[id].status != DeletedUser && old(w).users[id].guest && (forall s :: s in old(w).sessions ==> s.0 != id)
        && id !in old(w).posts && id !in old(w).comments && id !in old(w).reactions && id !in old(w).reports)
      ensures r.Ok? && !r.value ==> w == old(w)
      ensures r.Ok? && r.value ==> clock >= old(clock) && w == old(w).(cleaned := old(w).cleaned + {id},
        users := old(w).users[id := User("deleted-user-" + PrintInt(id), "", "", false, None, DeletedUser, clock)])
      ensures r.Ok? ==> exists now :: w == Do(old(w), Clean(id, now)) && history == old(history) + [Clean(id, now)]
      ensures forall n: nat, u :: n <= |old(history)| && CheckedSince(old(history), n, u) ==> CheckedSince(history, n, u)
      ensures forall n: nat :: n <= |old(history)| && r.Ok? ==> CheckedSince(history, n, id)
      ensures reliable ==> r.Ok?
    {
      var kept := KeepsGuest(id);
      if kept.Err? { return kept; }
      if !kept.value {
        var failed := CallFails();
        if failed { return Err(RepositoryFailure); }
        var passed: int := *;
        if passed > 0 { clock := clock + passed; }
        w := w.(users := w.users[id := w.users[id].SoftDelete(id, clock)], cleaned := w.cleaned + {id});
      }
      assert w == Do(old(w), Clean(id, clock));
      Note(Clean(id, clock), old(w));
      return Ok(!kept.value);
    }

    /** Guests that look unused when the pass begins; by the time one's turn comes, it may have changed. */
    method SelectGuestCleanupCandidates(limit: int) returns (r: Result<seq<int>>)
      requires limit > 0
      ensures r.Ok? ==> |r.value| <= limit && forall u :: u in r.value ==> KnownUser(w.users, u) && w.users[u].guest
      ensures reliable ==> r.Ok?
    {
      var failed := CallFails();
      if failed { return Err(RepositoryFailure); }
      var some: seq<int> := *;
      var ids: seq<int> := [];
      for i := 0 to |some|
        invariant |ids| <= limit && forall u :: u in ids ==> KnownUser(w.users, u) && w.users[u].guest
      {
        if |ids| < limit && KnownUser(w.users, some[i]) && w.users[some[i]].guest { ids := ids + [some[i]]; }
      }
      return Ok(ids);
    }

    /** One candidate's turn, after whatever others did meanwhile. */
    method CleanupNext(id: int) returns (r: Result<bool>)
      requires Valid()
      modifies this
      ensures Valid() && |old(history)| <= |history| && old(w).cleaned <= w.cleaned && old(w).upgraded <= w.upgraded
      ensures r.Ok? && r.value ==> id !in old(w).cleaned && id in w.cleaned
      ensures forall n: nat, u :: n <= |old(history)| && CheckedSince(old(history), n, u) ==> CheckedSince(history, n, u)
      ensures forall n: nat :: n <= |old(history)| && r.Ok? ==> CheckedSince(history, n, id)
      ensures reliable ==> r.Ok?
    {
      Interfere();
      r := CleanupGuest(id);
    }

    /** The count is the number of users that this pass itself newly deleted, also when it stops early; a pass that does not
        stop early gives every chosen guest its turn. */
    method CleanupGuests(pendingGrace: int, activeUnusedGrace: int, limit: int, cancellable: bool)
      returns (deleted: nat, failure: Option<Error>, ghost chosen: seq<int>, ghost mine: set<int>)
      requires Valid()
      modifies this
      ensures Valid() && deleted == |mine|
      ensures mine !! old(w).cleaned && old(w).cleaned + mine <= w.cleaned
      ensures mine !! old(w).upgraded && mine !! w.upgraded
      ensures limit > 0 ==> deleted <= limit
      ensures limit <= 0 || pendingGrace <= 0 || activeUnusedGrace <= 0 ==> deleted == 0 && failure.None? && w == old(w)
      ensures forall u :: u in chosen ==> KnownUser(old(w).users, u) && old(w).users[u].guest
      ensures forall u :: u in mine ==> u in chosen
      ensures failure.None? ==> forall u :: u in chosen ==> CheckedSince(history, |old(history)|, u)
      ensures reliable && !cancellable ==> failure.None?
    {
      deleted, failure, chosen, mine := 0, None, [], {};
      if limit <= 0 || pendingGrace <= 0 || activeUnusedGrace <= 0 { return; }
      var items := SelectGuestCleanupCandidates(limit);
      if items.Err? { return 0, Some(RepositoryFailure), [], {}; }
      chosen := items.value;
      for i := 0 to |items.value|
        invariant Valid() && deleted == |mine| <= i && failure.None? && |old(history)| <= |history| && chosen == items.value
        invariant mine !! old(w).cleaned && old(w).cleaned + mine <= w.cleaned && old(w).upgraded <= w.upgraded
        invariant forall u :: u in mine ==> u in chosen
        invariant forall k :: 0 <= k < i ==> CheckedSince(history, |old(history)|, items.value[k])
      {
        var cancelled: bool := *;
        if cancelled && cancellable { return deleted, Some(RepositoryFailure), chosen, mine; }
        var one := CleanupNext(items.value[i]);
        if one.Err? { return deleted, Some(one.error), chosen, mine; }
        if one.value {
          deleted := deleted + 1;
          mine := mine + {items.value[i]};
        }
      }
    }
  }
}
