/** One-time tokens in flight: every interleaving of issuing, delivering, redelivering, invalidating, confirming and restoring, one repository call at a time. */
module MailTokens {
  import opened Text
  import opened OneTimeTokens

  /** Where one run of the mail handler stands, with the copy of the row that it carries. */
  datatype Phase =
    | Begun
    | Sending(copy: Option<Token>)
    | Sent(unsent: Token)
    | Delivered
    | Activating(row: Token)
    | Done

  datatype Run = Run(hash: string, phase: Phase)

  /** `confirms` holds the copies that a confirmation in progress may put back.  `issued` and `recorded` are history:
      every hash ever issued, and every hash whose row was ever written or seen with a delivery time. */
  datatype State = State(
    rows: map<string, Token>,
    runs: map<int, Run>,
    confirms: map<int, (string, Token)>,
    mails: seq<string>,
    issued: set<string>,
    recorded: set<string>
  )

  datatype Action =
    | Issue(user: int, hash: string, expiresAt: int, now: int)
    | Invalidate(user: int)
    | Purge(hash: string)
    | Begin(run: int, hash: string)
    | SelectBefore(run: int)
    | Send(run: int)
    | RecordDelivery(run: int, now: int)
    | SelectAfter(run: int, now: int)
    | Activate(run: int)
    | Fail(run: int)
    | Confirm(id: int, hash: string, now: int)
    | Restore(id: int)

  const EMPTY := State(map[], map[], map[], [], {}, {})

  predicate Enabled(s: State, a: Action) {
    match a
    case Issue(_, hash, _, _) => hash !in s.issued
    case Invalidate(_) => true
    case Purge(hash) => hash in s.rows
    case Begin(run, hash) => run !in s.runs && hash in s.issued
    case SelectBefore(run) => run in s.runs && s.runs[run].phase.Begun?
    case Send(run) => run in s.runs && s.runs[run].phase.Sending?
    case RecordDelivery(run, _) => run in s.runs && s.runs[run].phase.Sent?
    case SelectAfter(run, _) => run in s.runs && s.runs[run].phase.Delivered?
    case Activate(run) => run in s.runs && s.runs[run].phase.Activating?
    case Fail(run) => run in s.runs
    case Confirm(id, hash, now) => id !in s.confirms && hash in s.rows && s.rows[hash].IsUsable(now)
    case Restore(id) => id in s.confirms
  }

  function Find(s: State, hash: string): Option<Token> { if hash in s.rows then Some(s.rows[hash]) else None }

  function Moved(s: State, run: int, p: Phase): State
    requires run in s.runs
  {
    s.(runs := s.runs[run := s.runs[run].(phase := p)])
  }

  /** An update writes the whole row, also when the row was deleted meanwhile. */
  function Written(s: State, hash: string, row: Token): State { s.(rows := s.rows[hash := row]) }

  function Do(s: State, a: Action): State
    requires Enabled(s, a)
  {
    match a
    case Issue(user, hash, expiresAt, now) =>
      s.(rows := (map h | h in s.rows && s.rows[h].user != user :: s.rows[h])[hash := Token(user, expiresAt, Some(now), None)], issued := s.issued + {hash})
    case Invalidate(user) => s.(rows := map h | h in s.rows && s.rows[h].user != user :: s.rows[h])
    case Purge(hash) => s.(rows := s.rows - {hash})
    case Begin(run, hash) => s.(runs := s.runs[run := Run(hash, Begun)])
    case SelectBefore(run) =>
      var hash := s.runs[run].hash;
      var token := Find(s, hash);
      if token.None? || token.value.deliveredAt.None? then Moved(s, run, Sending(token))
      else Moved(s, run, Delivered).(recorded := s.recorded + {hash})
    case Send(run) =>
      var copy := s.runs[run].phase.copy;
      Moved(s, run, if copy.None? then Done else Sent(copy.value)).(mails := s.mails + [s.runs[run].hash])
    case RecordDelivery(run, now) =>
      var hash, copy := s.runs[run].hash, s.runs[run].phase.unsent;
      Moved(Written(s, hash, copy.(deliveredAt := Some(now))), run, Delivered).(recorded := s.recorded + {hash})
    case SelectAfter(run, now) =>
      var token := Find(s, s.runs[run].hash);
      if token.None? || !token.value.IsConsumed() || token.value.IsExpired(now) then Moved(s, run, Done)
      else Moved(s, run, Activating(token.value))
    case Activate(run) =>
      Moved(Written(s, s.runs[run].hash, s.runs[run].phase.row.(consumedAt := None)), run, Done)
    case Fail(run) => Moved(s, run, Done)
    case Confirm(id, hash, now) =>
      Written(s, hash, s.rows[hash].Consume(now)).(confirms := s.confirms[id := (hash, s.rows[hash])])
    case Restore(id) =>
      Written(s, s.confirms[id].0, s.confirms[id].1).(confirms := s.confirms - {id})
  }

  predicate RunSound(s: State, r: Run) {
    && r.hash in s.issued
    && match r.phase
       case Sending(copy) => copy.Some? ==> copy.value.deliveredAt.None? && copy.value.IsConsumed()
       case Sent(copy) => copy.deliveredAt.None? && copy.IsConsumed()
       case Delivered => r.hash in s.recorded
       case Activating(row) => r.hash in s.recorded && row.deliveredAt.Some?
       case _ => true
  }

  /** What holds between any two calls. */
  ghost predicate Inv(s: State) {
    && s.recorded <= s.issued
    && (forall h :: h in s.rows ==> h in s.issued)
    && (forall h :: h in s.rows ==> (s.rows[h].deliveredAt.Some? <==> h in s.recorded))
    && (forall h :: h in s.rows && !s.rows[h].IsConsumed() ==> h in s.recorded)
    && (forall r :: r in s.runs ==> RunSound(s, s.runs[r]))
    && (forall c :: c in s.confirms ==> s.confirms[c].0 in s.recorded && s.confirms[c].1.deliveredAt.Some?)
  }

  /** Sound runs stay sound while history only grows. */
  lemma RunsStaySound(s: State, t: State)
    requires Inv(s) && s.recorded <= t.recorded && s.issued <= t.issued
    ensures forall r :: r in s.runs ==> RunSound(t, s.runs[r])
  {
    forall r | r in s.runs ensures RunSound(t, s.runs[r]) { assert RunSound(s, s.runs[r]); }
  }

  lemma SystemStepKeepsInv(s: State, a: Action)
    requires Inv(s) && Enabled(s, a) && (a.Issue? || a.Invalidate? || a.Purge? || a.Confirm? || a.Restore?)
    ensures Inv(Do(s, a))
  {
    RunsStaySound(s, Do(s, a));
  }

  /** A run that moved is sound if its own phase is; the other runs stay as they were. */
  lemma OneRunMoved(s: State, t: State, run: int, moved: Run)
    requires Inv(s) && s.recorded <= t.recorded && s.issued <= t.issued
    requires t.runs == s.runs[run := moved] && RunSound(t, moved)
    ensures forall r :: r in t.runs ==> RunSound(t, t.runs[r])
  {
    RunsStaySound(s, t);
  }

  /** Steps of a run that write no row. */
  lemma LookingStepKeepsInv(s: State, a: Action)
    requires Inv(s) && Enabled(s, a) && (a.Begin? || a.SelectBefore? || a.Send? || a.SelectAfter? || a.Fail?)
    ensures Inv(Do(s, a))
  {
    var t := Do(s, a);
    if !a.Begin? { assert RunSound(s, s.runs[a.run]); }
    OneRunMoved(s, t, a.run, t.runs[a.run]);
  }

  lemma WritingStepKeepsInv(s: State, a: Action)
    requires Inv(s) && Enabled(s, a) && (a.RecordDelivery? || a.Activate?)
    ensures Inv(Do(s, a))
  {
    var t := Do(s, a);
    assert RunSound(s, s.runs[a.run]);
    OneRunMoved(s, t, a.run, t.runs[a.run]);
  }

  lemma RunStepKeepsInv(s: State, a: Action)
    requires Inv(s) && Enabled(s, a) && !(a.Issue? || a.Invalidate? || a.Purge? || a.Confirm? || a.Restore?)
    ensures Inv(Do(s, a))
  {
    if a.RecordDelivery? || a.Activate? { WritingStepKeepsInv(s, a); } else { LookingStepKeepsInv(s, a); }
  }

  lemma StepKeepsInv(s: State, a: Action)
    requires Inv(s) && Enabled(s, a)
    ensures Inv(Do(s, a))
  {
    if a.Issue? || a.Invalidate? || a.Purge? || a.Confirm? || a.Restore? { SystemStepKeepsInv(s, a); } else { RunStepKeepsInv(s, a); }
  }

  /** One action never takes a delivery time off a row that is there before and after. */
  lemma DeliveryIsNeverCleared(s: State, a: Action, hash: string)
    requires Inv(s) && Enabled(s, a)
    requires hash in s.rows && s.rows[hash].deliveredAt.Some? && hash in Do(s, a).rows
    ensures Do(s, a).rows[hash].deliveredAt.Some?
  {
    StepKeepsInv(s, a);
  }

  /** Nor does any run of calls, deletions and late writes included: a hash once recorded never has a row without a delivery time again. */
  lemma {:induction false} RecordedStaysDelivered(s: State, actions: seq<Action>, hash: string)
    requires Inv(s) && Trace(s, actions) && hash in s.recorded
    ensures hash in After(s, actions).recorded
    ensures hash in After(s, actions).rows ==> After(s, actions).rows[hash].deliveredAt.Some?
    decreases |actions|
  {
    if actions != [] {
      StepKeepsInv(s, actions[0]);
      RecordedStaysDelivered(Do(s, actions[0]), actions[1..], hash);
    }
  }

  /** A run is about to mail exactly when its look found no row, or a row without a delivery time. */
  lemma SendsIff(s: State, run: int)
    requires Inv(s) && Enabled(s, SelectBefore(run))
    ensures var t := Do(s, SelectBefore(run));
            var hash := s.runs[run].hash;
            && (t.runs[run].phase.Sending? <==> hash !in s.rows || s.rows[hash].deliveredAt.None?)
            && (hash in s.recorded ==> (t.runs[run].phase.Sending? <==> hash !in s.rows))
  {
  }

  /** A run goes on to activate exactly when its second look finds the row, consumed and not yet expired. */
  lemma ActivatesIff(s: State, run: int, now: int)
    requires Enabled(s, SelectAfter(run, now))
    ensures var hash := s.runs[run].hash;
            Do(s, SelectAfter(run, now)).runs[run].phase.Activating? <==> hash in s.rows && s.rows[hash].consumedAt.Some? && now < s.rows[hash].expiresAt
  {
  }

  /** Issuing leaves the user one row, the new one, consumed and undelivered; other users keep theirs. */
  lemma IssuedIsOnlyOne(s: State, user: int, hash: string, expiresAt: int, now: int)
    requires Enabled(s, Issue(user, hash, expiresAt, now))
    ensures var t := Do(s, Issue(user, hash, expiresAt, now));
            && (forall h :: h in t.rows && t.rows[h].user == user <==> h == hash)
            && t.rows[hash].expiresAt == expiresAt && t.rows[hash].consumedAt.Some? && t.rows[hash].deliveredAt.None?
            && forall h :: h != hash && h in s.rows && s.rows[h].user != user ==> h in t.rows && t.rows[h] == s.rows[h]
  {
  }

  /** A confirmation that is undone leaves the rows as they were, if nobody wrote or deleted the row between. */
  lemma RestoreUndoes(s: State, id: int, hash: string, now: int, later: State)
    requires Enabled(s, Confirm(id, hash, now))
    requires later.rows == Do(s, Confirm(id, hash, now)).rows && later.confirms == Do(s, Confirm(id, hash, now)).confirms
    ensures Enabled(later, Restore(id)) && Do(later, Restore(id)).rows == s.rows
  {
  }

  // Whole runs of the system.

  ghost predicate Trace(s: State, actions: seq<Action>)
    decreases |actions|
  {
    actions == [] || (Enabled(s, actions[0]) && Trace(Do(s, actions[0]), actions[1..]))
  }

  ghost function After(s: State, actions: seq<Action>): State
    requires Trace(s, actions)
    decreases |actions|
  {
    if actions == [] then s else After(Do(s, actions[0]), actions[1..])
  }

  lemma {:induction false} TraceKeepsInv(s: State, actions: seq<Action>)
    requires Inv(s) && Trace(s, actions)
    ensures Inv(After(s, actions))
    decreases |actions|
  {
    if actions != [] {
      StepKeepsInv(s, actions[0]);
      TraceKeepsInv(Do(s, actions[0]), actions[1..]);
    }
  }

  /** From the start, along any interleaving: a token that can be used has been mailed and has its delivery time. */
  lemma {:induction false} UsableWasDelivered(actions: seq<Action>, hash: string, now: int)
    requires Trace(EMPTY, actions) && hash in After(EMPTY, actions).rows
    ensures After(EMPTY, actions).rows[hash].consumedAt.None? ==> After(EMPTY, actions).rows[hash].deliveredAt.Some?
    ensures After(EMPTY, actions).rows[hash].IsUsable(now) ==> After(EMPTY, actions).rows[hash].deliveredAt.Some?
  {
    TraceKeepsInv(EMPTY, actions);
  }

  /** The two calls that make a consumed row usable: the handler's activation, and a failed confirmation putting its copy back. */
  predicate PutsBack(s: State, a: Action, hash: string)
    requires Enabled(s, a)
  {
    (a.Activate? && s.runs[a.run].hash == hash) || (a.Restore? && s.confirms[a.id].0 == hash)
  }

  ghost predicate NeverPutBack(s: State, actions: seq<Action>, hash: string)
    requires Trace(s, actions)
    decreases |actions|
  {
    actions != [] ==> !PutsBack(s, actions[0], hash) && NeverPutBack(Do(s, actions[0]), actions[1..], hash)
  }

  /** One use: a confirmation takes an unexpired, unconsumed row, and from then on, along every run that does not put it back,
      the token is never unconsumed again. */
  lemma {:induction false} ConfirmedIsUsedUp(s: State, id: int, hash: string, now: int, actions: seq<Action>)
    requires Inv(s) && Enabled(s, Confirm(id, hash, now))
    requires Trace(Do(s, Confirm(id, hash, now)), actions) && NeverPutBack(Do(s, Confirm(id, hash, now)), actions, hash)
    ensures s.rows[hash].consumedAt.None? && now < s.rows[hash].expiresAt
    ensures var t := After(Do(s, Confirm(id, hash, now)), actions); hash in t.rows ==> t.rows[hash].consumedAt.Some?
  {
    StepKeepsInv(s, Confirm(id, hash, now));
    StaysConsumed(Do(s, Confirm(id, hash, now)), actions, hash);
  }

  lemma {:induction false} StaysConsumed(s: State, actions: seq<Action>, hash: string)
    requires Inv(s) && hash in s.issued && (hash in s.rows ==> s.rows[hash].consumedAt.Some?)
    requires Trace(s, actions) && NeverPutBack(s, actions, hash)
    ensures hash in After(s, actions).rows ==> After(s, actions).rows[hash].consumedAt.Some?
    decreases |actions|
  {
    if actions != [] {
      StepKeepsInv(s, actions[0]);
      OneStepConsumed(s, actions[0], hash);
      StaysConsumed(Do(s, actions[0]), actions[1..], hash);
    }
  }

  lemma OneStepConsumed(s: State, a: Action, hash: string)
    requires Inv(s) && hash in s.issued && (hash in s.rows ==> s.rows[hash].consumedAt.Some?)
    requires Enabled(s, a) && !PutsBack(s, a, hash)
    ensures hash in Do(s, a).issued && (hash in Do(s, a).rows ==> Do(s, a).rows[hash].consumedAt.Some?)
  {
    if a.RecordDelivery? { assert RunSound(s, s.runs[a.run]); }
  }

  /** Nobody is between looking and recording for this hash. */
  ghost predicate NobodySends(s: State, hash: string) {
    forall r :: r in s.runs && s.runs[r].hash == hash ==> !s.runs[r].phase.Sending?
  }

  ghost predicate RowStays(s: State, actions: seq<Action>, hash: string)
    requires Trace(s, actions)
    decreases |actions|
  {
    hash in s.rows && (actions != [] ==> RowStays(Do(s, actions[0]), actions[1..], hash))
  }

  lemma MailsCount(mails: seq<string>, more: string, hash: string)
    requires more != hash
    ensures multiset(mails + [more])[hash] == multiset(mails)[hash]
  {
  }

  lemma QuietStep(s: State, a: Action, hash: string)
    requires Inv(s) && Enabled(s, a) && hash in s.recorded && hash in s.rows && NobodySends(s, hash)
    ensures NobodySends(Do(s, a), hash) && hash in Do(s, a).recorded
    ensures multiset(Do(s, a).mails)[hash] == multiset(s.mails)[hash]
  {
    if a.Send? { MailsCount(s.mails, s.runs[a.run].hash, hash); }
  }

  /** Once a delivery is recorded and nobody is halfway through sending, no redelivery mails again for as long as the row exists. */
  lemma {:induction false} NoMailWhileRowStays(s: State, actions: seq<Action>, hash: string)
    requires Inv(s) && Trace(s, actions) && RowStays(s, actions, hash)
    requires hash in s.recorded && NobodySends(s, hash)
    ensures multiset(After(s, actions).mails)[hash] == multiset(s.mails)[hash]
    decreases |actions|
  {
    if actions != [] {
      QuietStep(s, actions[0], hash);
      StepKeepsInv(s, actions[0]);
      NoMailWhileRowStays(Do(s, actions[0]), actions[1..], hash);
    }
  }

  /** Without the row the promise fails: after an invalidation the redelivered request is mailed a second time. */
  lemma {:induction false} MailsAgainAfterInvalidation(s: State, hash: string, user: int, run: int)
    requires Inv(s) && hash in s.recorded && hash in s.rows && s.rows[hash].user == user && run !in s.runs
    ensures Trace(s, [Invalidate(user), Begin(run, hash), SelectBefore(run), Send(run)])
    ensures multiset(After(s, [Invalidate(user), Begin(run, hash), SelectBefore(run), Send(run)]).mails)[hash] == multiset(s.mails)[hash] + 1
  {
    var s1 := Do(s, Invalidate(user));
    Two(s, Invalidate(user), Begin(run, hash));
    var s2 := After(s, [Invalidate(user), Begin(run, hash)]);
    Two(s2, SelectBefore(run), Send(run));
    Concatenate(s, [Invalidate(user), Begin(run, hash)], [SelectBefore(run), Send(run)]);
    assert [Invalidate(user), Begin(run, hash)] + [SelectBefore(run), Send(run)] == [Invalidate(user), Begin(run, hash), SelectBefore(run), Send(run)];
  }

  lemma Prepend(s: State, a: Action, rest: seq<Action>)
    requires Enabled(s, a) && Trace(Do(s, a), rest)
    ensures Trace(s, [a] + rest) && After(s, [a] + rest) == After(Do(s, a), rest)
  {
    assert ([a] + rest)[1..] == rest;
  }

  lemma {:induction false} Concatenate(s: State, first: seq<Action>, second: seq<Action>)
    requires Trace(s, first) && Trace(After(s, first), second)
    ensures Trace(s, first + second) && After(s, first + second) == After(After(s, first), second)
    decreases |first|
  {
    if first == [] {
      assert first + second == second;
    } else {
      Concatenate(Do(s, first[0]), first[1..], second);
      Prepend(s, first[0], first[1..] + second);
      assert first + second == [first[0]] + (first[1..] + second);
    }
  }

  lemma Two(s: State, a: Action, b: Action)
    requires Enabled(s, a) && Enabled(Do(s, a), b)
    ensures Trace(s, [a, b]) && After(s, [a, b]) == Do(Do(s, a), b)
  {
    Prepend(Do(s, a), b, []);
    Prepend(s, a, [b]);
    assert [b] + [] == [b] && [a] + [b] == [a, b];
  }

  lemma LooksAt(s: State, hash: string, run: int)
    requires Inv(s) && hash in s.rows && s.rows[hash].deliveredAt.None? && run !in s.runs
    ensures Trace(s, [Begin(run, hash), SelectBefore(run)])
    ensures After(s, [Begin(run, hash), SelectBefore(run)]) == s.(runs := s.runs[run := Run(hash, Sending(Some(s.rows[hash])))])
  {
    Two(s, Begin(run, hash), SelectBefore(run));
  }

  lemma MailsAndRecords(s: State, hash: string, run: int, copy: Token, now: int)
    requires run in s.runs && s.runs[run] == Run(hash, Sending(Some(copy)))
    ensures Trace(s, [Send(run), RecordDelivery(run, now)])
    ensures After(s, [Send(run), RecordDelivery(run, now)]) == State(s.rows[hash := copy.(deliveredAt := Some(now))],
      s.runs[run := Run(hash, Delivered)], s.confirms, s.mails + [hash], s.issued, s.recorded + {hash})
  {
    Two(s, Send(run), RecordDelivery(run, now));
  }

  lemma Activates(s: State, hash: string, run: int, now: int)
    requires run in s.runs && s.runs[run] == Run(hash, Delivered)
    requires hash in s.rows && s.rows[hash].IsConsumed() && !s.rows[hash].IsExpired(now)
    ensures Trace(s, [SelectAfter(run, now), Activate(run)])
    ensures After(s, [SelectAfter(run, now), Activate(run)]) ==
      s.(rows := s.rows[hash := s.rows[hash].(consumedAt := None)], runs := s.runs[run := Run(hash, Done)])
  {
    Two(s, SelectAfter(run, now), Activate(run));
  }

  function Delivery(run: int, hash: string, now: int): seq<Action> {
    [Begin(run, hash), SelectBefore(run)] + ([Send(run), RecordDelivery(run, now)] + [SelectAfter(run, now), Activate(run)])
  }

  /** One undisturbed delivery of a fresh token: one mail, a delivery time, and a token that can be used until it expires. */
  lemma {:induction false} DeliveryMakesUsable(s: State, hash: string, run: int, now: int)
    requires Inv(s) && hash in s.rows && s.rows[hash].consumedAt.Some? && s.rows[hash].deliveredAt.None? && run !in s.runs
    requires now < s.rows[hash].expiresAt
    ensures Trace(s, Delivery(run, hash, now))
    ensures var t := After(s, Delivery(run, hash, now));
            t.mails == s.mails + [hash] && t.rows == s.rows[hash := s.rows[hash].(consumedAt := None, deliveredAt := Some(now))] && t.rows[hash].IsUsable(now)
  {
    LooksAt(s, hash, run);
    var s2 := After(s, [Begin(run, hash), SelectBefore(run)]);
    MailsAndRecords(s2, hash, run, s.rows[hash], now);
    var s4 := After(s2, [Send(run), RecordDelivery(run, now)]);
    Activates(s4, hash, run, now);
    Concatenate(s2, [Send(run), RecordDelivery(run, now)], [SelectAfter(run, now), Activate(run)]);
    Concatenate(s, [Begin(run, hash), SelectBefore(run)], [Send(run), RecordDelivery(run, now)] + [SelectAfter(run, now), Activate(run)]);
  }

  predicate ActsFor(a: Action, run: int) {
    match a
    case Begin(r, _) => r == run
    case SelectBefore(r) => r == run
    case Send(r) => r == run
    case RecordDelivery(r, _) => r == run
    case SelectAfter(r, _) => r == run
    case Activate(r) => r == run
    case Fail(r) => r == run
    case _ => false
  }

  lemma {:induction false} TraceOnce(s: State, before: seq<Action>, a: Action)
    requires Trace(s, before) && Enabled(After(s, before), a)
    ensures Trace(s, before + [a]) && After(s, before + [a]) == Do(After(s, before), a)
  {
    var t := After(s, before);
    assert Trace(Do(t, a), []);
    assert [a][1..] == [];
    assert Trace(t, [a]) && After(t, [a]) == Do(t, a);
    Concatenate(s, before, [a]);
  }

  /** The action is among those from the n-th on. */
  ghost predicate DidSince(history: seq<Action>, n: nat, a: Action) { exists i :: n <= i < |history| && history[i] == a }

  lemma DidNext(history: seq<Action>, a: Action)
    ensures forall n: nat, b :: n <= |history| ==> (DidSince(history + [a], n, b) <==> DidSince(history, n, b) || a == b)
  {
    forall n: nat, b | n <= |history| ensures DidSince(history + [a], n, b) <==> DidSince(history, n, b) || a == b {
      if DidSince(history, n, b) {
        var i :| n <= i < |history| && history[i] == b;
        assert (history + [a])[i] == b;
      }
      assert (history + [a])[|history|] == a;
    }
  }

  /** The handler as it runs, with everybody else active between any two of its calls. */
  class MailDeliveryHandler {
    var s: State
    /** Every call so far, in order: an interleaving that leads from the start to the present state. */
    ghost var history: seq<Action>

    ghost predicate Valid()
      reads this
    {
      Inv(s) && Trace(EMPTY, history) && After(EMPTY, history) == s
    }

    constructor ()
      ensures s == EMPTY && history == [] && Valid()
    {
      s, history := EMPTY, [];
    }

    method Act(a: Action)
      requires Valid() && Enabled(s, a)
      modifies this
      ensures Valid() && s == Do(old(s), a) && history == old(history) + [a]
      ensures forall n: nat, b :: n <= |old(history)| ==> (DidSince(history, n, b) <==> DidSince(old(history), n, b) || a == b)
    {
      StepKeepsInv(s, a);
      TraceOnce(EMPTY, history, a);
      DidNext(history, a);
      s, history := Do(s, a), history + [a];
    }

    /** Any number of calls by others. */
    method Interfere(run: int)
      requires Valid()
      modifies this
      ensures Valid() && |old(history)| <= |history| && old(s).recorded <= s.recorded
      ensures run in old(s).runs <==> run in s.runs
      ensures run in s.runs ==> s.runs[run] == old(s).runs[run]
      ensures forall n: nat, b :: n <= |old(history)| && ActsFor(b, run) ==> (DidSince(history, n, b) <==> DidSince(old(history), n, b))
    {
      var k: int := *;
      for i := 0 to if k > 0 then k else 0
        invariant Valid() && |old(history)| <= |history| && old(s).recorded <= s.recorded
        invariant run in old(s).runs <==> run in s.runs
        invariant run in s.runs ==> s.runs[run] == old(s).runs[run]
        invariant forall n: nat, b :: n <= |old(history)| && ActsFor(b, run) ==> (DidSince(history, n, b) <==> DidSince(old(history), n, b))
      {
        var a: Action := *;
        if Enabled(s, a) && !ActsFor(a, run) { Act(a); }
      }
    }

    method CallFails() returns (failed: bool)
    {
      failed := *;
    }

    /** Gives up after a failed call. */
    method Stop(run: int)
      requires Valid() && run in s.runs
      modifies this
      ensures Valid() && |old(history)| <= |history|
      ensures run in s.runs && s.runs[run] == Run(old(s).runs[run].hash, Done)
      ensures forall n: nat, b: Action :: n <= |old(history)| && !b.Fail? ==> (DidSince(history, n, b) <==> DidSince(old(history), n, b))
    {
      Act(Fail(run));
    }

    /** The first look. */
    method Look(run: int, hash: string) returns (r: Result<()>, ghost found: Option<Token>)
      requires Valid() && Enabled(s, Begin(run, hash))
      modifies this
      ensures Valid() && run in s.runs && s.runs[run].hash == hash && |old(history)| <= |history|
      ensures r.Err? ==> s.runs[run].phase == Done
      ensures r.Ok? ==> s.runs[run].phase == if found.None? || found.value.deliveredAt.None? then Sending(found) else Delivered
      ensures hash in old(s).recorded && found.Some? ==> found.value.deliveredAt.Some?
      ensures !DidSince(history, |old(history)|, Send(run))
    {
      found := None;
      Act(Begin(run, hash));
      Interfere(run);
      var failed := CallFails();
      if failed { Stop(run); return Err(RepositoryFailure), None; }
      found := Find(s, hash);
      Act(SelectBefore(run));
      Interfere(run);
      return Ok(()), found;
    }

    /** One delivery of one request.  `found` is the row at its first look; a mail goes out exactly when that look found
        no row or no delivery time and the run did not fail before, whatever others do meanwhile.  A mail for a row is
        recorded, and a run that ends well has looked again whether to activate. */
    method SendTokenMail(run: int, hash: string) returns (r: Result<()>, mailed: bool, ghost found: Option<Token>)
      requires Valid() && Enabled(s, Begin(run, hash))
      modifies this
      ensures Valid() && run in s.runs && s.runs[run] == Run(hash, Done)
      ensures mailed <==> DidSince(history, |old(history)|, Send(run))
      ensures mailed ==> found.None? || found.value.deliveredAt.None?
      ensures r.Ok? && (found.None? || found.value.deliveredAt.None?) ==> mailed
      ensures hash in old(s).recorded && found.Some? ==> !mailed
      ensures r.Ok? && mailed && found.Some? ==> exists now :: DidSince(history, |old(history)|, RecordDelivery(run, now))
      ensures r.Ok? && found.Some? ==> exists now :: DidSince(history, |old(history)|, SelectAfter(run, now))
    {
      mailed := false;
      r, found := Look(run, hash);
      if r.Err? { return r, false, found; }
      if s.runs[run].phase.Sending? {
        var failed := CallFails();
        if failed { Stop(run); return Err(RepositoryFailure), false, found; }
        r, mailed := MailAndRecord(run, |old(history)|);
        if r.Err? || s.runs[run].phase.Done? { return r, mailed, found; }
      }
      r := ActivateToken(run, |old(history)|);
    }

    method MailAndRecord(run: int, ghost from: nat) returns (r: Result<()>, mailed: bool)
      requires Valid() && run in s.runs && s.runs[run].phase.Sending? && from <= |history|
      modifies this
      ensures Valid() && run in s.runs && s.runs[run].hash == old(s).runs[run].hash && from <= |history| && mailed
      ensures DidSince(history, from, Send(run))
      ensures r.Ok? ==> s.runs[run].phase == if old(s).runs[run].phase.copy.None? then Done else Delivered
      ensures r.Ok? && old(s).runs[run].phase.copy.Some? ==> exists now :: DidSince(history, from, RecordDelivery(run, now))
      ensures r.Err? ==> s.runs[run].phase.Done?
    {
      Act(Send(run));
      mailed := true;
      Interfere(run);
      if s.runs[run].phase.Done? { return Ok(()), true; }
      var failed := CallFails();
      if failed { Stop(run); return Err(RepositoryFailure), true; }
      var now: int := *;
      Act(RecordDelivery(run, now));
      Interfere(run);
      assert DidSince(history, from, RecordDelivery(run, now));
      return Ok(()), true;
    }

    method ActivateToken(run: int, ghost from: nat) returns (r: Result<()>)
      requires Valid() && run in s.runs && s.runs[run].phase.Delivered? && from <= |history|
      modifies this
      ensures Valid() && run in s.runs && s.runs[run] == Run(old(s).runs[run].hash, Done)
      ensures DidSince(history, from, Send(run)) <==> DidSince(old(history), from, Send(run))
      ensures forall now :: DidSince(old(history), from, RecordDelivery(run, now)) ==> DidSince(history, from, RecordDelivery(run, now))
      ensures r.Ok? ==> exists now :: DidSince(history, from, SelectAfter(run, now))
    {
      var failed := CallFails();
      if failed { Stop(run); return Err(RepositoryFailure); }
      ghost var now := LookAgain(run);
      assert DidSince(history, from, SelectAfter(run, now));
      if s.runs[run].phase.Done? { return Ok(()); }
      failed := CallFails();
      if failed { Stop(run); return Err(RepositoryFailure); }
      Switch(run);
      assert DidSince(history, from, SelectAfter(run, now));
      return Ok(());
    }

    method LookAgain(run: int) returns (ghost now: int)
      requires Valid() && run in s.runs && s.runs[run].phase.Delivered?
      modifies this
      ensures Valid() && |old(history)| <= |history|
      ensures run in s.runs && s.runs[run].hash == old(s).runs[run].hash && (s.runs[run].phase.Done? || s.runs[run].phase.Activating?)
      ensures forall n: nat, b :: n <= |old(history)| && ActsFor(b, run) ==>
        (DidSince(history, n, b) <==> DidSince(old(history), n, b) || b == SelectAfter(run, now))
    {
      var t: int := *;
      now := t;
      Act(SelectAfter(run, t));
      Interfere(run);
    }

    method Switch(run: int)
      requires Valid() && run in s.runs && s.runs[run].phase.Activating?
      modifies this
      ensures Valid() && |old(history)| <= |history|
      ensures run in s.runs && s.runs[run] == Run(old(s).runs[run].hash, Done)
      ensures forall n: nat, b: Action :: n <= |old(history)| && !b.Activate? ==> (DidSince(history, n, b) <==> DidSince(old(history), n, b))
    {
      Act(Activate(run));
    }
  }
}
