/** Whole histories of one approval store: what any sequence of its operations keeps. */
module WaitHistory {
  import opened Outcomes
  import opened StoreKeys
  import opened ApprovalRecord
  import opened WaitRules

  /** One operation with its arguments; instants are the ones its caller or the clock gave. */
  datatype Op =
    | Opens(a: Approval)
    | OpensIfAbsent(a: Approval, now: int)
    | Publishes(k: Key)
    | Abandons(k: Key)
    | Resolves(k: Key, person: string, verdict: Verdict, reason: Option<string>, now: int)
    | Claims(k: Key)
    | Releases(k: Key)
    | Consumes(k: Key, now: int)
    | Expires(now: int)
    | Forgets(now: int)

  function Apply(w: Waits, op: Op): (r: Waits)
    requires Consistent(w)
  {
    match op
    case Opens(a) => Open(w, a).waits
    case OpensIfAbsent(a, now) => OpenIfAbsent(w, a, now).waits
    case Publishes(k) => Publish(w, k).waits
    case Abandons(k) => Abandon(w, k).waits
    case Resolves(k, person, verdict, reason, now) => Resolve(w, k, person, verdict, reason, now).waits
    case Claims(k) => Claim(w, k).waits
    case Releases(k) => ReleaseClaim(w, k).waits
    case Consumes(k, now) => Consume(w, k, now).waits
    case Expires(now) => ExpirePast(w, now)
    case Forgets(now) => ForgetLapsed(w, now)
  }

  predicate Rewrites(op: Op) { op.Publishes? || op.Resolves? || op.Claims? || op.Releases? || op.Consumes? }

  /** An operation on one record rewrites that record under its key and question, or nothing. */
  lemma RewritesOne(w: Waits, op: Op)
    requires Consistent(w) && Rewrites(op)
    ensures var v := Apply(w, op);
      v == w || (op.k in w.byRef && op.k in v.byRef && KeyOf(v.byRef[op.k]) == op.k
                 && v.byRef[op.k].question == w.byRef[op.k].question && v == Rewritten(w, op.k, v.byRef[op.k]))
  {
  }

  lemma AbandonConsistent(w: Waits, k: Key)
    requires Consistent(w)
    ensures Consistent(Abandon(w, k).waits)
  {
    if k in w.byRef {
      DroppedIsAllDropped(w, k);
      AllDroppedConsistent(w, {k});
    }
  }

  /** Every operation keeps the two indexes in exact agreement: same references, no
      duplicates, no empty list. */
  lemma ApplyConsistent(w: Waits, op: Op)
    requires Consistent(w)
    ensures Consistent(Apply(w, op))
  {
    if Rewrites(op) {
      RewritesOne(w, op);
      if Apply(w, op) != w { RewrittenConsistent(w, op.k, Apply(w, op).byRef[op.k]); }
    } else {
      match op {
        case Opens(a) => OpenConsistent(w, a);
        case OpensIfAbsent(a, now) => OpenConsistent(w, a);
        case Abandons(k) => AbandonConsistent(w, k);
        case Expires(now) => SweepConsistent(w, now);
        case Forgets(now) => SweepConsistent(w, now);
        case _ =>
      }
    }
  }

  lemma OpenConsistent(w: Waits, a: Approval)
    requires Consistent(w)
    ensures Consistent(Open(w, a).waits)
  {
    if KeyOf(a) !in w.byRef {
      KeptConsistent(w, a);
    }
  }

  ghost function Run(w: Waits, ops: seq<Op>): Waits
    requires Consistent(w)
    decreases |ops|
  {
    if ops == [] then w
    else
      ApplyConsistent(w, ops[0]);
      Run(Apply(w, ops[0]), ops[1..])
  }

  lemma {:induction false} RunConsistent(w: Waits, ops: seq<Op>)
    requires Consistent(w)
    ensures Consistent(Run(w, ops))
    decreases |ops|
  {
    if ops != [] {
      ApplyConsistent(w, ops[0]);
      RunConsistent(Apply(w, ops[0]), ops[1..]);
    }
  }

  // -- retention -----------------------------------------------------------------

  lemma DropsOne(w: Waits, k: Key)
    requires Consistent(w) && k in w.byRef
    ensures Dropped(w, k, w.byRef[k].question).byRef == w.byRef - {k}
  {
  }

  /** The only two ways out of the store: the opening ask withdrawing a wait nobody was
      told about, and a sweep at or after the record's lapse instant. */
  lemma OnlyTwoWaysOut(w: Waits, op: Op, k: Key)
    requires Consistent(w) && k in w.byRef
    ensures k !in Apply(w, op).byRef <==>
      || (op == Abandons(k) && w.byRef[k].state == Pending && !w.byRef[k].published)
      || (op.Forgets? && OfNoFurtherUse(w.byRef[k], op.now))
  {
    match op {
      case Abandons(k') =>
        if k' in w.byRef {
          DropsOne(w, k');
        }
      case _ =>
    }
  }

  /** Equal but for the claim on it. */
  predicate SameAct(a: Record, b: Record) {
    a.(claimed := false) == b.(claimed := false)
  }

  /** What rewrites no record leaves each closed one it keeps as it is. */
  lemma OthersLeaveClosedRecords(w: Waits, op: Op, k: Key)
    requires Consistent(w) && k in w.byRef && w.byRef[k].state != Pending && !Rewrites(op) && k in Apply(w, op).byRef
    ensures Apply(w, op).byRef[k] == w.byRef[k]
  {
    if op.Abandons? && op.k in w.byRef {
      DropsOne(w, op.k);
    }
  }

  lemma ClaimsKeepUnspentAct(w: Waits, op: Op)
    requires Consistent(w) && Rewrites(op) && !op.Consumes?
    requires op.k in w.byRef && w.byRef[op.k].state == Approved && !w.byRef[op.k].consumed
    ensures op.k in Apply(w, op).byRef && SameAct(Apply(w, op).byRef[op.k], w.byRef[op.k])
  {
  }

  lemma RewritesKeepUnspentAct(w: Waits, op: Op, k: Key)
    requires Consistent(w) && k in w.byRef && w.byRef[k].state == Approved && !w.byRef[k].consumed
    requires Rewrites(op) && !(op.Consumes? && op.k == k)
    ensures k in Apply(w, op).byRef && SameAct(Apply(w, op).byRef[k], w.byRef[k])
  {
    if op.k == k {
      ClaimsKeepUnspentAct(w, op);
    } else {
      RewritesOne(w, op);
    }
  }

  lemma StepKeepsUnspentAct(w: Waits, op: Op, k: Key)
    requires Consistent(w) && k in w.byRef && w.byRef[k].state == Approved && !w.byRef[k].consumed
    requires !(op.Consumes? && op.k == k)
    ensures k in Apply(w, op).byRef && SameAct(Apply(w, op).byRef[k], w.byRef[k])
  {
    OnlyTwoWaysOut(w, op, k);
    if Rewrites(op) {
      RewritesKeepUnspentAct(w, op, k);
    } else {
      OthersLeaveClosedRecords(w, op, k);
    }
  }

  /** While no operation consumes it, an approved record outlives every history, sweeps of any
      instant included. */
  lemma {:induction false} UnspentActIsNeverDropped(w: Waits, ops: seq<Op>, k: Key)
    requires Consistent(w) && k in w.byRef && w.byRef[k].state == Approved && !w.byRef[k].consumed
    requires forall op :: op in ops ==> !(op.Consumes? && op.k == k)
    ensures k in Run(w, ops).byRef && SameAct(Run(w, ops).byRef[k], w.byRef[k])
    decreases |ops|
  {
    if ops != [] {
      assert ops[0] in ops;
      ApplyConsistent(w, ops[0]);
      StepKeepsUnspentAct(w, ops[0], k);
      UnspentActIsNeverDropped(Apply(w, ops[0]), ops[1..], k);
    }
  }

  /** The date from which a record is only kept to be read. */
  ghost predicate EndedAt(a: Approval, end: int) {
    if a.consumed then a.consumedAt == Some(end)
    else if a.state == Rejected then a.resolvedAt == Some(end)
    else a.state == Expired && a.deadline == end
  }

  lemma StepKeepsEnded(w: Waits, op: Op, k: Key, end: int)
    requires Consistent(w) && k in w.byRef && EndedAt(w.byRef[k], end)
    requires op.Forgets? ==> op.now < end + (w.byRef[k].deadline - w.byRef[k].requestedAt)
    ensures k in Apply(w, op).byRef && Apply(w, op).byRef[k] == w.byRef[k]
  {
    OnlyTwoWaysOut(w, op, k);
    if !Rewrites(op) {
      OthersLeaveClosedRecords(w, op, k);
    }
  }

  /** A rejected, expired or spent record reads unchanged under every history whose sweeps
      come earlier than one wait-length after its act, its deadline or its spend. */
  lemma {:induction false} EndedRecordStaysReadable(w: Waits, ops: seq<Op>, k: Key, end: int)
    requires Consistent(w) && k in w.byRef && EndedAt(w.byRef[k], end)
    requires forall op :: op in ops && op.Forgets? ==>
      op.now < end + (w.byRef[k].deadline - w.byRef[k].requestedAt)
    ensures k in Run(w, ops).byRef && Run(w, ops).byRef[k] == w.byRef[k]
    decreases |ops|
  {
    if ops != [] {
      assert ops[0] in ops;
      ApplyConsistent(w, ops[0]);
      StepKeepsEnded(w, ops[0], k, end);
      EndedRecordStaysReadable(Apply(w, ops[0]), ops[1..], k, end);
    }
  }

  /** And the first sweep at or after that instant drops it: the growth is bounded. */
  lemma EndedRecordIsForgotten(w: Waits, k: Key, end: int, now: int)
    requires Consistent(w) && k in w.byRef && EndedAt(w.byRef[k], end)
    ensures k !in ForgetLapsed(w, now).byRef
        <==> now >= end + (w.byRef[k].deadline - w.byRef[k].requestedAt)
  {
    OnlyTwoWaysOut(w, Forgets(now), k);
  }

  /** Expiring and then forgetting at one instant leaves nothing overdue and nothing lapsed,
      and doing both again at that instant changes nothing. */
  lemma SweepSettles(w: Waits, now: int)
    requires Consistent(w)
    ensures var s := ForgetLapsed(ExpirePast(w, now), now);
      && (forall k :: k in s.byRef ==> !RanOut(s.byRef[k], now) && !OfNoFurtherUse(s.byRef[k], now))
      && ForgetLapsed(ExpirePast(s, now), now) == s
  {
    SweepConsistent(w, now);
    var e := ExpirePast(w, now);
    SweepConsistent(e, now);
    SettledIsUnchanged(ForgetLapsed(e, now), now);
  }

  lemma SettledIsUnchanged(s: Waits, now: int)
    requires Consistent(s)
    requires forall k :: k in s.byRef ==> !RanOut(s.byRef[k], now) && !OfNoFurtherUse(s.byRef[k], now)
    ensures ForgetLapsed(ExpirePast(s, now), now) == s
  {
    assert ExpirePast(s, now).byRef == s.byRef;
    assert OfNoUseAt(s, now) == {};
    AllDroppedNone(s);
  }

  // -- at most one live wait ----------------------------------------------------------

  /** An operation, and what the store's clock reads when it takes the lock. */
  datatype Moment = Moment(clock: int, op: Op)

  ghost predicate AtMostOneLive(w: Waits, now: int) {
    forall j, k ::
      (&& j in w.byRef
       && k in w.byRef
       && w.byRef[j].question == w.byRef[k].question
       && Live(w.byRef[j], now)
       && Live(w.byRef[k], now)) ==> j == k
  }

  /** Waits are opened only through `open_if_absent`, which reads the clock under the lock.
      An act is dated by a clock read before the lock is taken, so it may be earlier. */
  predicate Permitted(m: Moment) {
    match m.op
    case Opens(_) => false
    case OpensIfAbsent(_, now) => now == m.clock
    case Resolves(_, _, _, _, now) => now <= m.clock
    case _ => true
  }

  /** An act whose date is inside the wait although the wait has run out by the clock. */
  predicate Overtaken(w: Waits, m: Moment) {
    && m.op.Resolves?
    && m.op.k in w.byRef
    && w.byRef[m.op.k].state == Pending
    && m.op.now < w.byRef[m.op.k].deadline <= m.clock
  }

  /** What construction still refuses about such an act: an unnamed person, or a date
      before the wait was requested. */
  predicate Admissible(w: Waits, m: Moment)
    requires m.op.Resolves? && m.op.k in w.byRef
  {
    m.op.person != "" && w.byRef[m.op.k].requestedAt <= m.op.now
  }

  /** Another live wait of the question this act answers. */
  ghost predicate HasRival(w: Waits, m: Moment, j: Key)
    requires m.op.Resolves? && m.op.k in w.byRef
  {
    && j in w.byRef
    && j != m.op.k
    && w.byRef[j].question == w.byRef[m.op.k].question
    && Live(w.byRef[j], m.clock)
  }

  lemma LiveOnlyEarlier(a: Approval, c: int, later: int)
    requires c <= later && Live(a, later)
    ensures Live(a, c)
  {
  }

  /** The condition under which a record that is not live becomes live. */
  predicate Revives(w: Waits, m: Moment, k: Key)
    requires k in w.byRef
  {
    m.op.Resolves? && m.op.k == k && m.op.verdict == Approve && Overtaken(w, m) && Admissible(w, m)
  }

  lemma RevivedByRewriting(w: Waits, m: Moment, k: Key)
    requires Consistent(w) && Permitted(m) && k in w.byRef && !Live(w.byRef[k], m.clock)
    requires Rewrites(m.op) && k in Apply(w, m.op).byRef
    ensures Live(Apply(w, m.op).byRef[k], m.clock) <==> Revives(w, m, k)
  {
  }

  lemma NotRevivedOtherwise(w: Waits, m: Moment, k: Key)
    requires Consistent(w) && Permitted(m) && k in w.byRef && !Live(w.byRef[k], m.clock)
    requires !Rewrites(m.op) && k in Apply(w, m.op).byRef
    ensures !Live(Apply(w, m.op).byRef[k], m.clock)
  {
    if m.op.Abandons? && m.op.k in w.byRef {
      DropsOne(w, m.op.k);
    }
  }

  /** A record that is not live becomes live in exactly one way: an approval dated before
      its deadline and applied after it. */
  lemma RevivedExactlyByAnOvertakenApproval(w: Waits, m: Moment, k: Key)
    requires Consistent(w) && Permitted(m) && k in w.byRef && !Live(w.byRef[k], m.clock)
    requires k in Apply(w, m.op).byRef
    ensures Live(Apply(w, m.op).byRef[k], m.clock) <==>
      m.op.Resolves? && m.op.k == k && m.op.verdict == Approve && Overtaken(w, m) && Admissible(w, m)
  {
    if Rewrites(m.op) {
      RevivedByRewriting(w, m, k);
    } else {
      NotRevivedOtherwise(w, m, k);
    }
  }

  /** A record new to the store was opened because its question had no live one. */
  lemma NewRecordFoundNoneLive(w: Waits, m: Moment, k: Key)
    requires Consistent(w) && Permitted(m) && k !in w.byRef && k in Apply(w, m.op).byRef
    ensures m.op.OpensIfAbsent? && KeyOf(m.op.a) == k && Apply(w, m.op).byRef[k] == m.op.a
    ensures Apply(w, m.op).byRef == w.byRef[k := m.op.a]
    ensures forall j :: j in w.byRef && w.byRef[j].question == m.op.a.question ==> !Live(w.byRef[j], m.clock)
  {
    match m.op {
      case OpensIfAbsent(a, now) =>
        NewestIsLastOpened(w.byRef, References(w, a.question), now, true);
      case Abandons(j) =>
        if j in w.byRef {
          DropsOne(w, j);
        }
      case _ =>
    }
  }

  /** One operation keeps « at most one live wait per question » exactly when it is not an
      overtaken approval over a question that has another live wait. */
  lemma OneLiveKeptExactly(w: Waits, m: Moment)
    requires Consistent(w) && Permitted(m) && AtMostOneLive(w, m.clock)
    ensures AtMostOneLive(Apply(w, m.op), m.clock) <==>
      !(Overtaken(w, m) && m.op.verdict == Approve && Admissible(w, m) && exists j :: HasRival(w, m, j))
  {
    var v := Apply(w, m.op);
    if Overtaken(w, m) && m.op.verdict == Approve && Admissible(w, m) && exists j :: HasRival(w, m, j) {
      var j :| HasRival(w, m, j);
      RevivedExactlyByAnOvertakenApproval(w, m, m.op.k);
      assert v.byRef[j] == w.byRef[j];
    } else {
      forall j, k | j in v.byRef && k in v.byRef && v.byRef[j].question == v.byRef[k].question
        && Live(v.byRef[j], m.clock) && Live(v.byRef[k], m.clock)
        ensures j == k
      {
        if j != k {
          LiveCameFrom(w, m, j, k);
        }
      }
    }
  }

  /** Two live records after an operation were live before it, unless one was revived. */
  lemma LiveCameFrom(w: Waits, m: Moment, j: Key, k: Key)
    requires Consistent(w) && Permitted(m) && AtMostOneLive(w, m.clock) && j != k
    requires var v := Apply(w, m.op);
      j in v.byRef && k in v.byRef && v.byRef[j].question == v.byRef[k].question
      && Live(v.byRef[j], m.clock) && Live(v.byRef[k], m.clock)
    ensures Overtaken(w, m) && m.op.verdict == Approve && Admissible(w, m)
    ensures exists i :: HasRival(w, m, i)
  {
    if j in w.byRef { SameQuestion(w, m, j); } else { NewRecordFoundNoneLive(w, m, j); }
    if k in w.byRef { SameQuestion(w, m, k); } else { NewRecordFoundNoneLive(w, m, k); }
    if j !in w.byRef || k !in w.byRef {
    } else if !Live(w.byRef[j], m.clock) {
      RevivedExactlyByAnOvertakenApproval(w, m, j);
      assert HasRival(w, m, k);
    } else if !Live(w.byRef[k], m.clock) {
      RevivedExactlyByAnOvertakenApproval(w, m, k);
      assert HasRival(w, m, j);
    }
  }

  lemma SameQuestion(w: Waits, m: Moment, k: Key)
    requires Consistent(w) && k in w.byRef && k in Apply(w, m.op).byRef
    ensures Apply(w, m.op).byRef[k].question == w.byRef[k].question
  {
    if Rewrites(m.op) {
      RewritesOne(w, m.op);
    } else if m.op.Abandons? && m.op.k in w.byRef {
      DropsOne(w, m.op.k);
    }
  }

  /** A history under a clock that never runs backwards. */
  ghost predicate Forward(since: int, ms: seq<Moment>)
    decreases |ms|
  {
    ms != [] ==> since <= ms[0].clock && Permitted(ms[0]) && Forward(ms[0].clock, ms[1..])
  }

  /** An operation that revives a record beside a live one of its question. */
  ghost predicate LeavesTwo(w: Waits, m: Moment) {
    Overtaken(w, m) && m.op.verdict == Approve && Admissible(w, m) && exists j :: HasRival(w, m, j)
  }

  /** Some operation of the history does. */
  ghost predicate SomeLeavesTwo(w: Waits, ms: seq<Moment>)
    requires Consistent(w)
    decreases |ms|
  {
    ms != [] && (LeavesTwo(w, ms[0]) || (ApplyConsistent(w, ms[0].op); SomeLeavesTwo(Apply(w, ms[0].op), ms[1..])))
  }

  /** After every operation, each question has one live wait at most. */
  ghost predicate AlwaysOneLive(w: Waits, ms: seq<Moment>)
    requires Consistent(w)
    decreases |ms|
  {
    ms != [] ==>
      && AtMostOneLive(Apply(w, ms[0].op), ms[0].clock)
      && (ApplyConsistent(w, ms[0].op); AlwaysOneLive(Apply(w, ms[0].op), ms[1..]))
  }

  function Ops(ms: seq<Moment>): seq<Op> {
    if ms == [] then [] else [ms[0].op] + Ops(ms[1..])
  }

  /** Under a forward clock a history keeps at most one live wait per question throughout if and
      only if none of its operations is an admissible approval, dated inside its wait and applied
      after it, over a question with another live wait. */
  lemma {:induction false} OneLiveThroughoutExactly(w: Waits, since: int, ms: seq<Moment>)
    requires Consistent(w) && AtMostOneLive(w, since) && Forward(since, ms)
    ensures AlwaysOneLive(w, ms) <==> !SomeLeavesTwo(w, ms)
    decreases |ms|
  {
    if ms != [] {
      var m := ms[0];
      assert AtMostOneLive(w, m.clock);
      ApplyConsistent(w, m.op);
      OneLiveKeptExactly(w, m);
      if !LeavesTwo(w, m) {
        OneLiveThroughoutExactly(Apply(w, m.op), m.clock, ms[1..]);
      }
    }
  }

  /** So without such an operation, however long the history, its end has no two at any later
      instant. */
  lemma {:induction false} AtMostOneLiveForever(w: Waits, since: int, ms: seq<Moment>, now: int)
    requires Consistent(w) && AtMostOneLive(w, since) && Forward(since, ms) && !SomeLeavesTwo(w, ms)
    requires now >= (if ms == [] then since else ms[|ms| - 1].clock)
    ensures AtMostOneLive(Run(w, Ops(ms)), now)
    decreases |ms|
  {
    if ms != [] {
      var m := ms[0];
      assert AtMostOneLive(w, m.clock);
      ApplyConsistent(w, m.op);
      OneLiveKeptExactly(w, m);
      assert Ops(ms)[1..] == Ops(ms[1..]);
      AtMostOneLiveForever(Apply(w, m.op), m.clock, ms[1..], now);
    }
  }

  /** While the store keeps this record, some operation of the history revives it. */
  ghost predicate SomeRevives(w: Waits, ms: seq<Moment>, k: Key)
    requires Consistent(w)
    decreases |ms|
  {
    ms != [] && k in w.byRef
    && (Revives(w, ms[0], k) || (ApplyConsistent(w, ms[0].op); SomeRevives(Apply(w, ms[0].op), ms[1..], k)))
  }

  /** While the store keeps it, the record is live after some operation of the history. */
  ghost predicate LiveAgain(w: Waits, ms: seq<Moment>, k: Key)
    requires Consistent(w)
    decreases |ms|
  {
    ms != [] && k in Apply(w, ms[0].op).byRef
    && (Live(Apply(w, ms[0].op).byRef[k], ms[0].clock)
        || (ApplyConsistent(w, ms[0].op); LiveAgain(Apply(w, ms[0].op), ms[1..], k)))
  }

  /** Under a forward clock, a record that stopped being live becomes live again if and only if
      some operation is such an approval of that very record; otherwise it stays
      as it is while it is kept. */
  lemma {:induction false} LiveAgainExactly(w: Waits, since: int, ms: seq<Moment>, k: Key)
    requires Consistent(w) && Forward(since, ms) && k in w.byRef && !Live(w.byRef[k], since)
    ensures LiveAgain(w, ms, k) <==> SomeRevives(w, ms, k)
    decreases |ms|
  {
    if ms != [] {
      var m := ms[0];
      if Live(w.byRef[k], m.clock) {
        LiveOnlyEarlier(w.byRef[k], since, m.clock);
      }
      ApplyConsistent(w, m.op);
      if k in Apply(w, m.op).byRef {
        RevivedExactlyByAnOvertakenApproval(w, m, k);
        if !Revives(w, m, k) {
          LiveAgainExactly(Apply(w, m.op), m.clock, ms[1..], k);
        }
      } else {
        GoneIsNotRevived(w, m, ms[1..], k);
      }
    }
  }

  /** Said of the end of a history all of which the store keeps the record through. */
  lemma {:induction false} NeverLiveAgain(w: Waits, since: int, ms: seq<Moment>, k: Key)
    requires Consistent(w) && Forward(since, ms) && !SomeRevives(w, ms, k)
    requires k in w.byRef && !Live(w.byRef[k], since)
    requires forall i :: 0 <= i <= |ms| ==> k in Run(w, Ops(ms[..i])).byRef
    requires k in Run(w, Ops(ms)).byRef
    ensures !Live(Run(w, Ops(ms)).byRef[k], if ms == [] then since else ms[|ms| - 1].clock)
    decreases |ms|
  {
    if ms != [] {
      var m := ms[0];
      if Live(w.byRef[k], m.clock) {
        LiveOnlyEarlier(w.byRef[k], since, m.clock);
      }
      ApplyConsistent(w, m.op);
      forall i | 0 <= i <= |ms| - 1
        ensures Run(Apply(w, m.op), Ops(ms[1..][..i])) == Run(w, Ops(ms[..i + 1]))
      {
        assert ms[..i + 1][1..] == ms[1..][..i];
        assert Ops(ms[..i + 1])[1..] == Ops(ms[1..][..i]);
      }
      assert Ops(ms)[1..] == Ops(ms[1..]);
      assert Run(Apply(w, m.op), Ops(ms[1..][..0])) == Apply(w, m.op);
      RevivedExactlyByAnOvertakenApproval(w, m, k);
      NeverLiveAgain(Apply(w, m.op), m.clock, ms[1..], k);
    }
  }

  lemma GoneIsNotRevived(w: Waits, m: Moment, rest: seq<Moment>, k: Key)
    requires Consistent(w) && Consistent(Apply(w, m.op)) && k in w.byRef && k !in Apply(w, m.op).byRef
    ensures !Revives(w, m, k) && !SomeRevives(Apply(w, m.op), rest, k)
  {
    OnlyTwoWaysOut(w, m.op, k);
  }

  // -- the act dated before the lock ---------------------------------------------------

  const ASKED := Question("local", "user:a", "mail.send", "-")

  function WaitFrom(ref: string, from: int, until: int): Approval
    requires from < until
  {
    Record(ref, "decision", ASKED, from, until, Pending, None, None, None, false, None, false, false)
  }

  lemma {:induction false} RunOfThree(w: Waits, a: Op, b: Op, c: Op)
    requires Consistent(w)
    ensures Consistent(Apply(w, a)) && Consistent(Apply(Apply(w, a), b))
    ensures Run(w, [a, b, c]) == Apply(Apply(Apply(w, a), b), c)
  {
    ApplyConsistent(w, a);
    ApplyConsistent(Apply(w, a), b);
    assert [a, b, c][1..] == [b, c] && [b, c][1..] == [c] && [c][1..] == [];
    assert Run(Apply(Apply(w, a), b), [c]) == Apply(Apply(Apply(w, a), b), c);
  }

  lemma SecondWaitOpens(w: Waits, first: Approval, second: Approval, now: int)
    requires Consistent(w) && w.byRef == map[KeyOf(first) := first]
    requires !Live(first, now) && KeyOf(first) != KeyOf(second)
    requires !second.published && second.state == Pending
    ensures OpenIfAbsent(w, second, now).waits.byRef == map[KeyOf(first) := first, KeyOf(second) := second]
  {
    NewestIsLastOpened(w.byRef, References(w, second.question), now, true);
  }

  lemma FirstWaitOpens(first: Approval, now: int)
    requires !first.published && first.state == Pending
    ensures Consistent(NOTHING_KEPT)
    ensures OpenIfAbsent(NOTHING_KEPT, first, now).waits.byRef == map[KeyOf(first) := first]
  {
  }

  lemma LateActLeavesTwoLive(w: Waits, first: Approval, second: Approval, m: Moment)
    requires Consistent(w) && KeyOf(first) != KeyOf(second) && first.question == second.question
    requires w.byRef == map[KeyOf(first) := first, KeyOf(second) := second]
    requires m.op.Resolves? && m.op.k == KeyOf(first) && m.op.verdict == Approve
    requires Overtaken(w, m) && Admissible(w, m) && Live(second, m.clock)
    ensures !AtMostOneLive(Apply(w, m.op), m.clock)
  {
    var v := Apply(w, m.op);
    assert v.byRef[KeyOf(second)] == second;
    assert Live(v.byRef[KeyOf(first)], m.clock);
  }

  /** The property is not true of every history: an act dated 9 reaches the lock at 12, after
      the wait ended at 10 and an ask that began at 9 gave the question another, and both are
      then live. */
  lemma AnOvertakenApprovalLeavesTwoLive()
    ensures var first, second := WaitFrom("r1", 0, 10), WaitFrom("r2", 9, 19);
      var opens, reopens := OpensIfAbsent(first, 0), OpensIfAbsent(second, 12);
      var acts := Resolves(KeyOf(first), "p", Approve, None, 9);
      && Permitted(Moment(0, opens)) && Permitted(Moment(12, reopens)) && Permitted(Moment(12, acts))
      && Consistent(NOTHING_KEPT)
      && !AtMostOneLive(Run(NOTHING_KEPT, [opens, reopens, acts]), 12)
  {
    TwoLiveAfter(WaitFrom("r1", 0, 10), WaitFrom("r2", 9, 19), "p", 9, 12);
  }

  lemma TwoLiveAfter(first: Approval, second: Approval, person: string, dated: int, now: int)
    requires first.question == second.question && first.approvalRef != second.approvalRef && person != ""
    requires first.state == second.state == Pending && !first.published && !second.published
    requires first.requestedAt <= dated < first.deadline <= now < second.deadline
    ensures Consistent(NOTHING_KEPT)
    ensures !AtMostOneLive(
      Run(NOTHING_KEPT, [OpensIfAbsent(first, 0), OpensIfAbsent(second, now),
                         Resolves(KeyOf(first), person, Approve, None, dated)]), now)
  {
    var o0, o1 := OpensIfAbsent(first, 0), OpensIfAbsent(second, now);
    var o2 := Resolves(KeyOf(first), person, Approve, None, dated);
    FirstWaitOpens(first, 0);
    RunOfThree(NOTHING_KEPT, o0, o1, o2);
    var w1 := Apply(NOTHING_KEPT, o0);
    SecondWaitOpens(w1, first, second, now);
    LateActLeavesTwoLive(Apply(w1, o1), first, second, Moment(now, o2));
  }
}
