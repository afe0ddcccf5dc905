/** What each act on a wait achieves, over whatever follows it: the first act in time decides, one
    claim stands at a time, a spend is final, and what one operation does its inverse undoes. */
module WaitActs {
  import opened Outcomes
  import opened StoreKeys
  import opened ApprovalRecord
  import opened WaitRules
  import opened WaitHistory

  /** The store keeps this record after every operation of a history. */
  ghost predicate KeptThrough(w: Waits, ops: seq<Op>, k: Key)
    requires Consistent(w)
    decreases |ops|
  {
    && k in w.byRef
    && (ops != [] ==> (ApplyConsistent(w, ops[0]); KeptThrough(Apply(w, ops[0]), ops[1..], k)))
  }

  /** The facts a wait is opened with. */
  predicate SameWait(a: Record, b: Record) {
    && a.approvalRef == b.approvalRef && a.decisionRef == b.decisionRef && a.question == b.question
    && a.requestedAt == b.requestedAt && a.deadline == b.deadline
  }

  /** What can still answer its question: an open wait to its deadline, an approval until it is spent,
      a rejection to the deadline of the wait it ended. Outside an ask, none that is in flight. */
  lemma AnswersExactly(a: Approval, now: int, inFlight: bool)
    ensures Answers(a, now, inFlight) <==>
      && (|| (a.state == Pending && now < a.deadline)
          || (a.state == Approved && !a.consumed)
          || (a.state == Rejected && now < a.deadline))
      && (inFlight || (a.published && !a.claimed))
  {
  }

  // -- a person's act ---------------------------------------------------------------------------

  /** The record reads as this verdict, by this person, dated and with this reason, to everybody. */
  predicate Bears(a: Record, person: string, verdict: Verdict, reason: Option<string>, at: int) {
    && a.state == (if verdict == Approve then Approved else Rejected)
    && a.person == Some(person) && a.resolutionReason == reason && a.resolvedAt == Some(at) && a.published
  }

  /** An act is in time while the wait is open, and admissible from its request on, by a name. */
  predicate InTime(w: Waits, k: Key, person: string, at: int) {
    && k in w.byRef && w.byRef[k].state == Pending
    && w.byRef[k].requestedAt <= at < w.byRef[k].deadline && person != ""
  }

  /** Whether an act is taken, and each way it is refused. An act that is taken is in the record,
      and so answered; one that is refused changes nothing, unless it finds the wait run out, which
      then reads as expired at its deadline. */
  lemma ActIsTakenExactly(w: Waits, k: Key, person: string, verdict: Verdict, reason: Option<string>, at: int)
    ensures var did := Resolve(w, k, person, verdict, reason, at);
      && (did.answer.Ok? <==> InTime(w, k, person, at))
      && (did.answer == Err(NotKept) <==> k !in w.byRef)
      && (did.answer == Err(AlreadyResolved) <==> k in w.byRef && StateAt(w.byRef[k], at) != Pending)
      && (did.answer.Ok? ==>
        && did.waits == Rewritten(w, k, did.answer.value) && SameWait(did.answer.value, w.byRef[k])
        && Bears(did.answer.value, person, verdict, reason, at))
      && (did.answer.Err? && did.waits != w ==>
        && k in w.byRef && w.byRef[k].state == Pending && w.byRef[k].deadline <= at
        && k in did.waits.byRef && did.waits == Rewritten(w, k, did.waits.byRef[k]))
      && (k in w.byRef && w.byRef[k].state == Pending && w.byRef[k].deadline <= at ==>
        && k in did.waits.byRef && did.waits.byRef[k].state == Expired
        && did.waits.byRef[k].resolvedAt == Some(w.byRef[k].deadline)
        && SameWait(did.waits.byRef[k], w.byRef[k]) && did.waits.byRef[k].published == w.byRef[k].published)
  {
  }

  /** All that can happen to a closed record while it is kept: a claim, its being given back, a spend. */
  predicate ClosedMoves(op: Op, a: Record, b: Record) {
    || b == a
    || (op.Claims? && !a.claimed && b == a.(claimed := true))
    || (op.Releases? && !a.consumed && b == a.(claimed := false))
    || (op.Consumes? && !a.consumed && b == a.(consumed := true, consumedAt := Some(op.now)))
  }

  lemma OwnClosedRecordMoves(w: Waits, op: Op)
    requires Consistent(w) && Rewrites(op) && op.k in w.byRef && w.byRef[op.k].state != Pending
    ensures op.k in Apply(w, op).byRef && ClosedMoves(op, w.byRef[op.k], Apply(w, op).byRef[op.k])
  {
  }

  lemma ClosedRecordMoves(w: Waits, op: Op, k: Key)
    requires Consistent(w) && k in w.byRef && w.byRef[k].state != Pending && k in Apply(w, op).byRef
    ensures ClosedMoves(op, w.byRef[k], Apply(w, op).byRef[k])
    ensures op.Releases? && op.k != k ==> Apply(w, op).byRef[k] == w.byRef[k]
  {
    if !Rewrites(op) {
      OthersLeaveClosedRecords(w, op, k);
    } else if op.k == k {
      OwnClosedRecordMoves(w, op);
    } else {
      RewritesOne(w, op);
    }
  }

  /** Equal but for what a claim and a spend write. */
  predicate SameVerdict(a: Record, b: Record) {
    b == a.(claimed := b.claimed, consumed := b.consumed, consumedAt := b.consumedAt)
  }

  lemma StepKeepsVerdict(w: Waits, op: Op, k: Key)
    requires Consistent(w) && k in w.byRef && w.byRef[k].state != Pending && k in Apply(w, op).byRef
    ensures SameVerdict(w.byRef[k], Apply(w, op).byRef[k])
  {
    ClosedRecordMoves(w, op, k);
  }

  lemma {:induction false} VerdictStands(w: Waits, ops: seq<Op>, k: Key)
    requires Consistent(w) && KeptThrough(w, ops, k) && w.byRef[k].state != Pending
    ensures k in Run(w, ops).byRef && SameVerdict(w.byRef[k], Run(w, ops).byRef[k])
    decreases |ops|
  {
    if ops != [] {
      ApplyConsistent(w, ops[0]);
      StepKeepsVerdict(w, ops[0], k);
      VerdictStands(Apply(w, ops[0]), ops[1..], k);
    }
  }

  /** The first act in time decides: from then on, whatever happens and while it is kept, the record
      reads as that act left it, and every further act is refused and changes nothing. */
  lemma FirstActDecides(w: Waits, k: Key, person: string, verdict: Verdict, reason: Option<string>, at: int, ops: seq<Op>,
                        another: string, other: Verdict, why: Option<string>, later: int)
    requires Consistent(w) && InTime(w, k, person, at)
    requires Consistent(Apply(w, Resolves(k, person, verdict, reason, at)))
    requires KeptThrough(Apply(w, Resolves(k, person, verdict, reason, at)), ops, k)
    ensures var u := Run(Apply(w, Resolves(k, person, verdict, reason, at)), ops);
      && k in u.byRef && SameWait(u.byRef[k], w.byRef[k]) && Bears(u.byRef[k], person, verdict, reason, at)
      && Resolve(u, k, another, other, why, later) == Did(u, Err(AlreadyResolved))
  {
    ActIsTakenExactly(w, k, person, verdict, reason, at);
    VerdictStands(Apply(w, Resolves(k, person, verdict, reason, at)), ops, k);
  }

  // -- the claim ----------------------------------------------------------------------------------

  /** Whether a claim is taken, and each way it is refused; it writes itself and nothing else. */
  lemma ClaimIsTakenExactly(w: Waits, k: Key)
    ensures var did := Claim(w, k);
      && (did.answer.Ok? <==> k in w.byRef && w.byRef[k].state == Approved && !w.byRef[k].claimed)
      && (did.answer == Err(NotKept) <==> k !in w.byRef)
      && (did.answer == Err(AlreadyClaimed) <==> k in w.byRef && w.byRef[k].claimed)
      && (did.answer.Err? ==> did.waits == w)
      && (did.answer.Ok? ==>
        && did.waits == Rewritten(w, k, did.answer.value) && did.answer.value.claimed
        && did.answer.value.(claimed := false) == w.byRef[k])
  {
  }

  /** A claim given back leaves the store as it was before the claim, and one taken again as it was
      before it was given back. */
  lemma GivingBackUndoesAClaim(w: Waits, k: Key)
    ensures Claim(w, k).answer.Ok? ==>
      ReleaseClaim(Claim(w, k).waits, k).answer.Ok? && ReleaseClaim(Claim(w, k).waits, k).waits == w
    ensures ReleaseClaim(w, k).answer.Ok? <==> k in w.byRef && w.byRef[k].claimed && !w.byRef[k].consumed
    ensures ReleaseClaim(w, k).answer.Ok? ==>
      Claim(ReleaseClaim(w, k).waits, k).answer.Ok? && Claim(ReleaseClaim(w, k).waits, k).waits == w
    ensures ReleaseClaim(w, k).answer.Err? ==> ReleaseClaim(w, k).waits == w
    ensures ReleaseClaim(w, k).answer == Err(NotKept) <==> k !in w.byRef
  {
    if Claim(w, k).answer.Ok? {
      assert ReleaseClaim(Claim(w, k).waits, k).waits.byRef == w.byRef;
    }
    if ReleaseClaim(w, k).answer.Ok? {
      assert Claim(ReleaseClaim(w, k).waits, k).waits.byRef == w.byRef;
    }
  }

  lemma StepKeepsClaim(w: Waits, op: Op, k: Key)
    requires Consistent(w) && k in w.byRef && w.byRef[k].claimed && k in Apply(w, op).byRef && op != Releases(k)
    ensures Apply(w, op).byRef[k].claimed
  {
    ClosedRecordMoves(w, op, k);
  }

  /** One claimant at a time: until somebody gives it back, and while it is kept, a claimed
      execution stays claimed and every other claim is refused. */
  lemma {:induction false} OneClaimAtATime(w: Waits, ops: seq<Op>, k: Key)
    requires Consistent(w) && KeptThrough(w, ops, k) && w.byRef[k].claimed && Releases(k) !in ops
    ensures var u := Run(w, ops);
      k in u.byRef && u.byRef[k].claimed && Claim(u, k) == Did(u, Err(AlreadyClaimed))
    decreases |ops|
  {
    if ops != [] {
      assert ops[0] in ops;
      ApplyConsistent(w, ops[0]);
      StepKeepsClaim(w, ops[0], k);
      OneClaimAtATime(Apply(w, ops[0]), ops[1..], k);
    }
  }

  // -- the spend ------------------------------------------------------------------------------------

  /** Whether a spend is taken: by whoever holds the claim, once, and not before the act it spends. */
  lemma SpendIsTakenExactly(w: Waits, k: Key, at: int)
    ensures var did := Consume(w, k, at);
      && (did.answer.Ok? <==>
        && k in w.byRef && w.byRef[k].claimed && !w.byRef[k].consumed
        && w.byRef[k].resolvedAt.Some? && w.byRef[k].resolvedAt.value <= at)
      && (did.answer == Err(NotKept) <==> k !in w.byRef)
      && (did.answer.Err? ==> did.waits == w)
      && (did.answer.Ok? ==>
        && did.waits == Rewritten(w, k, did.answer.value)
        && did.answer.value.consumed && did.answer.value.consumedAt == Some(at)
        && did.answer.value.(consumed := false, consumedAt := None) == w.byRef[k])
  {
  }

  lemma StepKeepsSpent(w: Waits, op: Op, k: Key)
    requires Consistent(w) && k in w.byRef && w.byRef[k].consumed && k in Apply(w, op).byRef
    ensures Apply(w, op).byRef[k] == w.byRef[k]
  {
    ClosedRecordMoves(w, op, k);
  }

  /** A spend is final: while it is kept, a spent record is what it was, whatever is tried, and is
      neither claimed, given back nor spent again. */
  lemma {:induction false} SpendIsFinal(w: Waits, ops: seq<Op>, k: Key, at: int)
    requires Consistent(w) && KeptThrough(w, ops, k) && w.byRef[k].consumed
    ensures var u := Run(w, ops);
      && k in u.byRef && u.byRef[k] == w.byRef[k]
      && Claim(u, k).answer.Err? && ReleaseClaim(u, k).answer.Err? && Consume(u, k, at).answer.Err?
    decreases |ops|
  {
    if ops != [] {
      ApplyConsistent(w, ops[0]);
      StepKeepsSpent(w, ops[0], k);
      SpendIsFinal(Apply(w, ops[0]), ops[1..], k, at);
    }
  }

  // -- opening, publishing, withdrawing ----------------------------------------------------------------

  /** What was opened last is found first. */
  lemma JustOpenedIsFound(w: Waits, a: Approval, now: int)
    requires Consistent(w) && Open(w, a).answer.Ok? && now < a.deadline
    ensures Consistent(Open(w, a).waits)
    ensures Open(w, a).answer == Ok(a) && NewestLive(Open(w, a).waits, a.question, now, true) == Some(a)
    ensures NewestLive(Open(w, a).waits, a.question, now, false) == NewestLive(w, a.question, now, false)
  {
    OpenConsistent(w, a);
    var v := Open(w, a).waits;
    var keys := References(w, a.question);
    assert References(v, a.question) == keys + [KeyOf(a)] && (keys + [KeyOf(a)])[..|keys|] == keys;
    OneMoreRecordIsNotMissed(w.byRef, v.byRef, keys, now, false);
  }

  lemma {:induction false} OneMoreRecordIsNotMissed(before: map<Key, Approval>, after: map<Key, Approval>, keys: seq<Key>,
                                                    now: int, inFlight: bool)
    requires forall k :: k in keys ==> k in before && k in after && after[k] == before[k]
    ensures NewestOf(after, keys, now, inFlight) == NewestOf(before, keys, now, inFlight)
  {
    if keys != [] {
      assert keys[|keys| - 1] in keys;
      OneMoreRecordIsNotMissed(before, after, keys[..|keys| - 1], now, inFlight);
    }
  }

  /** A record is opened exactly when it is new, unanswered and unpublished, under no key in use. */
  lemma OpenIsTakenExactly(w: Waits, a: Approval)
    ensures var did := Open(w, a);
      && (did.answer.Ok? <==> !a.published && a.state == Pending && KeyOf(a) !in w.byRef)
      && (did.answer == Err(AlreadyExists) <==> !a.published && a.state == Pending && KeyOf(a) in w.byRef)
      && (did.answer.Err? ==> did.waits == w)
      && (did.answer.Ok? ==> did.answer == Ok(a) && did.waits.byRef == w.byRef[KeyOf(a) := a])
  {
  }

  lemma WithoutLast(keys: seq<Key>, k: Key)
    requires k !in keys
    ensures WithoutFirst(keys + [k], k) == keys
  {
    if keys != [] {
      assert (keys + [k])[1..] == keys[1..] + [k];
      WithoutLast(keys[1..], k);
    }
  }

  /** Withdrawing what was just opened leaves the store as it was. */
  lemma WithdrawingUndoesAnOpening(w: Waits, a: Approval)
    requires Consistent(w) && Open(w, a).answer.Ok?
    ensures Abandon(Open(w, a).waits, KeyOf(a)) == Did(w, Ok(a))
  {
    var v, k := Open(w, a).waits, KeyOf(a);
    var keys := References(w, a.question);
    assert k !in keys;
    WithoutLast(keys, k);
    assert v.byRef - {k} == w.byRef;
    var lists := Dropped(v, k, a.question).byQuestion;
    if keys == [] {
      assert lists == w.byQuestion;
    } else {
      assert lists == w.byQuestion;
    }
  }

  /** A wait is withdrawn exactly while it is unanswered and nobody was told of it. */
  lemma WithdrawalIsTakenExactly(w: Waits, k: Key)
    ensures var did := Abandon(w, k);
      && (did.answer.Ok? <==> k in w.byRef && w.byRef[k].state == Pending && !w.byRef[k].published)
      && (did.answer == Err(NotKept) <==> k !in w.byRef)
      && (did.answer.Err? ==> did.waits == w)
      && (did.answer.Ok? ==> did.answer.value == w.byRef[k] && did.waits.byRef == w.byRef - {k})
  {
  }

  /** Publishing is taken exactly while the wait is unanswered; it shows the wait, and writes nothing
      else. */
  lemma PublishIsTakenExactly(w: Waits, k: Key)
    ensures var did := Publish(w, k);
      && (did.answer.Ok? <==> k in w.byRef && w.byRef[k].state == Pending)
      && (did.answer == Err(NotKept) <==> k !in w.byRef)
      && (did.answer.Err? ==> did.waits == w)
      && (did.answer.Ok? ==>
        did.answer.value == w.byRef[k].(published := true) && did.waits == Rewritten(w, k, did.answer.value))
  {
    if k in w.byRef && w.byRef[k].published {
      assert Rewritten(w, k, w.byRef[k]).byRef == w.byRef;
    }
  }

  /** Publishing is what makes a wait the answer outside an ask: until then that is nothing, or another
      record; from then on, while it is the only live one, that is this wait to its deadline. */
  lemma PublishedIsFound(w: Waits, k: Key, now: int)
    requires Consistent(w) && k in w.byRef && w.byRef[k].state == Pending && now < w.byRef[k].deadline
    requires forall j :: j in w.byRef && j != k && w.byRef[j].question == w.byRef[k].question ==> !Live(w.byRef[j], now)
    ensures Consistent(Publish(w, k).waits)
    ensures !w.byRef[k].published ==> NewestLive(w, w.byRef[k].question, now, false) == None
    ensures NewestLive(Publish(w, k).waits, w.byRef[k].question, now, false) == Some(w.byRef[k].(published := true))
  {
    var v, keys := Publish(w, k).waits, References(w, w.byRef[k].question);
    PublishIsTakenExactly(w, k);
    RewrittenConsistent(w, k, v.byRef[k]);
    NewestIsLastOpened(w.byRef, keys, now, false);
    NewestIsLastOpened(v.byRef, keys, now, false);
  }

  lemma OwnStepKeepsPublished(w: Waits, op: Op)
    requires Consistent(w) && Rewrites(op) && op.k in w.byRef && w.byRef[op.k].published
    ensures op.k in Apply(w, op).byRef && Apply(w, op).byRef[op.k].published
  {
  }

  lemma OthersKeepPublished(w: Waits, op: Op, k: Key)
    requires Consistent(w) && !Rewrites(op) && k in w.byRef && w.byRef[k].published && k in Apply(w, op).byRef
    ensures Apply(w, op).byRef[k].published
  {
    if op.Abandons? && op.k in w.byRef {
      DropsOne(w, op.k);
    }
  }

  lemma StepKeepsPublished(w: Waits, op: Op, k: Key)
    requires Consistent(w) && k in w.byRef && w.byRef[k].published && k in Apply(w, op).byRef
    ensures Apply(w, op).byRef[k].published
  {
    if !Rewrites(op) {
      OthersKeepPublished(w, op, k);
    } else if op.k == k {
      OwnStepKeepsPublished(w, op);
    } else {
      RewritesOne(w, op);
    }
  }

  /** What has been published stays so, and is not withdrawn any more. */
  lemma {:induction false} PublishedStaysPublished(w: Waits, ops: seq<Op>, k: Key)
    requires Consistent(w) && KeptThrough(w, ops, k) && w.byRef[k].published
    ensures var u := Run(w, ops);
      k in u.byRef && u.byRef[k].published && Abandon(u, k) == Did(u, Err(InvalidValue))
    decreases |ops|
  {
    if ops != [] {
      ApplyConsistent(w, ops[0]);
      StepKeepsPublished(w, ops[0], k);
      PublishedStaysPublished(Apply(w, ops[0]), ops[1..], k);
    }
  }

  // -- the sweep ----------------------------------------------------------------------------------------

  /** A sweep stores what a reader already sees, and no more: every record is kept, in the state it
      reads as at that instant, an expiry dated at its deadline. */
  lemma SweepStoresWhatIsRead(w: Waits, now: int, k: Key)
    requires k in w.byRef
    ensures var v := ExpirePast(w, now);
      && v.byRef.Keys == w.byRef.Keys && v.byQuestion == w.byQuestion
      && v.byRef[k].state == StateAt(w.byRef[k], now)
      && v.byRef[k].(state := w.byRef[k].state, resolvedAt := w.byRef[k].resolvedAt) == w.byRef[k]
      && (v.byRef[k].state == w.byRef[k].state ==> v.byRef[k] == w.byRef[k])
      && forall later :: later >= now ==> StateAt(v.byRef[k], later) == StateAt(w.byRef[k], later)
  {
  }
}
