/** What an ask answers: exactly what its look finds, step by step; and over whole runs, only what a
    person's act on its own question, or the policy, vouches for. */
module AskAnswers {
  import opened Outcomes
  import opened StoreKeys
  import opened ApprovalRecord
  import opened WaitRules
  import opened WaitHistory
  import opened WaitActs
  import opened AskProtocol
  import opened AskInvariant
  import opened AskSafety

  // -- one look, exactly -------------------------------------------------------------------------

  /** The record of a question opened last among those that can still answer it. */
  ghost predicate LastAnswering(w: Waits, q: Question, now: int, a: Approval) {
    var keys := References(w, q);
    exists i :: 0 <= i < |keys| && keys[i] in w.byRef && w.byRef[keys[i]] == a && Live(a, now)
      && forall j :: i < j < |keys| && keys[j] in w.byRef ==> !Live(w.byRef[keys[j]], now)
  }

  lemma NewestIsLastAnswering(w: Waits, q: Question, now: int)
    requires Consistent(w)
    ensures match NewestLive(w, q, now, true)
      case Some(a) => LastAnswering(w, q, now, a) && a.question == q && KeyOf(a) in w.byRef && w.byRef[KeyOf(a)] == a
      case None => forall k :: k in w.byRef && w.byRef[k].question == q ==> !Live(w.byRef[k], now)
    ensures forall a, b :: LastAnswering(w, q, now, a) && LastAnswering(w, q, now, b) ==> a == b
  {
    NewestIsLastOpened(w.byRef, References(w, q), now, true);
    if NewestLive(w, q, now, true).Some? {
      var a := NewestLive(w, q, now, true).value;
      assert LastAnswering(w, q, now, a);
    }
  }

  /** Where an ask looks again, or gives up after its last try. */
  predicate TriesAgain(p: Ask, opening: Approval, attempt: nat) {
    if attempt + 1 < CLAIM_TRIES then p == Looking(opening, attempt + 1) else p == Over
  }

  predicate Denies(p: Ask, k: Key) {
    p == Deciding(ByApproval(Consulted(Deny, ApprovalRejected, k, false, false)))
  }

  predicate SuspendsOn(p: Ask, k: Key, own: bool) {
    p == Deciding(ByApproval(Consulted(Suspend, PolicyRequiresReview, k, false, own)))
  }

  predicate AllowsOn(p: Ask, k: Key) {
    p == Deciding(ByApproval(Consulted(Allow, ApprovalGranted, k, true, false)))
  }

  lemma FoundLeadsTo(opening: Approval, attempt: nat, found: Approval)
    requires found.approvalRef != opening.approvalRef && found.state != Expired
    ensures var p, k := AfterLook(opening, attempt, Ok(found)), KeyOf(found);
      && (Denies(p, k) <==> found.state == Rejected)
      && (SuspendsOn(p, k, false) <==> found.state == Pending && found.published)
      && (p == Claiming(opening, attempt, k) <==> found.state == Approved && !found.claimed)
      && (TriesAgain(p, opening, attempt)
          <==> (found.state == Pending && !found.published) || (found.state == Approved && found.claimed))
  {
  }

  /** What a look does is decided by the store's one answer. */
  lemma LookGoesBy(s: System, a: Action)
    requires Inv(s) && Enabled(s, a) && a.Looks?
    ensures var opening, t := s.asks[a.id].opening, Next(s, a);
      var did := OpenIfAbsent(s.waits, opening, a.now);
      && KeyOf(opening) !in s.waits.byRef && opening.state == Pending && !opening.published
      && t.asks[a.id] == AfterLook(opening, s.asks[a.id].attempt, did.answer)
      && t.waits == did.waits && t.log == s.log
  {
    ActorHolds(s, a, KeyOf(s.asks[a.id].opening));
  }

  /** With a record of its question still answering, an ask opens nothing; and by what that record
      is, it is denied, suspended on it, goes to claim it, or tries again: each if and only if. */
  lemma LookAnswersExactly(s: System, a: Action, found: Approval)
    requires Inv(s) && Enabled(s, a) && a.Looks?
    requires LastAnswering(s.waits, s.asks[a.id].opening.question, a.now, found)
    ensures var p, opening, attempt := Next(s, a).asks[a.id], s.asks[a.id].opening, s.asks[a.id].attempt;
      && Next(s, a).waits == s.waits && Next(s, a).log == s.log
      && (Denies(p, KeyOf(found)) <==> found.state == Rejected)
      && (SuspendsOn(p, KeyOf(found), false) <==> found.state == Pending && found.published)
      && (p == Claiming(opening, attempt, KeyOf(found)) <==> found.state == Approved && !found.claimed)
      && (TriesAgain(p, opening, attempt)
          <==> (found.state == Pending && !found.published) || (found.state == Approved && found.claimed))
  {
    var opening := s.asks[a.id].opening;
    LookGoesBy(s, a);
    NewestIsLastAnswering(s.waits, opening.question, a.now);
    LookFinds(s.waits, opening, a.now);
    FoundLeadsTo(opening, s.asks[a.id].attempt, found);
  }

  /** With none answering, it opens the wait it came with, unpublished, and puts it to the provider. */
  lemma LookOpensExactly(s: System, a: Action)
    requires Inv(s) && Enabled(s, a) && a.Looks?
    ensures var t, opening := Next(s, a), s.asks[a.id].opening;
      (t.asks[a.id] == Providing(opening) && t.waits.byRef == s.waits.byRef[KeyOf(opening) := opening])
      <==> forall k :: k in s.waits.byRef && s.waits.byRef[k].question == opening.question ==> !Live(s.waits.byRef[k], a.now)
  {
    var opening := s.asks[a.id].opening;
    LookGoesBy(s, a);
    NewestIsLastAnswering(s.waits, opening.question, a.now);
    LookFinds(s.waits, opening, a.now);
  }

  /** A claim allows exactly when the execution is there, approved and nobody's; lost to another
      ask, or gone, it makes this one look again. */
  lemma ClaimAnswersExactly(s: System, a: Action)
    requires Enabled(s, a) && a.TakesClaim?
    ensures var Claiming(opening, attempt, k) := s.asks[a.id];
      var p, w := Next(s, a).asks[a.id], s.waits;
      && (AllowsOn(p, k) <==> k in w.byRef && w.byRef[k].state == Approved && !w.byRef[k].claimed)
      && (AllowsOn(p, k) ==>
        && k in Next(s, a).waits.byRef && Next(s, a).waits.byRef[k].claimed
        && k in Next(s, a).claimant && Next(s, a).claimant[k] == a.id)
      && (k !in w.byRef || w.byRef[k].claimed ==> TriesAgain(p, opening, attempt))
      && (!AllowsOn(p, k) ==> Next(s, a).waits == w && Next(s, a).claimant == s.claimant)
  {
    ClaimIsTakenExactly(s.waits, s.asks[a.id].k);
  }

  /** A provider that takes the wait up has the ask suspend on it; one that does not has it withdrawn,
      and gone while nobody has answered it. */
  lemma ProviderDecidesExactly(s: System, a: Action)
    requires Enabled(s, a) && (a.PutsToProvider? || a.DropsUnprovided?)
    ensures a.PutsToProvider? ==>
      var p, k := Next(s, a).asks[a.id], KeyOf(s.asks[a.id].opening);
      && (SuspendsOn(p, k, true) <==> a.takenUp) && (p == Dropping(k) <==> !a.takenUp) && Next(s, a).waits == s.waits
    ensures a.DropsUnprovided? ==>
      var k := s.asks[a.id].k;
      && Next(s, a).asks[a.id] == Over
      && (k in Next(s, a).waits.byRef <==> k in s.waits.byRef && (s.waits.byRef[k].state != Pending || s.waits.byRef[k].published))
  {
    if a.DropsUnprovided? { WithdrawalIsTakenExactly(s.waits, s.asks[a.id].k); }
  }

  /** The answer an ask settled on is what is recorded, once, unless the append was refused before
      its first byte; and it carries a grant if and only if one was reserved and the policy allows. */
  lemma DecisionIsRecordedExactly(s: System, a: Action)
    requires Inv(s) && Enabled(s, a) && a.Appends?
    ensures var settled, log := s.asks[a.id].settled, Next(s, a).log;
      if a.append == RefusedBeforeTheFirstByte then log == s.log
      else
        && |log| == |s.log| + 1 && log[..|s.log|] == s.log
        && var r := log[|s.log|];
        && r.id == a.id && (r.grant <==> a.reserved && r.outcome == Allow && r.k == None)
        && settled == if r.k == None then ByPolicy(r.outcome, r.reason)
                      else ByApproval(Consulted(r.outcome, r.reason, r.k.value, r.outcome == Allow, Opened(settled)))
  {
    assert WellFormedAsk(s.asks[a.id]);
  }

  // -- over whole runs -------------------------------------------------------------------------------

  /** The record of a key, still kept or as the sweep dropped it. */
  ghost function RecordEver(s: System, k: Key): Option<Approval> {
    if k in s.waits.byRef then Some(s.waits.byRef[k])
    else if k in s.forgotten then Some(s.forgotten[k].record)
    else None
  }

  /** A person answered this question so, under this key. */
  ghost predicate Answered(s: System, k: Key, q: Question, state: State) {
    RecordEver(s, k).Some? && RecordEver(s, k).value.question == q && RecordEver(s, k).value.state == state
  }

  ghost predicate OfQuestion(s: System, k: Key, q: Question) {
    k in s.everKept && (RecordEver(s, k).Some? ==> RecordEver(s, k).value.question == q)
  }

  predicate PolicyAnswer(outcome: Outcome, reason: Reason) {
    (outcome == Allow && reason == PolicyAllows) || (outcome == Deny && (reason == PolicyDenies || reason == PolicyAbsent))
  }

  /** What an answer over a wait rests on. */
  ghost predicate Vouched(s: System, outcome: Outcome, reason: Reason, k: Key, q: Question) {
    match reason
    case ApprovalGranted => outcome == Allow && Answered(s, k, q, Approved)
    case ApprovalRejected => outcome == Deny && Answered(s, k, q, Rejected)
    case PolicyRequiresReview => outcome == Suspend && OfQuestion(s, k, q)
    case _ => false
  }

  ghost predicate SettledAnswers(s: System, id: nat, settled: Settled) {
    if id in s.openings then
      settled.ByApproval? && Vouched(s, settled.c.outcome, settled.c.reason, settled.c.k, s.openings[id].question)
    else settled.ByPolicy? && PolicyAnswer(settled.outcome, settled.reason)
  }

  /** An ask under way: one that suspends keeps to its own opening and its own question. */
  ghost predicate AskAnswers(s: System, id: nat, p: Ask) {
    match p
    case Looking(opening, _) => id in s.openings && s.openings[id] == opening
    case Claiming(opening, _, k) => id in s.openings && s.openings[id] == opening && OfQuestion(s, k, opening.question)
    case Providing(opening) =>
      id in s.openings && s.openings[id] == opening && OfQuestion(s, KeyOf(opening), opening.question)
    case Dropping(_) => id in s.openings
    case Over => true
    case _ => SettledAnswers(s, id, SettledOf(p).value)
  }

  /** A decision: a suspended ask's names a wait of its question, and never carries a grant; any
      other ask's is the policy's own. */
  ghost predicate LogAnswers(s: System, r: Recorded) {
    && r.id in s.asks
    && (if r.id in s.openings then
          && r.k.Some? && !r.grant
          && Vouched(s, r.outcome, r.reason, r.k.value, s.openings[r.id].question)
          && (r.outcome == Allow ==> r.k.value in s.claimant && s.claimant[r.k.value] == r.id)
        else r.k == None && PolicyAnswer(r.outcome, r.reason) && (r.grant ==> r.outcome == Allow))
  }

  ghost predicate AllAnswer(s: System) {
    && (forall id :: id in s.openings ==> id in s.asks)
    && (forall id :: id in s.asks ==> AskAnswers(s, id, s.asks[id]))
    && (forall r :: r in s.log ==> LogAnswers(s, r))
  }

  // -- what vouches goes on vouching ------------------------------------------------------------------

  lemma RecordStaysOrLapses(w: Waits, op: Op, k: Key)
    requires Consistent(w) && k in w.byRef
    ensures k in Apply(w, op).byRef ==> Apply(w, op).byRef[k].question == w.byRef[k].question
    ensures k in Apply(w, op).byRef && Acted(w.byRef[k].state) ==> Apply(w, op).byRef[k].state == w.byRef[k].state
    ensures k !in Apply(w, op).byRef && Acted(w.byRef[k].state) ==> op.Forgets?
  {
    OnlyTwoWaysOut(w, op, k);
    if k in Apply(w, op).byRef {
      SameQuestion(w, Moment(0, op), k);
      if Acted(w.byRef[k].state) { ClosedRecordMoves(w, op, k); }
    }
  }

  lemma StoreMovesByItsOp(s: System, a: Action)
    requires Enabled(s, a) && Consistent(s.waits)
    ensures StoreOpApplied(s, a)
  {
    if a.PublishesOpened? || a.SpendsClaimed? || a.GivesBack? || a.TakesBack? {
      SettledOpIsApplied(s, a);
    } else if a.Looks? || a.TakesClaim? || a.DropsUnprovided? {
      OwnOpIsApplied(s, a);
    } else {
      OtherOpIsApplied(s, a);
    }
  }

  /** Only a sweep adds to what was forgotten, and it keeps the records as they were. */
  lemma ForgottenMoves(s: System, a: Action, k: Key)
    requires Enabled(s, a)
    ensures var t := Next(s, a);
      if a.SweepForgets? && k in OfNoUseAt(s.waits, a.now)
      then k in t.forgotten && t.forgotten[k].record == s.waits.byRef[k]
      else (k in t.forgotten <==> k in s.forgotten) && (k in s.forgotten ==> t.forgotten[k] == s.forgotten[k])
  {
  }

  lemma KeptIsRemembered(s: System, a: Action, k: Key)
    requires Enabled(s, a) && k in s.everKept
    ensures k in Next(s, a).everKept
  {
  }

  lemma NothingIsKeptTwice(s: System, a: Action, k: Key)
    requires Inv(s) && Enabled(s, a) && k in s.everKept && k !in s.waits.byRef
    ensures k !in Next(s, a).waits.byRef
  {
    if a.Looks? {
      ActorHolds(s, a, k);
      LookFinds(s.waits, s.asks[a.id].opening, a.now);
    } else {
      StoreMovesByItsOp(s, a);
      if StoreOp(s, a).Some? {
        OtherStepsOpenNothing(s, a);
        OnlyLooksOpen(s.waits, StoreOp(s, a).value, k);
      }
    }
  }

  lemma OtherStepsOpenNothing(s: System, a: Action)
    requires !a.Looks? && StoreOp(s, a).Some?
    ensures !StoreOp(s, a).value.Opens? && !StoreOp(s, a).value.OpensIfAbsent?
  {
  }

  lemma OnlyLooksOpen(w: Waits, op: Op, k: Key)
    requires Consistent(w) && k !in w.byRef && !op.Opens? && !op.OpensIfAbsent?
    ensures k !in Apply(w, op).byRef
  {
    if op.Abandons? && op.k in w.byRef { DropsOne(w, op.k); }
  }

  lemma KeptRecordGoesOn(s: System, a: Action, k: Key)
    requires Inv(s) && Enabled(s, a) && k in s.waits.byRef
    ensures RecordEver(Next(s, a), k).Some? && k !in s.forgotten ==>
      RecordEver(Next(s, a), k).value.question == s.waits.byRef[k].question
    ensures Acted(s.waits.byRef[k].state) ==>
      RecordEver(Next(s, a), k).Some? && RecordEver(Next(s, a), k).value.state == s.waits.byRef[k].state
  {
    ForgottenMoves(s, a, k);
    StoreMovesByItsOp(s, a);
    if StoreOp(s, a).Some? {
      RecordStaysOrLapses(s.waits, StoreOp(s, a).value, k);
      OnlyTwoWaysOut(s.waits, StoreOp(s, a).value, k);
      SweepIsItsOwnOp(s, a);
    }
  }

  lemma SweepIsItsOwnOp(s: System, a: Action)
    requires StoreOp(s, a).Some?
    ensures StoreOp(s, a).value.Forgets? ==> a.SweepForgets? && a.now == StoreOp(s, a).value.now
  {
  }

  lemma KeptOnce(s: System, k: Key)
    requires Inv(s)
    ensures k in s.waits.byRef ==> k in s.everKept && k !in s.forgotten
    ensures k in s.forgotten ==> k in s.everKept
  {
    assert KeyHolds(At(s, k), Droppable(s, k));
  }

  lemma ForgottenRecordGoesOn(s: System, a: Action, k: Key)
    requires Inv(s) && Enabled(s, a) && k !in s.waits.byRef && k in s.everKept
    ensures RecordEver(Next(s, a), k) == RecordEver(s, k)
  {
    ForgottenMoves(s, a, k);
    NothingIsKeptTwice(s, a, k);
  }

  /** Once a person has answered, that stays on record, under its question. */
  lemma RecordGoesOn(s: System, a: Action, k: Key)
    requires Inv(s) && Enabled(s, a)
    ensures forall q, state :: Acted(state) && Answered(s, k, q, state) ==> Answered(Next(s, a), k, q, state)
    ensures forall q :: OfQuestion(s, k, q) ==> OfQuestion(Next(s, a), k, q)
  {
    KeptOnce(s, k);
    if k in s.everKept {
      KeptIsRemembered(s, a, k);
      if k in s.waits.byRef {
        KeptRecordGoesOn(s, a, k);
      } else {
        ForgottenRecordGoesOn(s, a, k);
      }
    }
  }

  lemma VouchedGoesOn(s: System, a: Action, outcome: Outcome, reason: Reason, k: Key, q: Question)
    requires Inv(s) && Enabled(s, a) && Vouched(s, outcome, reason, k, q)
    ensures Vouched(Next(s, a), outcome, reason, k, q)
  {
    RecordGoesOn(s, a, k);
  }

  lemma BeginningMovesOpenings(s: System, a: Action)
    requires Enabled(s, a) && (a.BeginsSuspended? || a.BeginsByPolicy?)
    ensures Next(s, a).openings == if a.BeginsSuspended? then s.openings[a.id := a.opening] else s.openings
    ensures a.BeginsSuspended? ==> a.id !in s.asks
  {
  }

  lemma SettledStepsMoveNoOpenings(s: System, a: Action)
    requires Enabled(s, a) && (a.PublishesOpened? || a.SpendsClaimed? || a.GivesBack? || a.TakesBack?)
    ensures Next(s, a).openings == s.openings
  {
  }

  lemma OwnStepsMoveNoOpenings(s: System, a: Action)
    requires Enabled(s, a) && (a.Looks? || a.TakesClaim? || a.DropsUnprovided? || a.PutsToProvider?)
    ensures Next(s, a).openings == s.openings
  {
  }

  lemma OtherStepsMoveNoOpenings(s: System, a: Action)
    requires Enabled(s, a) && (a.PersonActs? || a.SweepEnds? || a.SweepForgets?)
    ensures Next(s, a).openings == s.openings
  {
  }

  lemma RecordingMovesNoOpenings(s: System, a: Action)
    requires Enabled(s, a) && a.Appends?
    ensures Next(s, a).openings == s.openings
  {
  }

  lemma StoppingMovesNoOpenings(s: System, a: Action)
    requires Enabled(s, a) && a.Stops?
    ensures Next(s, a).openings == s.openings
  {
  }

  lemma OpeningsMove(s: System, a: Action)
    requires Enabled(s, a)
    ensures Next(s, a).openings == if a.BeginsSuspended? then s.openings[a.id := a.opening] else s.openings
    ensures a.BeginsSuspended? ==> a.id !in s.asks
  {
    if a.BeginsSuspended? || a.BeginsByPolicy? {
      BeginningMovesOpenings(s, a);
    } else if a.PublishesOpened? || a.SpendsClaimed? || a.GivesBack? || a.TakesBack? {
      SettledStepsMoveNoOpenings(s, a);
    } else if a.Looks? || a.TakesClaim? || a.DropsUnprovided? || a.PutsToProvider? {
      OwnStepsMoveNoOpenings(s, a);
    } else if a.Appends? {
      RecordingMovesNoOpenings(s, a);
    } else if a.Stops? {
      StoppingMovesNoOpenings(s, a);
    } else {
      OtherStepsMoveNoOpenings(s, a);
    }
  }

  lemma OpeningsGoOn(s: System, a: Action, id: nat)
    requires Enabled(s, a) && id in s.asks
    ensures id in Next(s, a).asks
    ensures id in Next(s, a).openings <==> id in s.openings
    ensures id in s.openings ==> Next(s, a).openings[id] == s.openings[id]
  {
    OpeningsMove(s, a);
    OnlyTheActorMoves(s, a);
  }

  lemma SettledGoesOn(s: System, a: Action, id: nat, settled: Settled)
    requires Inv(s) && Enabled(s, a) && id in s.asks && SettledAnswers(s, id, settled)
    ensures SettledAnswers(Next(s, a), id, settled)
  {
    OpeningsGoOn(s, a, id);
    if id in s.openings {
      VouchedGoesOn(s, a, settled.c.outcome, settled.c.reason, settled.c.k, s.openings[id].question);
    }
  }

  /** What an ask relies on outlasts the steps of others. */
  lemma AskGoesOn(s: System, a: Action, id: nat, p: Ask)
    requires Inv(s) && Enabled(s, a) && id in s.asks && AskAnswers(s, id, p)
    ensures AskAnswers(Next(s, a), id, p)
  {
    OpeningsGoOn(s, a, id);
    if SettledOf(p).Some? {
      SettledGoesOn(s, a, id, SettledOf(p).value);
    } else if p.Claiming? {
      RecordGoesOn(s, a, p.k);
    } else if p.Providing? {
      RecordGoesOn(s, a, KeyOf(p.opening));
    }
  }

  // -- and the acting ask's own step -------------------------------------------------------------------

  /** Whatever found leads to, a record of the question vouches for. */
  lemma FoundAnswers(t: System, id: nat, opening: Approval, attempt: nat, found: Approval)
    requires id in t.openings && t.openings[id] == opening
    requires found.approvalRef != opening.approvalRef && found.state != Expired
    requires OfQuestion(t, KeyOf(found), opening.question)
    requires Acted(found.state) ==> Answered(t, KeyOf(found), opening.question, found.state)
    ensures AskAnswers(t, id, AfterLook(opening, attempt, Ok(found)))
  {
  }

  lemma FoundIsOnRecord(s: System, a: Action, found: Approval)
    requires Inv(s) && Enabled(s, a) && KeyOf(found) in s.waits.byRef && s.waits.byRef[KeyOf(found)] == found
    ensures OfQuestion(Next(s, a), KeyOf(found), found.question)
    ensures Acted(found.state) ==> Answered(Next(s, a), KeyOf(found), found.question, found.state)
  {
    KeptOnce(s, KeyOf(found));
    RecordGoesOn(s, a, KeyOf(found));
    assert OfQuestion(s, KeyOf(found), found.question);
    assert Acted(found.state) ==> Answered(s, KeyOf(found), found.question, found.state);
  }

  lemma FindingKeepsToItsQuestion(s: System, a: Action, found: Approval)
    requires Inv(s) && Enabled(s, a) && a.Looks? && a.id in s.openings && s.openings[a.id] == s.asks[a.id].opening
    requires NewestLive(s.waits, s.asks[a.id].opening.question, a.now, true) == Some(found)
    ensures AskAnswers(Next(s, a), a.id, Next(s, a).asks[a.id])
  {
    var opening := s.asks[a.id].opening;
    NewestIsLastAnswering(s.waits, opening.question, a.now);
    LookGoesBy(s, a);
    LookFinds(s.waits, opening, a.now);
    OpeningsGoOn(s, a, a.id);
    FoundIsOnRecord(s, a, found);
    FoundAnswers(Next(s, a), a.id, opening, s.asks[a.id].attempt, found);
  }

  lemma OpeningKeepsToItsQuestion(s: System, a: Action)
    requires Inv(s) && Enabled(s, a) && a.Looks? && a.id in s.openings && s.openings[a.id] == s.asks[a.id].opening
    requires NewestLive(s.waits, s.asks[a.id].opening.question, a.now, true) == None
    ensures AskAnswers(Next(s, a), a.id, Next(s, a).asks[a.id])
  {
    NewestIsLastAnswering(s.waits, s.asks[a.id].opening.question, a.now);
    LookOpensExactly(s, a);
    OpeningsGoOn(s, a, a.id);
  }

  lemma LookKeepsToItsQuestion(s: System, a: Action)
    requires Inv(s) && AllAnswer(s) && Enabled(s, a) && a.Looks?
    ensures AskAnswers(Next(s, a), a.id, Next(s, a).asks[a.id])
  {
    var opening := s.asks[a.id].opening;
    assert AskAnswers(s, a.id, s.asks[a.id]);
    NewestIsLastAnswering(s.waits, opening.question, a.now);
    OpeningsGoOn(s, a, a.id);
    if NewestLive(s.waits, opening.question, a.now, true).Some? {
      FindingKeepsToItsQuestion(s, a, NewestLive(s.waits, opening.question, a.now, true).value);
    } else {
      OpeningKeepsToItsQuestion(s, a);
    }
  }

  lemma ClaimKeepsToItsQuestion(s: System, a: Action)
    requires Inv(s) && AllAnswer(s) && Enabled(s, a) && a.TakesClaim?
    ensures AskAnswers(Next(s, a), a.id, Next(s, a).asks[a.id])
  {
    assert AskAnswers(s, a.id, s.asks[a.id]);
    OpeningsGoOn(s, a, a.id);
    RecordGoesOn(s, a, s.asks[a.id].k);
    ClaimLeadsTo(s, a);
    ClaimAnswersExactly(s, a);
    if AllowsOn(Next(s, a).asks[a.id], s.asks[a.id].k) {
      assert Answered(s, s.asks[a.id].k, s.openings[a.id].question, Approved);
    }
  }

  lemma ProviderKeepsToItsQuestion(s: System, a: Action)
    requires Inv(s) && AllAnswer(s) && Enabled(s, a) && (a.PutsToProvider? || a.DropsUnprovided?)
    ensures AskAnswers(Next(s, a), a.id, Next(s, a).asks[a.id])
  {
    assert AskAnswers(s, a.id, s.asks[a.id]);
    if a.PutsToProvider? { RecordGoesOn(s, a, KeyOf(s.asks[a.id].opening)); }
  }

  lemma SettledStepKeepsToIt(s: System, a: Action)
    requires Inv(s) && AllAnswer(s) && Enabled(s, a)
    requires a.Appends? || a.PublishesOpened? || a.SpendsClaimed? || a.GivesBack? || a.TakesBack?
    ensures AskAnswers(Next(s, a), a.id, Next(s, a).asks[a.id])
  {
    SettledStaysSettled(s, a);
    assert SettledAnswers(s, a.id, s.asks[a.id].settled) by {
      assert AskAnswers(s, a.id, s.asks[a.id]);
    }
    SettledGoesOn(s, a, a.id, s.asks[a.id].settled);
  }

  lemma SettledStaysSettled(s: System, a: Action)
    requires Enabled(s, a)
    requires a.Appends? || a.PublishesOpened? || a.SpendsClaimed? || a.GivesBack? || a.TakesBack?
    ensures var p := Next(s, a).asks[a.id]; p == Over || SettledOf(p) == Some(s.asks[a.id].settled)
  {
  }

  lemma BeginningAnswers(s: System, a: Action)
    requires AllAnswer(s) && Enabled(s, a) && (a.BeginsByPolicy? || a.BeginsSuspended? || a.Stops?)
    ensures AskAnswers(Next(s, a), a.id, Next(s, a).asks[a.id])
  {
  }

  lemma ActorAnswers(s: System, a: Action)
    requires Inv(s) && AllAnswer(s) && Enabled(s, a) && Actor(a).Some?
    ensures AskAnswers(Next(s, a), ActorId(a), Next(s, a).asks[ActorId(a)])
  {
    match a {
      case Looks(_, _) => LookKeepsToItsQuestion(s, a);
      case TakesClaim(_) => ClaimKeepsToItsQuestion(s, a);
      case PutsToProvider(_, _) => ProviderKeepsToItsQuestion(s, a);
      case DropsUnprovided(_) => ProviderKeepsToItsQuestion(s, a);
      case BeginsByPolicy(_, _, _) => BeginningAnswers(s, a);
      case BeginsSuspended(_, _) => BeginningAnswers(s, a);
      case Stops(_) => BeginningAnswers(s, a);
      case _ => SettledStepKeepsToIt(s, a);
    }
  }

  // -- the log ---------------------------------------------------------------------------------------

  lemma ClaimantOfAnAllowStays(s: System, a: Action, k: Key)
    requires Inv(s) && Enabled(s, a) && k in AllowedKeys(s.log) && k in s.claimant
    ensures k in Next(s, a).claimant && Next(s, a).claimant[k] == s.claimant[k]
  {
    assert KeyHolds(At(s, k), Droppable(s, k));
    if a.TakesClaim? { ClaimAnswersExactly(s, a); }
  }

  lemma DecisionGoesOn(s: System, a: Action, r: Recorded)
    requires Inv(s) && AllAnswer(s) && Enabled(s, a) && r in s.log
    ensures LogAnswers(Next(s, a), r)
  {
    assert LogAnswers(s, r);
    OpeningsGoOn(s, a, r.id);
    if r.id in s.openings {
      VouchedGoesOn(s, a, r.outcome, r.reason, r.k.value, s.openings[r.id].question);
      if r.outcome == Allow {
        assert Granted(r) && r.k.value in AllowedKeys(s.log);
        ClaimantOfAnAllowStays(s, a, r.k.value);
      }
    }
  }

  lemma NewDecisionAnswers(s: System, a: Action)
    requires Inv(s) && AllAnswer(s) && Enabled(s, a) && a.Appends? && a.append != RefusedBeforeTheFirstByte
    ensures LogAnswers(Next(s, a), RecordOf(a.id, s.asks[a.id].settled, a.reserved))
  {
    var settled := s.asks[a.id].settled;
    assert AskAnswers(s, a.id, s.asks[a.id]) && WellFormedAsk(s.asks[a.id]);
    SettledGoesOn(s, a, a.id, settled);
    if settled.ByApproval? {
      assert AskHolds(s.asks[a.id], a.id, settled.c.k, At(s, settled.c.k));
    }
  }

  lemma LogMoves(s: System, a: Action, r: Recorded)
    requires Enabled(s, a) && r in Next(s, a).log && r !in s.log
    ensures a.Appends? && a.append != RefusedBeforeTheFirstByte && r == RecordOf(a.id, s.asks[a.id].settled, a.reserved)
  {
  }

  lemma DecisionsAnswer(s: System, a: Action)
    requires Inv(s) && AllAnswer(s) && Enabled(s, a)
    ensures forall r :: r in Next(s, a).log ==> LogAnswers(Next(s, a), r)
  {
    forall r | r in Next(s, a).log ensures LogAnswers(Next(s, a), r) {
      if r in s.log {
        DecisionGoesOn(s, a, r);
      } else {
        LogMoves(s, a, r);
        NewDecisionAnswers(s, a);
      }
    }
  }

  lemma AsksAnswer(s: System, a: Action)
    requires Inv(s) && AllAnswer(s) && Enabled(s, a)
    ensures forall id :: id in Next(s, a).asks ==> AskAnswers(Next(s, a), id, Next(s, a).asks[id])
  {
    OnlyTheActorMoves(s, a);
    forall id | id in Next(s, a).asks ensures AskAnswers(Next(s, a), id, Next(s, a).asks[id]) {
      if Actor(a) == Some(id) {
        ActorAnswers(s, a);
      } else {
        AskGoesOn(s, a, id, s.asks[id]);
      }
    }
  }

  /** Every step keeps it. */
  lemma StepAnswers(s: System, a: Action)
    requires Inv(s) && AllAnswer(s) && Enabled(s, a)
    ensures AllAnswer(Next(s, a))
  {
    AsksAnswer(s, a);
    DecisionsAnswer(s, a);
    OpeningsMove(s, a);
    OnlyTheActorMoves(s, a);
  }

  lemma {:induction false} RunAnswers(s: System, run: seq<Action>)
    requires Inv(s) && AllAnswer(s) && Possible(s, run)
    ensures Inv(After(s, run)) && AllAnswer(After(s, run))
    decreases |run|
  {
    if run != [] {
      StepKeepsInv(s, run[0]);
      StepAnswers(s, run[0]);
      RunAnswers(Next(s, run[0]), run[1..]);
    }
  }

  /** In every run, an ask the policy sends to review never logs a verdict of the policy's own. Each
      denial it logs names a wait of its very question that a person rejected; each allow one that a
      person approved, that it claimed itself, and without a grant; each suspension a wait of its
      question. Any other ask logs the policy's verdict over no wait, with a grant for an allow only. */
  lemma AnswersAreVouchedFor(run: seq<Action>, i: nat)
    requires Possible(START, run) && i < |After(START, run).log|
    ensures var s := After(START, run);
      var r := s.log[i];
      if r.id in s.openings then
        var q := s.openings[r.id].question;
        && r.k.Some? && !r.grant
        && (r.outcome == Deny ==> r.reason == ApprovalRejected && Answered(s, r.k.value, q, Rejected))
        && (r.outcome == Allow ==>
          && r.reason == ApprovalGranted && Answered(s, r.k.value, q, Approved)
          && r.k.value in s.claimant && s.claimant[r.k.value] == r.id)
        && (r.outcome == Suspend ==> r.reason == PolicyRequiresReview && OfQuestion(s, r.k.value, q))
      else r.k == None && PolicyAnswer(r.outcome, r.reason) && (r.grant ==> r.outcome == Allow)
  {
    StartHolds();
    RunAnswers(START, run);
    assert After(START, run).log[i] in After(START, run).log;
    assert LogAnswers(After(START, run), After(START, run).log[i]);
  }
}
