/** Nothing is left behind: while no ask breaks off, every wait nobody was told of has the ask that
    opened it still under way, and every execution claimed and unspent the ask that claimed it. */
module AskSettles {
  import opened Outcomes
  import opened StoreKeys
  import opened ApprovalRecord
  import opened WaitRules
  import opened WaitActs
  import opened AskProtocol
  import opened AskInvariant
  import opened AskSafety

  /** The wait an ask opened and has still to publish or to withdraw. */
  function Tends(p: Ask): Option<Key> {
    if p.Publishing? && Opened(p.settled) then Some(p.settled.c.k) else MayDrop(p)
  }

  /** The execution an ask claimed and has still to spend or to give back. */
  function Owes(p: Ask): Option<Key> { if MustSpend(p).Some? then MustSpend(p) else Holds(p) }

  predicate Untold(a: Approval) { a.state == Pending && !a.published }

  predicate Unspent(a: Approval) { a.claimed && !a.consumed }

  ghost predicate Tended(s: System, k: Key) {
    k in s.minter && s.minter[k] in s.asks && Tends(s.asks[s.minter[k]]) == Some(k)
  }

  ghost predicate Owed(s: System, k: Key) {
    k in s.claimant && s.claimant[k] in s.asks && Owes(s.asks[s.claimant[k]]) == Some(k)
  }

  ghost predicate NothingLeft(s: System, k: Key) {
    k in s.waits.byRef ==>
      && (Untold(s.waits.byRef[k]) ==> Tended(s, k))
      && (Unspent(s.waits.byRef[k]) ==> Owed(s, k))
  }

  /** A step that breaks no ask off, and dates no spend before the act it spends. */
  ghost predicate Orderly(s: System, a: Action)
    requires Enabled(s, a)
  {
    && !a.Stops?
    && (a.SpendsClaimed? && Spends(s.asks[a.id].settled) ==>
      var k := s.asks[a.id].settled.c.k;
      k in s.waits.byRef && s.waits.byRef[k].resolvedAt.Some? ==> s.waits.byRef[k].resolvedAt.value <= a.now)
  }

  // -- where each step of a settled ask leads ------------------------------------------------------------

  lemma AppendLeadsTo(s: System, a: Action)
    requires Enabled(s, a) && a.Appends?
    ensures var settled := s.asks[a.id].settled;
      Next(s, a).asks[a.id] == if a.append == RefusedBeforeTheFirstByte then Releasing(settled) else Publishing(settled)
  {
  }

  lemma PublishingLeadsTo(s: System, a: Action)
    requires Enabled(s, a) && a.PublishesOpened?
    ensures Next(s, a).asks[a.id] == Spending(s.asks[a.id].settled)
  {
  }

  lemma GivingBackLeadsTo(s: System, a: Action)
    requires Enabled(s, a) && a.GivesBack?
    ensures Next(s, a).asks[a.id] == Withdrawing(s.asks[a.id].settled)
  {
  }

  lemma ProviderLeadsTo(s: System, a: Action)
    requires Enabled(s, a) && a.PutsToProvider?
    ensures Tends(Next(s, a).asks[a.id]) == Tends(s.asks[a.id])
  {
  }

  // -- the wait an ask opened ------------------------------------------------------------------------

  lemma OpenedIsPublishedOrWithdrawn(s: System, a: Action, k: Key)
    requires Enabled(s, a)
    requires a.DropsUnprovided? || a.PublishesOpened? || a.TakesBack?
    requires Tends(s.asks[a.id]) == Some(k)
    ensures k in Next(s, a).waits.byRef ==> !Untold(Next(s, a).waits.byRef[k])
  {
    WithdrawalIsTakenExactly(s.waits, k);
    PublishIsTakenExactly(s.waits, k);
  }

  lemma TendingGoesOn(s: System, a: Action, k: Key)
    requires Enabled(s, a) && (a.PutsToProvider? || a.Appends? || a.GivesBack?) && Tends(s.asks[a.id]) == Some(k)
    ensures Tends(Next(s, a).asks[a.id]) == Some(k)
  {
    if a.PutsToProvider? {
      ProviderLeadsTo(s, a);
    } else if a.Appends? {
      AppendLeadsTo(s, a);
    } else {
      GivingBackLeadsTo(s, a);
    }
  }

  /** The steps an ask can take while it tends a wait. */
  lemma TendersSteps(s: System, a: Action)
    requires Enabled(s, a) && Actor(a).Some? && Actor(a).value in s.asks && Tends(s.asks[Actor(a).value]).Some?
    ensures a.PutsToProvider? || a.Appends? || a.GivesBack?
      || a.DropsUnprovided? || a.PublishesOpened? || a.TakesBack? || a.Stops?
  {
  }

  lemma UntoldStoodOrIsKept(l: Local, m: Local, p: Ask, id: nat, k: Key)
    requires Changed(l, m, p, id, k)
    requires m.record.Some? && m.record.value.state == Pending && !m.record.value.published
    ensures (l.record.Some? && l.record.value.state == Pending && !l.record.value.published)
      || (IsKept(l, m, p, k) && m.kept)
  {
  }

  lemma UntoldWasOrIsNew(s: System, a: Action, k: Key)
    requires Enabled(s, a) && Inv(s) && k in Next(s, a).waits.byRef && Untold(Next(s, a).waits.byRef[k])
    ensures (k in s.waits.byRef && Untold(s.waits.byRef[k])) || (a.Looks? && Offers(s.asks[a.id]) == Some(k) && k !in s.waits.byRef)
  {
    ChangesHold(s, a, k);
    UntoldStoodOrIsKept(At(s, k), At(Next(s, a), k), ActorBefore(s, a), ActorId(a), k);
    OnlyLooksKeep(s, a, k);
    if Actor(a).Some? && Actor(a).value in s.asks {
      assert AskHolds(s.asks[Actor(a).value], Actor(a).value, k, At(s, k));
    }
  }

  lemma ChangesHold(s: System, a: Action, k: Key)
    requires Enabled(s, a) && Inv(s)
    ensures Changed(At(s, k), At(Next(s, a), k), ActorBefore(s, a), ActorId(a), k)
  {
    ActorHolds(s, a, k);
    EveryStepChanges(s, a, k);
  }

  lemma OnlyLooksKeep(s: System, a: Action, k: Key)
    requires Enabled(s, a) && Inv(s)
    ensures k in Next(s, a).everKept && k !in s.everKept ==> a.Looks?
  {
  }

  lemma OpeningIsTended(s: System, a: Action, k: Key)
    requires Enabled(s, a) && Inv(s) && a.Looks? && Offers(s.asks[a.id]) == Some(k)
    requires k !in s.waits.byRef && k in Next(s, a).waits.byRef
    ensures Tended(Next(s, a), k)
  {
    ActorHolds(s, a, k);
    LookFinds(s.waits, s.asks[a.id].opening, a.now);
  }

  lemma TenderTends(s: System, a: Action, k: Key)
    requires Enabled(s, a) && Orderly(s, a) && Tended(s, k) && Actor(a) == Some(s.minter[k])
    requires k in Next(s, a).waits.byRef && Untold(Next(s, a).waits.byRef[k])
    ensures a.id in Next(s, a).asks && Tends(Next(s, a).asks[a.id]) == Some(k)
  {
    TendersSteps(s, a);
    if a.DropsUnprovided? || a.PublishesOpened? || a.TakesBack? {
      OpenedIsPublishedOrWithdrawn(s, a, k);
    } else {
      TendingGoesOn(s, a, k);
    }
  }

  lemma StepTends(s: System, a: Action, k: Key)
    requires Enabled(s, a) && Inv(s) && Orderly(s, a) && NothingLeft(s, k)
    requires k in Next(s, a).waits.byRef && Untold(Next(s, a).waits.byRef[k])
    ensures Tended(Next(s, a), k)
  {
    UntoldWasOrIsNew(s, a, k);
    if k in s.waits.byRef {
      TendedStaysTended(s, a, k);
    } else {
      OpeningIsTended(s, a, k);
    }
  }

  lemma TendedStaysTended(s: System, a: Action, k: Key)
    requires Enabled(s, a) && Orderly(s, a) && Tended(s, k)
    requires k in Next(s, a).waits.byRef && Untold(Next(s, a).waits.byRef[k])
    ensures Tended(Next(s, a), k)
  {
    OnlyTheActorMoves(s, a);
    MinterStays(s, a, k);
    if Actor(a) == Some(s.minter[k]) { TenderTends(s, a, k); }
  }

  lemma MinterStays(s: System, a: Action, k: Key)
    requires Enabled(s, a) && k in s.minter
    ensures k in Next(s, a).minter && Next(s, a).minter[k] == s.minter[k]
  {
    OnlyTheActorMoves(s, a);
  }

  // -- the execution an ask claimed ---------------------------------------------------------------------

  lemma OwedIsSpentOrGivenBack(s: System, a: Action, k: Key)
    requires Enabled(s, a) && Orderly(s, a) && (a.SpendsClaimed? || a.GivesBack?)
    requires Owes(s.asks[a.id]) == Some(k) && k in s.waits.byRef && Unspent(s.waits.byRef[k])
    ensures k in Next(s, a).waits.byRef ==> !Unspent(Next(s, a).waits.byRef[k])
  {
    if a.SpendsClaimed? {
      SpendIsTakenExactly(s.waits, k, a.now);
    } else {
      GivingBackUndoesAClaim(s.waits, k);
    }
  }

  lemma OwingGoesOn(s: System, a: Action, k: Key)
    requires Enabled(s, a) && (a.Appends? || a.PublishesOpened?) && Owes(s.asks[a.id]) == Some(k)
    ensures Owes(Next(s, a).asks[a.id]) == Some(k)
  {
    if a.Appends? { AppendLeadsTo(s, a); } else { PublishingLeadsTo(s, a); }
  }

  /** The steps an ask can take while it owes an execution. */
  lemma OwersSteps(s: System, a: Action)
    requires Enabled(s, a) && Actor(a).Some? && Actor(a).value in s.asks && Owes(s.asks[Actor(a).value]).Some?
    ensures a.Appends? || a.PublishesOpened? || a.SpendsClaimed? || a.GivesBack? || a.Stops?
  {
  }

  lemma UnspentStoodOrIsClaimed(l: Local, m: Local, p: Ask, id: nat, k: Key)
    requires Changed(l, m, p, id, k)
    requires m.record.Some? && m.record.value.claimed && !m.record.value.consumed
    ensures (l.record.Some? && l.record.value.claimed && !l.record.value.consumed)
      || (IsClaimed(l, m, p, id) && m.claimant == Some(id))
  {
  }

  lemma ClaimingIsClaim(s: System, a: Action, k: Key)
    requires Enabled(s, a) && a.TakesClaim? && k in Next(s, a).waits.byRef && Next(s, a).waits.byRef[k].claimed
    requires k !in s.waits.byRef || !s.waits.byRef[k].claimed
    ensures k in Next(s, a).claimant && Next(s, a).claimant[k] == a.id
    ensures Next(s, a).asks[a.id].Deciding? && Owes(Next(s, a).asks[a.id]) == Some(k)
  {
    ClaimIsTakenExactly(s.waits, s.asks[a.id].k);
  }

  lemma OnlyClaimersClaim(s: System, a: Action)
    requires Enabled(s, a) && ActorBefore(s, a).Claiming?
    ensures a.TakesClaim? || (a.Stops? && Next(s, a).waits == s.waits)
  {
  }

  lemma UnspentWasOrIsClaimed(s: System, a: Action, k: Key)
    requires Enabled(s, a) && Inv(s) && k in Next(s, a).waits.byRef && Unspent(Next(s, a).waits.byRef[k])
    ensures (k in s.waits.byRef && Unspent(s.waits.byRef[k]))
      || (a.TakesClaim? && k in Next(s, a).claimant && Next(s, a).claimant[k] == a.id
          && Next(s, a).asks[a.id].Deciding? && Owes(Next(s, a).asks[a.id]) == Some(k))
  {
    ChangesHold(s, a, k);
    UnspentStoodOrIsClaimed(At(s, k), At(Next(s, a), k), ActorBefore(s, a), ActorId(a), k);
    if ActorBefore(s, a).Claiming? {
      OnlyClaimersClaim(s, a);
      if a.TakesClaim? && !(k in s.waits.byRef && s.waits.byRef[k].claimed) { ClaimingIsClaim(s, a, k); }
    }
  }

  lemma ClaimantMoves(s: System, a: Action)
    requires Enabled(s, a) && !a.TakesClaim?
    ensures Next(s, a).claimant == s.claimant
  {
  }

  lemma ClaimantStays(s: System, a: Action, k: Key)
    requires Enabled(s, a) && k in s.waits.byRef && s.waits.byRef[k].claimed && k in s.claimant
    ensures k in Next(s, a).claimant && Next(s, a).claimant[k] == s.claimant[k]
  {
    if a.TakesClaim? { ClaimIsTakenExactly(s.waits, s.asks[a.id].k); } else { ClaimantMoves(s, a); }
  }

  lemma OwerOwes(s: System, a: Action, k: Key)
    requires Enabled(s, a) && Orderly(s, a) && Owed(s, k) && Actor(a) == Some(s.claimant[k])
    requires k in s.waits.byRef && Unspent(s.waits.byRef[k])
    requires k in Next(s, a).waits.byRef && Unspent(Next(s, a).waits.byRef[k])
    ensures a.id in Next(s, a).asks && Owes(Next(s, a).asks[a.id]) == Some(k)
  {
    OwersSteps(s, a);
    if a.SpendsClaimed? || a.GivesBack? {
      OwedIsSpentOrGivenBack(s, a, k);
    } else {
      OwingGoesOn(s, a, k);
    }
  }

  lemma OwedStaysOwed(s: System, a: Action, k: Key)
    requires Enabled(s, a) && Orderly(s, a) && Owed(s, k) && k in s.waits.byRef && Unspent(s.waits.byRef[k])
    requires k in Next(s, a).waits.byRef && Unspent(Next(s, a).waits.byRef[k])
    ensures Owed(Next(s, a), k)
  {
    OnlyTheActorMoves(s, a);
    ClaimantStays(s, a, k);
    if Actor(a) == Some(s.claimant[k]) { OwerOwes(s, a, k); }
  }

  lemma StepOwes(s: System, a: Action, k: Key)
    requires Enabled(s, a) && Inv(s) && Orderly(s, a) && NothingLeft(s, k)
    requires k in Next(s, a).waits.byRef && Unspent(Next(s, a).waits.byRef[k])
    ensures Owed(Next(s, a), k)
  {
    UnspentWasOrIsClaimed(s, a, k);
    if k in s.waits.byRef && Unspent(s.waits.byRef[k]) { OwedStaysOwed(s, a, k); }
  }

  // -- whole runs ------------------------------------------------------------------------------------

  ghost predicate AllOrderly(s: System, run: seq<Action>)
    requires Possible(s, run)
    decreases |run|
  {
    run != [] ==> Orderly(s, run[0]) && AllOrderly(Next(s, run[0]), run[1..])
  }

  lemma StepLeavesNothing(s: System, a: Action, k: Key)
    requires Enabled(s, a) && Inv(s) && Orderly(s, a) && NothingLeft(s, k)
    ensures NothingLeft(Next(s, a), k)
  {
    if k in Next(s, a).waits.byRef {
      if Untold(Next(s, a).waits.byRef[k]) { StepTends(s, a, k); }
      if Unspent(Next(s, a).waits.byRef[k]) { StepOwes(s, a, k); }
    }
  }

  lemma {:induction false} RunLeavesNothing(s: System, run: seq<Action>, k: Key)
    requires Inv(s) && Possible(s, run) && AllOrderly(s, run) && NothingLeft(s, k)
    ensures NothingLeft(After(s, run), k)
    decreases |run|
  {
    if run != [] {
      StepKeepsInv(s, run[0]);
      StepLeavesNothing(s, run[0], k);
      RunLeavesNothing(Next(s, run[0]), run[1..], k);
    }
  }

  /** In every orderly run, whatever overlaps: a wait nobody was told of is being tended by the ask
      that opened it, and a claimed execution is owed by the ask that claimed it. So once every ask
      is over, every open wait has been published, and every execution claimed has been spent. */
  lemma NothingIsLeftBehind(run: seq<Action>, k: Key)
    requires Possible(START, run) && AllOrderly(START, run) && k in After(START, run).waits.byRef
    ensures var s := After(START, run);
      && (Untold(s.waits.byRef[k]) ==> Tended(s, k))
      && (Unspent(s.waits.byRef[k]) ==> Owed(s, k))
      && ((forall id :: id in s.asks ==> s.asks[id] == Over) ==> !Untold(s.waits.byRef[k]) && !Unspent(s.waits.byRef[k]))
  {
    StartHolds();
    RunLeavesNothing(START, run, k);
  }
}
