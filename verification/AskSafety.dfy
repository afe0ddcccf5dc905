/** Safety of every run of concurrent asks, acts and sweeps. */
module AskSafety {
  import opened Outcomes
  import opened StoreKeys
  import opened ApprovalRecord
  import opened WaitRules
  import opened WaitHistory
  import opened AskProtocol
  import opened AskInvariant

  /** The operation a step asks of the store, if any. */
  function StoreOp(s: System, a: Action): Option<Op> {
    match a
    case Looks(id, now) =>
      if id in s.asks && s.asks[id].Looking? then Some(OpensIfAbsent(s.asks[id].opening, now)) else None
    case TakesClaim(id) =>
      if id in s.asks && s.asks[id].Claiming? then Some(Op.Claims(s.asks[id].k)) else None
    case DropsUnprovided(id) =>
      if id in s.asks && s.asks[id].Dropping? then Some(Abandons(s.asks[id].k)) else None
    case PublishesOpened(id) =>
      if id in s.asks && s.asks[id].Publishing? && Opened(s.asks[id].settled)
      then Some(Publishes(s.asks[id].settled.c.k)) else None
    case SpendsClaimed(id, now) =>
      if id in s.asks && s.asks[id].Spending? && Spends(s.asks[id].settled)
      then Some(Consumes(s.asks[id].settled.c.k, now)) else None
    case GivesBack(id) =>
      if id in s.asks && s.asks[id].Releasing? && Spends(s.asks[id].settled)
      then Some(Releases(s.asks[id].settled.c.k)) else None
    case TakesBack(id) =>
      if id in s.asks && s.asks[id].Withdrawing? && Opened(s.asks[id].settled)
      then Some(Abandons(s.asks[id].settled.c.k)) else None
    case PersonActs(k, person, verdict, text, now) => Some(Resolves(k, person, verdict, text, now))
    case SweepEnds(now) => Some(Expires(now))
    case SweepForgets(now) => Some(Forgets(now))
    case _ => None
  }

  /** A step touches the store through one of its operations, or not at all. */
  ghost predicate StoreOpApplied(s: System, a: Action)
    requires Enabled(s, a) && Consistent(s.waits)
  {
    Next(s, a).waits == match StoreOp(s, a) case Some(op) => Apply(s.waits, op) case None => s.waits
  }

  lemma SettledOpIsApplied(s: System, a: Action)
    requires Enabled(s, a) && Consistent(s.waits)
    requires a.PublishesOpened? || a.SpendsClaimed? || a.GivesBack? || a.TakesBack?
    ensures StoreOpApplied(s, a)
  {
  }

  lemma OwnOpIsApplied(s: System, a: Action)
    requires Enabled(s, a) && Consistent(s.waits)
    requires a.Looks? || a.TakesClaim? || a.DropsUnprovided?
    ensures StoreOpApplied(s, a)
  {
  }

  lemma OtherOpIsApplied(s: System, a: Action)
    requires Enabled(s, a) && Consistent(s.waits)
    requires !(a.PublishesOpened? || a.SpendsClaimed? || a.GivesBack? || a.TakesBack?)
    requires !(a.Looks? || a.TakesClaim? || a.DropsUnprovided?)
    ensures StoreOpApplied(s, a)
  {
  }

  lemma StoreStaysConsistent(s: System, a: Action)
    requires Enabled(s, a) && Consistent(s.waits)
    ensures Consistent(Next(s, a).waits)
  {
    if a.PublishesOpened? || a.SpendsClaimed? || a.GivesBack? || a.TakesBack? {
      SettledOpIsApplied(s, a);
    } else if a.Looks? || a.TakesClaim? || a.DropsUnprovided? {
      OwnOpIsApplied(s, a);
    } else {
      OtherOpIsApplied(s, a);
    }
    if StoreOp(s, a).Some? {
      ApplyConsistent(s.waits, StoreOp(s, a).value);
    }
  }

  lemma ActorHolds(s: System, a: Action, k: Key)
    requires Inv(s) && Enabled(s, a)
    ensures Holding(s, a, k)
  {
    if Actor(a).Some? && Actor(a).value in s.asks {
      assert AskHolds(s.asks[ActorId(a)], ActorId(a), k, At(s, k));
    }
    if a.Looks? {
      var own := KeyOf(s.asks[a.id].opening);
      assert AskHolds(s.asks[a.id], a.id, own, At(s, own)) && KeyHolds(At(s, own), Droppable(s, own));
    }
  }

  lemma KeysStep(s: System, a: Action, k: Key)
    requires Inv(s) && Enabled(s, a)
    ensures KeyHolds(At(Next(s, a), k), Droppable(Next(s, a), k))
  {
    ActorHolds(s, a, k);
    EveryStepChanges(s, a, k);
    DroppableAfter(s, a, k);
    KeyKeeps(At(s, k), At(Next(s, a), k), ActorBefore(s, a), ActorId(a), k, Droppable(s, k), Droppable(Next(s, a), k));
  }

  lemma AsksStep(s: System, a: Action, id: nat, k: Key)
    requires Inv(s) && Enabled(s, a) && id in Next(s, a).asks
    ensures AskHolds(Next(s, a).asks[id], id, k, At(Next(s, a), k)) && WellFormedAsk(Next(s, a).asks[id])
  {
    ActorHolds(s, a, k);
    if Actor(a) == Some(id) {
      ActorAlwaysKeeps(s, a, k);
    } else {
      OnlyTheActorMoves(s, a);
      EveryStepChanges(s, a, k);
      assert AskHolds(s.asks[id], id, k, At(s, k));
      OthersKeep(At(s, k), At(Next(s, a), k), ActorBefore(s, a), ActorId(a), s.asks[id], id, k, Droppable(s, k));
    }
  }

  lemma LogStep(s: System, a: Action)
    requires Inv(s) && Enabled(s, a)
    ensures LogHolds(Next(s, a).log)
  {
    var held := Holds(ActorBefore(s, a));
    ActorHolds(s, a, if held.Some? then held.value else Key("", ""));
    LogAlwaysHolds(s, a);
  }

  lemma InvFrom(t: System)
    requires Consistent(t.waits) && LogHolds(t.log)
    requires forall id, k :: id in t.asks ==> AskHolds(t.asks[id], id, k, At(t, k))
    requires forall id :: id in t.asks ==> WellFormedAsk(t.asks[id])
    requires forall k :: KeyHolds(At(t, k), Droppable(t, k))
    ensures Inv(t)
  {
  }

  /** Every step of every ask, of every person and of the sweep keeps the invariant. */
  lemma StepKeepsInv(s: System, a: Action)
    requires Inv(s) && Enabled(s, a)
    ensures Inv(Next(s, a))
  {
    var t := Next(s, a);
    assert Consistent(t.waits) && LogHolds(t.log) by {
      StoreStaysConsistent(s, a);
      LogStep(s, a);
    }
    forall k ensures KeyHolds(At(t, k), Droppable(t, k)) {
      KeysStep(s, a, k);
    }
    forall id, k | id in t.asks ensures AskHolds(t.asks[id], id, k, At(t, k)) {
      AsksStep(s, a, id, k);
    }
    forall id | id in t.asks ensures WellFormedAsk(t.asks[id]) {
      AsksStep(s, a, id, Key("", ""));
    }
    InvFrom(t);
  }

  // -- whole runs -----------------------------------------------------------------------

  ghost predicate Possible(s: System, run: seq<Action>)
    decreases |run|
  {
    run != [] ==> Enabled(s, run[0]) && Possible(Next(s, run[0]), run[1..])
  }

  ghost function After(s: System, run: seq<Action>): System
    requires Possible(s, run)
    decreases |run|
  {
    if run == [] then s else After(Next(s, run[0]), run[1..])
  }

  lemma {:induction false} RunKeepsInv(s: System, run: seq<Action>)
    requires Inv(s) && Possible(s, run)
    ensures Inv(After(s, run))
    decreases |run|
  {
    if run != [] {
      StepKeepsInv(s, run[0]);
      RunKeepsInv(Next(s, run[0]), run[1..]);
    }
  }

  lemma StartHolds()
    ensures Inv(START)
  {
  }

  /** No approval is used twice: of the allows that committed or may have, at most one in a
      whole run names it, and that one carries no grant. */
  lemma OneAllowPerApproval(run: seq<Action>, i: nat, j: nat)
    requires Possible(START, run) && i < |After(START, run).log| && j < |After(START, run).log|
    requires var log := After(START, run).log;
      log[i].reason == log[j].reason == ApprovalGranted && log[i].k == log[j].k
    ensures i == j && After(START, run).log[i].k.Some? && !After(START, run).log[i].grant
  {
    StartHolds();
    RunKeepsInv(START, run);
    var log := After(START, run).log;
    assert log[i] in log && log[j] in log;
  }

  /** A suspension somebody was told about names a wait that is still in the store, or one
      the sweep dropped at or after its lapse instant; no ask ever withdrew it. */
  lemma ToldWaitIsNeverWithdrawn(run: seq<Action>, i: nat)
    requires Possible(START, run) && i < |After(START, run).log|
    requires After(START, run).log[i].outcome == Suspend && After(START, run).log[i].k.Some?
    ensures var s := After(START, run);
      var k := s.log[i].k.value;
      k in s.waits.byRef ||
      (k in s.forgotten && OfNoFurtherUse(s.forgotten[k].record, s.forgotten[k].at))
  {
    StartHolds();
    RunKeepsInv(START, run);
    var s := After(START, run);
    var k := s.log[i].k.value;
    assert s.log[i] in s.log && k in ToldKeys(s.log);
    assert KeyHolds(At(s, k), Droppable(s, k));
  }

  /** A consumed approval always has its allow in the log. */
  lemma SpentOnlyBehindARecord(run: seq<Action>, k: Key)
    requires Possible(START, run)
    requires k in After(START, run).waits.byRef && After(START, run).waits.byRef[k].consumed
    ensures exists r :: r in After(START, run).log && r.outcome == Allow && r.reason == ApprovalGranted && r.k == Some(k)
  {
    StartHolds();
    RunKeepsInv(START, run);
    var s := After(START, run);
    assert KeyHolds(At(s, k), Droppable(s, k));
    var r :| r in s.log && Granted(r) && r.k.value == k;
  }

  /** No look ever answers an expired record, nor a refusal: the branch of `ask` that raises
      on one is dead. */
  lemma LookNeverFindsAnExpiredWait(run: seq<Action>, id: nat, now: int)
    requires Possible(START, run) && Enabled(After(START, run), Looks(id, now))
    ensures var s := After(START, run);
      var answer := OpenIfAbsent(s.waits, s.asks[id].opening, now).answer;
      answer.Ok? && answer.value.state != Expired
  {
    StartHolds();
    RunKeepsInv(START, run);
    var s := After(START, run);
    ActorHolds(s, Looks(id, now), KeyOf(s.asks[id].opening));
    LookFinds(s.waits, s.asks[id].opening, now);
  }
}
