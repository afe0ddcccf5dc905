/** Runs that show what goes wrong in the outcome log, and so that each condition put on its runs
    elsewhere is needed. */
module OutcomeSchedules {
  import opened OutcomeBound
  import opened OutcomeLog
  import opened OutcomeMarkers
  import opened OutcomeTrace

  // -- the run of a given schedule --------------------------------------------------------------

  function Then(step: Step, rest: seq<Step>): seq<Step> { [step] + rest }

  /** A schedule is run by its first step and then by the rest of it. */
  lemma Next(capacity: nat, t: Trace, step: Step, rest: seq<Step>) returns (u: Trace)
    ensures u == Apply(capacity, t, step)
    ensures Run(capacity, t, Then(step, rest)) == Run(capacity, u, rest)
    ensures OneAtATime(capacity, t, Then(step, rest)) <==> (step.Pops? ==> Out(t) == {}) && OneAtATime(capacity, u, rest)
  {
    u := Apply(capacity, t, step);
    assert Then(step, rest)[1..] == rest;
  }

  lemma {:induction false} RunConcat(capacity: nat, t: Trace, first: seq<Step>, second: seq<Step>)
    ensures Run(capacity, t, first + second) == Run(capacity, Run(capacity, t, first), second)
    ensures OneAtATime(capacity, t, first + second)
      <==> OneAtATime(capacity, t, first) && OneAtATime(capacity, Run(capacity, t, first), second)
    decreases |first|
  {
    if first == [] {
      assert first + second == second;
    } else {
      assert (first + second)[1..] == first[1..] + second;
      RunConcat(capacity, Apply(capacity, t, first[0]), first[1..], second);
    }
  }

  /** Or by a whole undisturbed call and then by the rest. */
  lemma NextRecord(capacity: nat, t: Trace, a: Outcome, rest: seq<Step>) returns (u: Trace)
    requires capacity >= 1 && 0 !in t.makers
    ensures u == t.(held := Made(t.held, capacity, a), appended := t.appended + 1, lost := u.lost, entered := u.entered)
    ensures u.lost == if |t.held.pending| == capacity then t.lost + {Head(t)} else t.lost
    ensures Run(capacity, t, RecordSteps(0, a) + rest) == Run(capacity, u, rest)
    ensures OneAtATime(capacity, t, RecordSteps(0, a) + rest) <==> OneAtATime(capacity, u, rest)
  {
    u := Run(capacity, t, RecordSteps(0, a));
    RunConcat(capacity, t, RecordSteps(0, a), rest);
    RecordIsARun(capacity, t, 0, a);
    WithoutPops(capacity, t, RecordSteps(0, a));
  }

  lemma {:induction false} WithoutPops(capacity: nat, t: Trace, steps: seq<Step>)
    requires NoPops(steps)
    ensures OneAtATime(capacity, t, steps)
    decreases |steps|
  {
    if steps != [] {
      assert !steps[0].Pops? && NoPops(steps[1..]);
      WithoutPops(capacity, Apply(capacity, t, steps[0]), steps[1..]);
    }
  }

  // -- markers that are off ------------------------------------------------------------------------

  function TwoRecords(a: Outcome, rest: seq<Step>): seq<Step> { RecordSteps(0, a) + (RecordSteps(0, a) + rest) }

  lemma AfterTwoRecords(a: Outcome, rest: seq<Step>) returns (t: Trace)
    ensures t == Start().(held := Held(2, 0, [Pending(1, a), Pending(2, a)]), appended := 2, entered := t.entered)
    ensures Run(2, Start(), TwoRecords(a, rest)) == Run(2, t, rest)
    ensures OneAtATime(2, Start(), TwoRecords(a, rest)) <==> OneAtATime(2, t, rest)
  {
    var one := NextRecord(2, Start(), a, RecordSteps(0, a) + rest);
    t := NextRecord(2, one, a, rest);
  }

  function PoppedThenStamped(rest: seq<Step>): seq<Step> { Then(Pops, Then(Stamps(0), rest)) }

  /** The first of a log is popped and stamped, when nothing else waits for its stamp. */
  lemma AfterPopAndStamp(capacity: nat, t: Trace, rest: seq<Step>) returns (u: Trace)
    requires t.held.pending != [] && t.popped == []
    ensures u.inFlight == t.inFlight + [Given(Head(t), Stamp(t.held.pending[0], t.held.dropped))]
    ensures u == t.(held := Popped(t.held), inFlight := u.inFlight, stamped := u.stamped)
    ensures Run(capacity, t, PoppedThenStamped(rest)) == Run(capacity, u, rest)
    ensures OneAtATime(capacity, t, PoppedThenStamped(rest)) <==> Out(t) == {} && OneAtATime(capacity, u, rest)
  {
    u := Next(capacity, t, Pops, Then(Stamps(0), rest));
    assert u.popped == [Taken(Head(t), t.held.pending[0])];
    u := Next(capacity, u, Stamps(0), rest);
  }

  function FirstRefused(): seq<Step> { Then(Refuses(0), Then(Accepts(0), [])) }

  lemma RefusedThenAccepted(t: Trace)
    requires |t.inFlight| == 2
    ensures var u := Run(2, t, FirstRefused());
      u.delivered == t.delivered + [t.inFlight[1]] && u.lost == t.lost + {t.inFlight[0].place}
  {
    var u := Next(2, t, Refuses(0), Then(Accepts(0), []));
    assert u.inFlight == [t.inFlight[1]];
    u := Next(2, u, Accepts(0), []);
  }

  function Overlapping(): seq<Step> { PoppedThenStamped(PoppedThenStamped(FirstRefused())) }

  /** Two records out before two overlapping flushes, the first of them refused after the second
      was stamped: the one delivered declares no gap, although the one before it was lost. */
  lemma OverlappingFlushesUnderReport(a: Outcome)
    ensures var t := Run(2, Start(), TwoRecords(a, Overlapping()));
      t.delivered == [Given(2, Emitted(2, a, 0))] && t.lost == {1}
    ensures !OneAtATime(2, Start(), TwoRecords(a, Overlapping()))
  {
    var t := AfterTwoRecords(a, Overlapping());
    t := AfterPopAndStamp(2, t, PoppedThenStamped(FirstRefused()));
    assert t.inFlight[0].place in GivenPlaces(t.inFlight) && 1 in Out(t);
    t := AfterPopAndStamp(2, t, FirstRefused());
    RefusedThenAccepted(t);
  }

  function FirstAccepted(): seq<Step> { PoppedThenStamped(Then(Accepts(0), [])) }

  /** The first of a log is popped, stamped and accepted. */
  lemma FirstIsAccepted(capacity: nat, t: Trace)
    requires t.held.pending != [] && t.popped == [] && t.inFlight == []
    ensures var u := Run(capacity, t, FirstAccepted());
      u.delivered == t.delivered + [Given(Head(t), Stamp(t.held.pending[0], t.held.dropped))] && u.lost == t.lost
    ensures OneAtATime(capacity, t, FirstAccepted())
  {
    assert Out(t) == {};
    var u := AfterPopAndStamp(capacity, t, Then(Accepts(0), []));
    u := Next(capacity, u, Accepts(0), []);
  }

  function UncountedShed(): seq<Step> { Then(Begins(0), Then(Checks(0), Then(Sheds(0), FirstAccepted()))) }

  /** One flush, and a record caught between shedding the oldest and counting the loss: the one
      delivered declares no gap, although the one before it was just shed. */
  lemma UncountedShedsUnderReport(a: Outcome)
    ensures var t := Run(2, Start(), TwoRecords(a, UncountedShed()));
      t.delivered == [Given(2, Emitted(2, a, 0))] && t.lost == {1}
    ensures OneAtATime(2, Start(), TwoRecords(a, UncountedShed()))
  {
    var t := AfterTwoRecords(a, UncountedShed());
    t := Next(2, t, Begins(0), Then(Checks(0), Then(Sheds(0), FirstAccepted())));
    t := Next(2, t, Checks(0), Then(Sheds(0), FirstAccepted()));
    assert Stands(t, 0, Full);
    t := Next(2, t, Sheds(0), FirstAccepted());
    assert t.held == Held(3, 0, [Pending(2, a)]) && t.lost == {1};
    FirstIsAccepted(2, t);
  }

  function StampedThenAccepted(): seq<Step> { Then(Stamps(0), Then(Accepts(0), [])) }

  lemma StampedLate(capacity: nat, t: Trace)
    requires |t.popped| == 1 && t.inFlight == [] && t.delivered == []
    ensures var u, p := Run(capacity, t, StampedThenAccepted()), t.popped[0];
      u.delivered == [Given(p.place, Stamp(p.item, t.held.dropped))] && u.lost == t.lost
    ensures OneAtATime(capacity, t, StampedThenAccepted())
  {
    var u := Next(capacity, t, Stamps(0), Then(Accepts(0), []));
    u := Next(capacity, u, Accepts(0), []);
  }

  function TwoMore(a: Outcome): seq<Step> { TwoRecords(a, StampedThenAccepted()) }

  lemma AfterTwoMore(a: Outcome, t: Trace) returns (u: Trace)
    requires t.makers == map[] && t.held == Held(1, 0, []) && t.appended == 1
    ensures u == t.(held := Held(3, 1, [Pending(3, a)]), appended := 3, lost := t.lost + {2}, entered := u.entered)
    ensures Run(1, t, TwoMore(a)) == Run(1, u, StampedThenAccepted())
    ensures OneAtATime(1, t, TwoMore(a)) <==> OneAtATime(1, u, StampedThenAccepted())
  {
    u := NextRecord(1, t, a, RecordSteps(0, a) + StampedThenAccepted());
    assert u.held == Held(2, 0, [Pending(2, a)]);
    u := NextRecord(1, u, a, StampedThenAccepted());
  }

  /** One flush, and two records made between its pop and its stamp in a log with room for one:
      the first record ever made declares a loss before it, although only a later one was lost. */
  lemma LateStampsOverReport(a: Outcome)
    ensures var t := Run(1, Start(), RecordSteps(0, a) + Then(Pops, TwoMore(a)));
      t.delivered == [Given(1, Emitted(1, a, 1))] && t.lost == {2}
    ensures OneAtATime(1, Start(), RecordSteps(0, a) + Then(Pops, TwoMore(a)))
  {
    var t := NextRecord(1, Start(), a, Then(Pops, TwoMore(a)));
    assert Out(t) == {};
    t := Next(1, t, Pops, TwoMore(a));
    assert t.popped == [Taken(1, Pending(1, a))] && t.held.pending == [];
    t := AfterTwoMore(a, t);
    StampedLate(1, t);
  }

  // -- a record that raises --------------------------------------------------------------------------

  function EmptiedByAFlush(): seq<Step> { Then(Begins(0), Then(Checks(0), Then(Pops, Then(Sheds(0), [])))) }

  /** A flush empties a log of one between the look of a record and its shed: the record raises,
      and no loss is counted for it. */
  lemma AFlushMakesARecordRaise(a: Outcome)
    ensures var t := Run(1, Start(), RecordSteps(0, a) + EmptiedByAFlush());
      t.raised == 1 && t.makers == map[] && t.held == Held(2, 0, []) && t.lost == {}
    ensures OneAtATime(1, Start(), RecordSteps(0, a) + EmptiedByAFlush())
  {
    var t := NextRecord(1, Start(), a, EmptiedByAFlush());
    t := Next(1, t, Begins(0), Then(Checks(0), Then(Pops, Then(Sheds(0), []))));
    t := Next(1, t, Checks(0), Then(Pops, Then(Sheds(0), [])));
    assert Stands(t, 0, Full) && Out(t) == {};
    t := Next(1, t, Pops, Then(Sheds(0), []));
    t := Next(1, t, Sheds(0), []);
  }

  function BothBegin(rest: seq<Step>): seq<Step> { Then(Begins(1), Then(Begins(2), rest)) }

  function BothLook(rest: seq<Step>): seq<Step> { BothBegin(Then(Checks(1), Then(Checks(2), rest))) }

  lemma AfterBothBegin(t: Trace, rest: seq<Step>) returns (u: Trace)
    requires t.makers == map[]
    ensures u == t.(held := t.held.(sequence := t.held.sequence + 2), makers := map[1 := Begun, 2 := Begun])
    ensures Run(1, t, BothBegin(rest)) == Run(1, u, rest)
  {
    u := Next(1, t, Begins(1), Then(Begins(2), rest));
    assert u.makers == map[1 := Begun];
    u := Next(1, u, Begins(2), rest);
    assert u.makers == map[1 := Begun, 2 := Begun];
  }

  lemma AfterBothLook(t: Trace, found: Stage, rest: seq<Step>) returns (u: Trace)
    requires t.makers == map[] && found == if |t.held.pending| == 1 then Full else Room
    ensures u == t.(held := t.held.(sequence := t.held.sequence + 2), makers := map[1 := found, 2 := found])
    ensures Run(1, t, BothLook(rest)) == Run(1, u, rest)
  {
    u := AfterBothBegin(t, Then(Checks(1), Then(Checks(2), rest)));
    u := Next(1, u, Checks(1), Then(Checks(2), rest));
    assert u.makers == map[1 := found, 2 := Begun];
    u := Next(1, u, Checks(2), rest);
    assert u.makers == map[1 := found, 2 := found];
  }

  function BothShed(): seq<Step> { Then(Sheds(1), Then(Sheds(2), [])) }

  lemma TheSecondRaises(t: Trace)
    requires t.makers == map[1 := Full, 2 := Full] && |t.held.pending| == 1
    ensures var u := Run(1, t, BothShed());
      u.raised == t.raised + 1 && u.makers == map[1 := Shed] && u.held == Popped(t.held) && u.lost == t.lost + {Head(t)}
  {
    var u := Next(1, t, Sheds(1), Then(Sheds(2), []));
    assert u.held.pending == [] && Stands(u, 2, Full);
    u := Next(1, u, Sheds(2), []);
    assert u.makers == map[1 := Shed];
  }

  lemma NoneOfThemFlushes(a: Outcome)
    ensures NoPops(RecordSteps(0, a) + BothLook(BothShed()))
  {
  }

  /** Two records find full a log of one, and the second raises where no flush takes anything. */
  lemma ARecordMakesAnotherRaise(a: Outcome)
    ensures var t := Run(1, Start(), RecordSteps(0, a) + BothLook(BothShed()));
      t.raised == 1 && t.makers == map[1 := Shed] && t.held == Held(3, 0, []) && t.lost == {1}
    ensures NoPops(RecordSteps(0, a) + BothLook(BothShed()))
  {
    NoneOfThemFlushes(a);
    var t := NextRecord(1, Start(), a, BothLook(BothShed()));
    t := AfterBothLook(t, Full, BothShed());
    TheSecondRaises(t);
  }

  // -- the bound exceeded ------------------------------------------------------------------------------

  function BothAppend(a: Outcome, rest: seq<Step>): seq<Step> { Then(Appends(1, a), Then(Appends(2, a), rest)) }

  /** Two records find room for one: the log holds both, under one sequence; and a third made after
      them is held as well, nothing having been shed. */
  lemma TwoOverfillALogOfOne(a: Outcome)
    ensures Run(1, Start(), BothLook(BothAppend(a, []))).held == Held(2, 0, [Pending(2, a), Pending(2, a)])
    ensures Run(1, Start(), BothLook(BothAppend(a, RecordSteps(0, a) + []))).held
         == Held(3, 0, [Pending(2, a), Pending(2, a), Pending(3, a)])
  {
    var two := AfterBothAppend(a, []);
    two := AfterBothAppend(a, RecordSteps(0, a) + []);
    var three := NextRecord(1, two, a, []);
  }

  lemma AfterBothAppend(a: Outcome, rest: seq<Step>) returns (t: Trace)
    ensures t.held == Held(2, 0, [Pending(2, a), Pending(2, a)]) && t.makers == map[]
    ensures Run(1, Start(), BothLook(BothAppend(a, rest))) == Run(1, t, rest)
  {
    t := AfterBothLook(Start(), Room, BothAppend(a, rest));
    t := Next(1, t, Appends(1, a), Then(Appends(2, a), rest));
    assert t.held.pending == [Pending(2, a)] && Stands(t, 2, Room);
    t := Next(1, t, Appends(2, a), rest);
  }
}
