/** When the log stays within its capacity, and when making a record raises, with any number of
    records and flushes under way. */
module OutcomeBound {
  import opened OutcomeLog
  import opened OutcomeTrace

  // -- counting those under way -----------------------------------------------------------------

  function Standing(makers: map<nat, Stage>, stages: set<Stage>): set<nat> {
    set id | id in makers && makers[id] in stages
  }

  function OneIf(b: bool): nat { if b then 1 else 0 }

  lemma StandingMoves(makers: map<nat, Stage>, stages: set<Stage>, id: nat, stage: Stage)
    requires id in makers
    ensures |Standing(makers[id := stage], stages)| + OneIf(makers[id] in stages)
         == |Standing(makers, stages)| + OneIf(stage in stages)
    ensures |Standing(makers - {id}, stages)| + OneIf(makers[id] in stages) == |Standing(makers, stages)|
  {
    var before, others := Standing(makers, stages), Standing(makers - {id}, stages);
    assert before == if makers[id] in stages then others + {id} else others;
    assert Standing(makers[id := stage], stages) == if stage in stages then others + {id} else others;
  }

  lemma StandingBegins(makers: map<nat, Stage>, stages: set<Stage>, id: nat)
    requires id !in makers && Begun !in stages
    ensures Standing(makers[id := Begun], stages) == Standing(makers, stages)
  {
  }

  /** Those that have found room or made it, and are still to be appended. */
  function ToCome(t: Trace): nat { |Standing(t.makers, {Shed, Room})| }

  /** Those that have found none, and are still to shed. */
  function ToShed(t: Trace): nat { |Standing(t.makers, {Full})| }

  predicate FindsRoom(capacity: nat, t: Trace, step: Step) {
    step.Checks? && Stands(t, step.id, Begun) && |t.held.pending| != capacity
  }

  predicate FindsNone(capacity: nat, t: Trace, step: Step) {
    step.Checks? && Stands(t, step.id, Begun) && |t.held.pending| == capacity
  }

  predicate Adds(t: Trace, step: Step) { step.Appends? && Stands(t, step.id, Room) }

  predicate Raises(t: Trace, step: Step) { step.Sheds? && Stands(t, step.id, Full) && t.held.pending == [] }

  /** Whatever takes a record off the log: a flush, or another record that sheds it. */
  predicate Removes(t: Trace, step: Step) {
    t.held.pending != [] && (step.Pops? || (step.Sheds? && Stands(t, step.id, Full)))
  }

  lemma PendingMoves(capacity: nat, t: Trace, step: Step)
    ensures var u := Apply(capacity, t, step);
      && |u.held.pending| + OneIf(Removes(t, step)) == |t.held.pending| + OneIf(Adds(t, step))
      && u.raised == t.raised + OneIf(Raises(t, step))
  {
  }

  /** Only a look that finds room adds to what is held and to come; only a flush takes from it. */
  lemma ToComeMoves(capacity: nat, t: Trace, step: Step)
    ensures var u := Apply(capacity, t, step);
      |u.held.pending| + ToCome(u) + OneIf(step.Pops? && t.held.pending != [])
      == |t.held.pending| + ToCome(t) + OneIf(FindsRoom(capacity, t, step))
  {
    if OfAMaker(step) {
      MakerToCome(capacity, t, step);
    }
  }

  lemma MakerToCome(capacity: nat, t: Trace, step: Step)
    requires OfAMaker(step)
    ensures var u := Apply(capacity, t, step);
      |u.held.pending| + ToCome(u) == |t.held.pending| + ToCome(t) + OneIf(FindsRoom(capacity, t, step))
  {
    var id, stages := step.id, {Shed, Room};
    if id !in t.makers {
      StandingBegins(t.makers, stages, id);
    } else {
      StandingMoves(t.makers, stages, id, Shed);
      StandingMoves(t.makers, stages, id, Full);
      StandingMoves(t.makers, stages, id, Room);
    }
  }

  /** A look that finds none makes one more to shed; a shed, with or without a raise, one less. */
  lemma ToShedMoves(capacity: nat, t: Trace, step: Step)
    ensures var u := Apply(capacity, t, step);
      ToShed(u) + OneIf(step.Sheds? && Stands(t, step.id, Full)) == ToShed(t) + OneIf(FindsNone(capacity, t, step))
  {
    if OfAMaker(step) {
      var id, stages := step.id, {Full};
      if id !in t.makers {
        StandingBegins(t.makers, stages, id);
      } else {
        StandingMoves(t.makers, stages, id, Shed);
        StandingMoves(t.makers, stages, id, Full);
        StandingMoves(t.makers, stages, id, Room);
      }
    }
  }

  // -- the bound --------------------------------------------------------------------------------

  ghost predicate WithinThroughout(capacity: nat, t: Trace, steps: seq<Step>)
    decreases |steps|
  {
    && |t.held.pending| <= capacity
    && (steps != [] ==> WithinThroughout(capacity, Apply(capacity, t, steps[0]), steps[1..]))
  }

  ghost predicate NoAppendToAFullLog(capacity: nat, t: Trace, steps: seq<Step>)
    decreases |steps|
  {
    steps != [] ==>
      && !(Adds(t, steps[0]) && |t.held.pending| == capacity)
      && NoAppendToAFullLog(capacity, Apply(capacity, t, steps[0]), steps[1..])
  }

  /** The log stays within its capacity if and only if nothing is appended to a full one. */
  lemma {:induction false} WithinBoundExactly(capacity: nat, t: Trace, steps: seq<Step>)
    requires |t.held.pending| <= capacity
    ensures WithinThroughout(capacity, t, steps) <==> NoAppendToAFullLog(capacity, t, steps)
    decreases |steps|
  {
    if steps != [] {
      var u := Apply(capacity, t, steps[0]);
      PendingMoves(capacity, t, steps[0]);
      if |u.held.pending| <= capacity {
        WithinBoundExactly(capacity, u, steps[1..]);
      } else {
        assert !WithinThroughout(capacity, u, steps[1..]);
      }
    }
  }

  /** What is held and what is to come fit, in every state the run goes through. */
  ghost predicate FitsThroughout(capacity: nat, t: Trace, steps: seq<Step>)
    decreases |steps|
  {
    && |t.held.pending| + ToCome(t) <= capacity
    && (steps != [] ==> FitsThroughout(capacity, Apply(capacity, t, steps[0]), steps[1..]))
  }

  /** Every look that finds room finds it left by those to come as well. */
  ghost predicate LooksCountThoseToCome(capacity: nat, t: Trace, steps: seq<Step>)
    decreases |steps|
  {
    steps != [] ==>
      && (FindsRoom(capacity, t, steps[0]) ==> |t.held.pending| + ToCome(t) < capacity)
      && LooksCountThoseToCome(capacity, Apply(capacity, t, steps[0]), steps[1..])
  }

  /** A condition at the look: no moment of a run leaves more to hold than there is room for, if
      and only if each look that finds room finds fewer than `capacity` held and to come. */
  lemma {:induction false} FitsExactly(capacity: nat, t: Trace, steps: seq<Step>)
    requires |t.held.pending| + ToCome(t) <= capacity
    ensures FitsThroughout(capacity, t, steps) <==> LooksCountThoseToCome(capacity, t, steps)
    ensures FitsThroughout(capacity, t, steps) ==> WithinThroughout(capacity, t, steps)
    decreases |steps|
  {
    if steps != [] {
      var u := Apply(capacity, t, steps[0]);
      ToComeMoves(capacity, t, steps[0]);
      if |u.held.pending| + ToCome(u) <= capacity {
        FitsExactly(capacity, u, steps[1..]);
      } else {
        assert !FitsThroughout(capacity, u, steps[1..]);
      }
    }
  }

  predicate NoLooks(steps: seq<Step>) { forall i :: 0 <= i < |steps| ==> !steps[i].Checks? }

  lemma {:induction false} WithoutLooksItFits(capacity: nat, t: Trace, steps: seq<Step>)
    requires NoLooks(steps)
    ensures |Run(capacity, t, steps).held.pending| <= |t.held.pending| + ToCome(t)
    decreases |steps|
  {
    if steps != [] {
      assert !steps[0].Checks? && NoLooks(steps[1..]);
      ToComeMoves(capacity, t, steps[0]);
      WithoutLooksItFits(capacity, Apply(capacity, t, steps[0]), steps[1..]);
    }
  }

  /** Whoever is to come counts its loss, if it has one to count, and is appended. */
  lemma OneComes(capacity: nat, t: Trace, id: nat, outcome: Outcome)
    requires id in Standing(t.makers, {Shed, Room})
    ensures var u := Apply(capacity, Apply(capacity, t, Counts(id)), Appends(id, outcome));
      |u.held.pending| == |t.held.pending| + 1 && ToCome(u) == ToCome(t) - 1
  {
    var counted := Apply(capacity, t, Counts(id));
    assert Adds(counted, Appends(id, outcome));
    ToComeMoves(capacity, t, Counts(id));
    PendingMoves(capacity, t, Counts(id));
    ToComeMoves(capacity, counted, Appends(id, outcome));
    PendingMoves(capacity, counted, Appends(id, outcome));
  }

  lemma RunTwo(capacity: nat, t: Trace, a: Step, b: Step, rest: seq<Step>)
    ensures Run(capacity, t, [a, b] + rest) == Run(capacity, Apply(capacity, Apply(capacity, t, a), b), rest)
  {
    assert ([a, b] + rest)[1..] == [b] + rest && ([b] + rest)[1..] == rest;
  }

  /** Everyone to come is appended. */
  lemma {:induction false} AllCome(capacity: nat, t: Trace, outcome: Outcome) returns (steps: seq<Step>)
    ensures NoLooks(steps) && |Run(capacity, t, steps).held.pending| == |t.held.pending| + ToCome(t)
    decreases ToCome(t)
  {
    if ToCome(t) == 0 {
      steps := [];
    } else {
      var id :| id in Standing(t.makers, {Shed, Room});
      OneComes(capacity, t, id, outcome);
      var rest := AllCome(capacity, Apply(capacity, Apply(capacity, t, Counts(id)), Appends(id, outcome)), outcome);
      RunTwo(capacity, t, Counts(id), Appends(id, outcome), rest);
      steps := [Counts(id), Appends(id, outcome)] + rest;
    }
  }

  /** And the condition is about what is reachable: from any state, some run overfills the log with
      no further look if and only if more is held and to come than there is room for. */
  lemma OverfilledExactly(capacity: nat, t: Trace, outcome: Outcome)
    ensures (exists steps :: NoLooks(steps) && |Run(capacity, t, steps).held.pending| > capacity)
      <==> |t.held.pending| + ToCome(t) > capacity
  {
    forall steps | NoLooks(steps) ensures |Run(capacity, t, steps).held.pending| <= |t.held.pending| + ToCome(t) {
      WithoutLooksItFits(capacity, t, steps);
    }
    var all := AllCome(capacity, t, outcome);
    assert NoLooks(all);
  }

  // -- past the bound ----------------------------------------------------------------------------

  function AppendsIn(capacity: nat, t: Trace, steps: seq<Step>): nat
    decreases |steps|
  {
    if steps == [] then 0 else OneIf(Adds(t, steps[0])) + AppendsIn(capacity, Apply(capacity, t, steps[0]), steps[1..])
  }

  function RemovalsIn(capacity: nat, t: Trace, steps: seq<Step>): nat
    decreases |steps|
  {
    if steps == [] then 0 else OneIf(Removes(t, steps[0])) + RemovalsIn(capacity, Apply(capacity, t, steps[0]), steps[1..])
  }

  /** What is held is what was, and what was appended, less what was removed. */
  lemma {:induction false} HeldIsAppendedLessRemoved(capacity: nat, t: Trace, steps: seq<Step>)
    ensures |Run(capacity, t, steps).held.pending| + RemovalsIn(capacity, t, steps)
         == |t.held.pending| + AppendsIn(capacity, t, steps)
    decreases |steps|
  {
    if steps != [] {
      PendingMoves(capacity, t, steps[0]);
      HeldIsAppendedLessRemoved(capacity, Apply(capacity, t, steps[0]), steps[1..]);
    }
  }

  /** A flush that saw a record in the log finds none to take, and raises, if and only if everything
      held then and all appended since was removed before its pop. */
  lemma FlushRaisesExactly(capacity: nat, t: Trace, meanwhile: seq<Step>)
    requires t.held.pending != []
    ensures Run(capacity, t, meanwhile).held.pending == []
      <==> RemovalsIn(capacity, t, meanwhile) == |t.held.pending| + AppendsIn(capacity, t, meanwhile)
  {
    HeldIsAppendedLessRemoved(capacity, t, meanwhile);
  }

  predicate NoPops(steps: seq<Step>) { forall i :: 0 <= i < |steps| ==> !steps[i].Pops? }

  lemma NoneToShed(t: Trace, id: nat)
    requires ToShed(t) == 0
    ensures !Stands(t, id, Full)
  {
    assert id !in Standing(t.makers, {Full});
  }

  lemma OverfullStep(capacity: nat, t: Trace, step: Step)
    requires |t.held.pending| > capacity && ToShed(t) == 0 && !step.Pops?
    ensures !Removes(t, step)
    ensures var u := Apply(capacity, t, step); ToShed(u) == 0 && t.held.pending <= u.held.pending
  {
    ToShedMoves(capacity, t, step);
    if step.Sheds? { NoneToShed(t, step.id); }
  }

  lemma StampedIsStillOut(t: Trace, k: nat)
    requires k < |t.popped|
    ensures Out(AfterStamping(t, k)) <= Out(t)
  {
    assert t.popped[k] in t.popped;
  }

  lemma AnsweredWasOut(t: Trace, step: Step)
    requires (step.Accepts? || step.Refuses?) && step.which < |t.inFlight|
    ensures var u := Apply(0, t, step); Out(u) <= Out(t) && u.lost <= t.lost + Out(t)
  {
    assert t.inFlight[step.which] in t.inFlight;
  }

  lemma MakersLeaveItOut(capacity: nat, t: Trace, step: Step)
    requires ToShed(t) == 0 && OfAMaker(step)
    ensures var u := Apply(capacity, t, step); Out(u) == Out(t) && u.lost == t.lost
  {
    NoneToShed(t, step.id);
  }

  lemma OnlyWhatIsOutIsLost(capacity: nat, t: Trace, step: Step)
    requires ToShed(t) == 0 && !step.Pops?
    ensures var u := Apply(capacity, t, step); Out(u) <= Out(t) && u.lost <= t.lost + Out(t)
  {
    if OfAMaker(step) {
      MakersLeaveItOut(capacity, t, step);
    } else if step.Stamps? {
      if step.which < |t.popped| { StampedIsStillOut(t, step.which); }
    } else {
      if step.which < |t.inFlight| { AnsweredWasOut(t, step); }
    }
  }

  /** A log past its capacity, with none about to shed, sheds nothing until a flush takes from it:
      what is held stays, everything appended is held as well, and only what had left is lost. */
  lemma {:induction false} OverfullNeverSheds(capacity: nat, t: Trace, steps: seq<Step>)
    requires |t.held.pending| > capacity && ToShed(t) == 0 && NoPops(steps)
    ensures var u := Run(capacity, t, steps);
      && t.held.pending <= u.held.pending
      && |u.held.pending| == |t.held.pending| + AppendsIn(capacity, t, steps)
      && u.lost <= t.lost + Out(t)
    decreases |steps|
  {
    if steps != [] {
      assert !steps[0].Pops? && NoPops(steps[1..]);
      OverfullStep(capacity, t, steps[0]);
      OnlyWhatIsOutIsLost(capacity, t, steps[0]);
      PendingMoves(capacity, t, steps[0]);
      OverfullNeverSheds(capacity, Apply(capacity, t, steps[0]), steps[1..]);
    }
  }

  // -- raising -----------------------------------------------------------------------------------

  predicate NotOf(id: nat, steps: seq<Step>) {
    forall i :: 0 <= i < |steps| && OfAMaker(steps[i]) ==> steps[i].id != id
  }

  lemma {:induction false} OthersLeaveItStanding(capacity: nat, t: Trace, id: nat, stage: Stage, steps: seq<Step>)
    requires Stands(t, id, stage) && NotOf(id, steps)
    ensures Stands(Run(capacity, t, steps), id, stage)
    decreases |steps|
  {
    if steps != [] {
      assert OfAMaker(steps[0]) ==> steps[0].id != id;
      assert NotOf(id, steps[1..]);
      OthersLeaveItStanding(capacity, Apply(capacity, t, steps[0]), id, stage, steps[1..]);
    }
  }

  /** A record that found the log full raises if and only if, between its look and its shed, the
      flushes and the other records together removed all that was held then and all appended
      since. Otherwise it sheds. */
  lemma RaisesExactly(capacity: nat, t: Trace, id: nat, meanwhile: seq<Step>)
    requires Stands(t, id, Begun) && |t.held.pending| == capacity && NotOf(id, meanwhile)
    ensures var looked := Apply(capacity, t, Checks(id));
      var u := Run(capacity, looked, meanwhile);
      var removed, added := RemovalsIn(capacity, looked, meanwhile), AppendsIn(capacity, looked, meanwhile);
      && removed <= capacity + added
      && Apply(capacity, u, Sheds(id)).raised == u.raised + OneIf(removed == capacity + added)
      && (Stands(Apply(capacity, u, Sheds(id)), id, Shed) <==> removed < capacity + added)
  {
    var looked := Apply(capacity, t, Checks(id));
    var u := Run(capacity, looked, meanwhile);
    OthersLeaveItStanding(capacity, looked, id, Full, meanwhile);
    HeldIsAppendedLessRemoved(capacity, looked, meanwhile);
  }

  predicate NoLooksNorPops(steps: seq<Step>) { NoLooks(steps) && NoPops(steps) }

  lemma {:induction false} EnoughToShed(capacity: nat, t: Trace, steps: seq<Step>)
    requires ToShed(t) <= |t.held.pending| && NoLooksNorPops(steps)
    ensures Run(capacity, t, steps).raised == t.raised
    decreases |steps|
  {
    if steps != [] {
      assert !steps[0].Checks? && !steps[0].Pops? && NoLooks(steps[1..]) && NoPops(steps[1..]);
      ToShedMoves(capacity, t, steps[0]);
      PendingMoves(capacity, t, steps[0]);
      EnoughToShed(capacity, Apply(capacity, t, steps[0]), steps[1..]);
    }
  }

  /** Everyone about to shed does. */
  lemma {:induction false} AllShed(capacity: nat, t: Trace) returns (steps: seq<Step>)
    ensures NoLooksNorPops(steps)
    ensures Run(capacity, t, steps).raised == t.raised + if ToShed(t) > |t.held.pending| then ToShed(t) - |t.held.pending| else 0
    decreases ToShed(t)
  {
    if ToShed(t) == 0 {
      steps := [];
    } else {
      var id :| id in Standing(t.makers, {Full});
      ToShedMoves(capacity, t, Sheds(id));
      PendingMoves(capacity, t, Sheds(id));
      var rest := AllShed(capacity, Apply(capacity, t, Sheds(id)));
      steps := [Sheds(id)] + rest;
      assert steps[1..] == rest;
    }
  }

  /** From any state, some record raises with no further look and no flush if and only if more are
      about to shed than are held. */
  lemma RaiseReachableExactly(capacity: nat, t: Trace)
    ensures (exists steps :: NoLooksNorPops(steps) && Run(capacity, t, steps).raised > t.raised)
      <==> ToShed(t) > |t.held.pending|
  {
    var all := AllShed(capacity, t);
    if ToShed(t) <= |t.held.pending| {
      forall steps | NoLooksNorPops(steps) ensures Run(capacity, t, steps).raised == t.raised {
        EnoughToShed(capacity, t, steps);
      }
    } else {
      assert NoLooksNorPops(all);
    }
  }
}
