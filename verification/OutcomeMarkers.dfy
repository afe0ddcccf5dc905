/** What a delivered record's marker and sequence say, in every interleaving, and when that is
    exactly what was lost before it. */
module OutcomeMarkers {
  import opened OutcomeLog
  import opened OutcomeTrace

  // -- in every run ---------------------------------------------------------------------------

  /** However many records and flushes overlap: a marker exceeds the number of records appended
      earlier and lost by the later ones lost before its stamp, and falls short of it by the
      losses not counted by then and by the earlier records out at its stamp and lost since. It
      is exact if and only if the two are as many. */
  lemma MarkerIsExactlyOff(capacity: nat, steps: seq<Step>, r: Given)
    requires r in Run(capacity, Start(), steps).delivered
    ensures var t := Run(capacity, Start(), steps);
      && r.place in t.stamped
      && var s := t.stamped[r.place];
      && r.record.droppedBefore + |s.companions * t.lost| + s.unseen == |LostBelow(t, r.place)| + |s.ahead|
      && (r.record.droppedBefore == |LostBelow(t, r.place)| <==> |s.companions * t.lost| + s.unseen == |s.ahead|)
  {
    StartIsKept();
    RunKeeps(capacity, Start(), steps);
    assert Left(Run(capacity, Start(), steps), r);
  }

  /** So with nothing lost between its pop and its stamp and every loss counted by then, it is
      exact if and only if no companion was lost, and never too high. */
  lemma MarkerIsExactUnlessACompanionIsLost(capacity: nat, steps: seq<Step>, r: Given)
    requires r in Run(capacity, Start(), steps).delivered
    requires var t := Run(capacity, Start(), steps);
      r.place in t.stamped && t.stamped[r.place].ahead == {} && t.stamped[r.place].unseen == 0
    ensures var t := Run(capacity, Start(), steps);
      && (r.record.droppedBefore == |LostBelow(t, r.place)| <==> t.stamped[r.place].companions * t.lost == {})
      && r.record.droppedBefore <= |LostBelow(t, r.place)|
  {
    MarkerIsExactlyOff(capacity, steps, r);
    var t := Run(capacity, Start(), steps);
    var missed := t.stamped[r.place].companions * t.lost;
    assert |missed| == 0 <==> missed == {};
  }

  // -- the sequence ---------------------------------------------------------------------------

  ghost predicate NumberIs(entered: map<int, AtAppend>, place: int, sequence: int) {
    && place in entered && sequence == entered[place].sequence
    && sequence == place + entered[place].beside + entered[place].raised
  }

  ghost predicate PendingNumbered(entered: map<int, AtAppend>, pending: seq<Pending>, head: int) {
    forall i :: 0 <= i < |pending| ==> NumberIs(entered, head + i, pending[i].sequence)
  }

  ghost predicate TakenNumbered(entered: map<int, AtAppend>, taken: seq<Taken>) {
    forall p :: p in taken ==> NumberIs(entered, p.place, p.item.sequence)
  }

  ghost predicate GivenNumbered(entered: map<int, AtAppend>, given: seq<Given>) {
    forall r :: r in given ==> NumberIs(entered, r.place, r.record.sequence)
  }

  ghost predicate PlacesEntered(entered: map<int, AtAppend>, appended: nat, raised: nat, sequence: nat) {
    && (forall p :: p in entered <==> 1 <= p <= appended)
    && (forall p, q :: 1 <= p <= q <= appended ==> entered[p].raised <= entered[q].raised)
    && (forall p, q :: 1 <= p <= q <= appended ==> entered[p].sequence <= entered[q].sequence)
    && (forall p :: p in entered ==> entered[p].raised <= raised && entered[p].sequence <= sequence)
    && (forall p :: p in entered ==> NumberIs(entered, p, entered[p].sequence))
  }

  /** A sequence is a place, plus the records beside it and those that had raised. */
  ghost predicate Numbered(t: Trace) {
    && PlacesEntered(t.entered, t.appended, t.raised, t.held.sequence)
    && PendingNumbered(t.entered, t.held.pending, Head(t))
    && TakenNumbered(t.entered, t.popped)
    && GivenNumbered(t.entered, t.inFlight)
    && GivenNumbered(t.entered, t.delivered)
  }

  lemma NumbersStand(t: Trace, place: int, entry: AtAppend)
    requires Numbered(t) && place !in t.entered
    ensures var later := t.entered[place := entry];
      && PendingNumbered(later, t.held.pending, Head(t)) && TakenNumbered(later, t.popped)
      && GivenNumbered(later, t.inFlight) && GivenNumbered(later, t.delivered)
  {
  }

  lemma OneMorePending(entered: map<int, AtAppend>, pending: seq<Pending>, head: int, item: Pending)
    requires PendingNumbered(entered, pending, head) && NumberIs(entered, head + |pending|, item.sequence)
    ensures PendingNumbered(entered, pending + [item], head)
  {
  }

  /** Dropping the first of the log moves the head past it. */
  lemma OneLessPending(entered: map<int, AtAppend>, pending: seq<Pending>, head: int)
    requires PendingNumbered(entered, pending, head) && pending != []
    ensures NumberIs(entered, head, pending[0].sequence)
    ensures PendingNumbered(entered, pending[1..], head + 1)
  {
    assert NumberIs(entered, head + 0, pending[0].sequence);
    forall i | 0 <= i < |pending[1..]| ensures NumberIs(entered, head + 1 + i, pending[1..][i].sequence) {
      assert NumberIs(entered, head + (i + 1), pending[i + 1].sequence);
    }
  }

  lemma OneMoreEntered(entered: map<int, AtAppend>, appended: nat, entry: AtAppend)
    requires PlacesEntered(entered, appended, entry.raised, entry.sequence)
    requires entry.sequence == appended + 1 + entry.beside + entry.raised
    ensures PlacesEntered(entered[appended + 1 := entry], appended + 1, entry.raised, entry.sequence)
  {
  }

  lemma LaterEntered(entered: map<int, AtAppend>, appended: nat, raised: nat, sequence: nat, later: nat, last: nat)
    requires PlacesEntered(entered, appended, raised, sequence) && raised <= later && sequence <= last
    ensures PlacesEntered(entered, appended, later, last)
  {
  }

  lemma OneLessGiven(entered: map<int, AtAppend>, given: seq<Given>, which: nat)
    requires GivenNumbered(entered, given) && which < |given|
    ensures GivenNumbered(entered, Without(given, which))
    ensures NumberIs(entered, given[which].place, given[which].record.sequence)
  {
  }

  lemma MoreGiven(entered: map<int, AtAppend>, given: seq<Given>, one: Given)
    requires GivenNumbered(entered, given) && NumberIs(entered, one.place, one.record.sequence)
    ensures GivenNumbered(entered, given + [one])
  {
  }

  lemma OneLessTaken(entered: map<int, AtAppend>, taken: seq<Taken>, which: nat)
    requires TakenNumbered(entered, taken) && which < |taken|
    ensures TakenNumbered(entered, Without(taken, which))
    ensures NumberIs(entered, taken[which].place, taken[which].item.sequence)
  {
  }

  lemma MoreTaken(entered: map<int, AtAppend>, taken: seq<Taken>, one: Taken)
    requires TakenNumbered(entered, taken) && NumberIs(entered, one.place, one.item.sequence)
    ensures TakenNumbered(entered, taken + [one])
  {
  }

  lemma OneLess(keys: set<nat>, id: nat)
    requires id in keys
    ensures |keys - {id}| == |keys| - 1
  {
  }

  /** What an append leaves, said of its parts. */
  lemma AppendsParts(t: Trace, entry: AtAppend, item: Pending)
    requires Numbered(t) && entry.raised == t.raised && entry.sequence == t.held.sequence == item.sequence
    requires entry.sequence == t.appended + 1 + entry.beside + entry.raised && Head(t) + |t.held.pending| == t.appended + 1
    ensures var later := t.entered[t.appended + 1 := entry];
      && PlacesEntered(later, t.appended + 1, t.raised, t.held.sequence)
      && PendingNumbered(later, t.held.pending + [item], Head(t)) && TakenNumbered(later, t.popped)
      && GivenNumbered(later, t.inFlight) && GivenNumbered(later, t.delivered)
  {
    var later := t.entered[t.appended + 1 := entry];
    NumbersStand(t, t.appended + 1, entry);
    OneMoreEntered(t.entered, t.appended, entry);
    OneMorePending(later, t.held.pending, Head(t), item);
  }

  lemma AppendsNumbers(t: Trace, id: nat, outcome: Outcome)
    requires Counted(t) && Numbered(t) && id in t.makers
    ensures Numbered(AfterAppending(t, id, outcome))
  {
    OneLess(t.makers.Keys, id);
    AppendsParts(t, AtAppend(t.held.sequence, |t.makers.Keys - {id}|, t.raised), Pending(t.held.sequence, outcome));
  }

  lemma ShedsNumbers(t: Trace, id: nat)
    requires Numbered(t)
    ensures Numbered(AfterShedding(t, id))
  {
    LaterEntered(t.entered, t.appended, t.raised, t.held.sequence, t.raised + 1, t.held.sequence);
    if t.held.pending != [] { OneLessPending(t.entered, t.held.pending, Head(t)); }
  }

  lemma PopsNumbers(t: Trace)
    requires Numbered(t) && t.held.pending != []
    ensures Numbered(Apply(0, t, Pops))
  {
    OneLessPending(t.entered, t.held.pending, Head(t));
    MoreTaken(t.entered, t.popped, Taken(Head(t), t.held.pending[0]));
  }

  lemma StampsNumbers(t: Trace, k: nat)
    requires Numbered(t) && k < |t.popped|
    ensures Numbered(AfterStamping(t, k))
  {
    OneLessTaken(t.entered, t.popped, k);
    MoreGiven(t.entered, t.inFlight, Given(t.popped[k].place, Stamp(t.popped[k].item, t.held.dropped)));
  }

  lemma AnswerNumbers(t: Trace, step: Step)
    requires Numbered(t) && (step.Accepts? || step.Refuses?) && step.which < |t.inFlight|
    ensures Numbered(Apply(0, t, step))
  {
    OneLessGiven(t.entered, t.inFlight, step.which);
    MoreGiven(t.entered, t.delivered, t.inFlight[step.which]);
  }

  lemma BeginsNumbers(capacity: nat, t: Trace, id: nat)
    requires Numbered(t)
    ensures Numbered(Apply(capacity, t, Begins(id)))
  {
    LaterEntered(t.entered, t.appended, t.raised, t.held.sequence, t.raised, t.held.sequence + 1);
  }

  lemma StageNumbers(capacity: nat, t: Trace, step: Step)
    requires Numbered(t) && (step.Checks? || step.Counts?)
    ensures Numbered(Apply(capacity, t, step))
  {
  }

  lemma StepNumbers(capacity: nat, t: Trace, step: Step)
    requires Counted(t) && Numbered(t)
    ensures Numbered(Apply(capacity, t, step))
  {
    match step {
      case Begins(id) => BeginsNumbers(capacity, t, id);
      case Sheds(id) => if Stands(t, id, Full) { ShedsNumbers(t, id); }
      case Appends(id, outcome) => if Stands(t, id, Room) { AppendsNumbers(t, id, outcome); }
      case Pops => if t.held.pending != [] { PopsNumbers(t); }
      case Stamps(k) => if k < |t.popped| { StampsNumbers(t, k); }
      case Accepts(k) => if k < |t.inFlight| { AnswerNumbers(t, step); }
      case Refuses(k) => if k < |t.inFlight| { AnswerNumbers(t, step); }
      case _ => StageNumbers(capacity, t, step);
    }
  }

  lemma {:induction false} RunNumbers(capacity: nat, t: Trace, steps: seq<Step>)
    requires Kept(t) && Numbered(t)
    ensures Numbered(Run(capacity, t, steps))
    decreases |steps|
  {
    if steps != [] {
      StepKeeps(capacity, t, steps[0]);
      StepNumbers(capacity, t, steps[0]);
      RunNumbers(capacity, Apply(capacity, t, steps[0]), steps[1..]);
    }
  }

  /** In every run a delivered record's sequence is its place, plus how many others were under way
      as it was appended, plus how many had raised. */
  lemma SequenceIsThePlaceAndThoseBeside(capacity: nat, steps: seq<Step>, r: Given)
    requires r in Run(capacity, Start(), steps).delivered
    ensures var t := Run(capacity, Start(), steps);
      r.place in t.entered && r.record.sequence == r.place + t.entered[r.place].beside + t.entered[r.place].raised
  {
    StartIsKept();
    RunNumbers(capacity, Start(), steps);
  }

  /** Whenever a record is appended, it is the only one under way. */
  ghost predicate LoneAppends(capacity: nat, t: Trace, steps: seq<Step>)
    decreases |steps|
  {
    steps != [] ==>
      && (steps[0].Appends? && Stands(t, steps[0].id, Room) ==> t.makers.Keys == {steps[0].id})
      && LoneAppends(capacity, Apply(capacity, t, steps[0]), steps[1..])
  }

  ghost predicate NoneBeside(t: Trace) { forall p :: p in t.entered ==> t.entered[p].beside == 0 }

  lemma Enters(capacity: nat, t: Trace, step: Step)
    ensures var u := Apply(capacity, t, step);
      u.entered == (if step.Appends? && Stands(t, step.id, Room)
                    then t.entered[t.appended + 1 := AtAppend(t.held.sequence, |t.makers.Keys - {step.id}|, t.raised)]
                    else t.entered)
  {
  }

  lemma StepBeside(capacity: nat, t: Trace, step: Step)
    requires Numbered(t)
    ensures NoneBeside(Apply(capacity, t, step))
      <==> NoneBeside(t) && (step.Appends? && Stands(t, step.id, Room) ==> t.makers.Keys == {step.id})
  {
    var u := Apply(capacity, t, step);
    Enters(capacity, t, step);
    if step.Appends? && Stands(t, step.id, Room) {
      var others := t.makers.Keys - {step.id};
      assert t.appended + 1 in u.entered && u.entered[t.appended + 1].beside == |others|;
      assert |others| == 0 <==> others == {};
      assert others == {} <==> t.makers.Keys == {step.id};
      assert forall p :: p in t.entered ==> p in u.entered && u.entered[p] == t.entered[p];
    }
  }

  lemma {:induction false} BesideExactly(capacity: nat, t: Trace, steps: seq<Step>)
    requires Kept(t) && Numbered(t)
    ensures NoneBeside(Run(capacity, t, steps)) <==> NoneBeside(t) && LoneAppends(capacity, t, steps)
    decreases |steps|
  {
    if steps != [] {
      StepKeeps(capacity, t, steps[0]);
      StepNumbers(capacity, t, steps[0]);
      StepBeside(capacity, t, steps[0]);
      BesideExactly(capacity, Apply(capacity, t, steps[0]), steps[1..]);
    }
  }

  ghost predicate NumberedInOrder(t: Trace) {
    forall p :: 1 <= p <= t.appended ==> p in t.entered && t.entered[p].sequence == p + t.entered[p].raised
  }

  /** Every record appended is numbered by its place and the raises before it if and only if none
      is appended while another is under way. */
  lemma NumberedInOrderExactly(capacity: nat, steps: seq<Step>)
    ensures NumberedInOrder(Run(capacity, Start(), steps)) <==> LoneAppends(capacity, Start(), steps)
  {
    StartIsKept();
    RunNumbers(capacity, Start(), steps);
    BesideExactly(capacity, Start(), steps);
  }

  /** Whenever a record is appended, another has begun since the last one was. */
  ghost predicate BegunBetweenAppends(capacity: nat, t: Trace, steps: seq<Step>)
    decreases |steps|
  {
    steps != [] ==>
      && (steps[0].Appends? && Stands(t, steps[0].id, Room) ==> LastNumber(t) < t.held.sequence)
      && BegunBetweenAppends(capacity, Apply(capacity, t, steps[0]), steps[1..])
  }

  function LastNumber(t: Trace): int { if t.appended in t.entered then t.entered[t.appended].sequence else 0 }

  /** No two records appended have the same sequence. */
  ghost predicate NumbersDiffer(entered: map<int, AtAppend>) {
    forall p, q :: p in entered && q in entered && p != q ==> entered[p].sequence != entered[q].sequence
  }

  lemma SharedStaysShared(entered: map<int, AtAppend>, place: int, entry: AtAppend)
    requires !NumbersDiffer(entered) && place !in entered
    ensures !NumbersDiffer(entered[place := entry])
  {
    var p, q :| p in entered && q in entered && p != q && entered[p].sequence == entered[q].sequence;
    var later := entered[place := entry];
    assert p in later && q in later && later[p].sequence == later[q].sequence;
  }

  lemma AppendShares(t: Trace, entry: AtAppend)
    requires Numbered(t) && NumbersDiffer(t.entered)
    requires entry.sequence == t.held.sequence >= 1
    ensures NumbersDiffer(t.entered[t.appended + 1 := entry]) <==> LastNumber(t) < t.held.sequence
  {
    var later, p := t.entered[t.appended + 1 := entry], t.appended + 1;
    if LastNumber(t) < t.held.sequence {
      forall q | q in t.entered ensures t.entered[q].sequence < t.held.sequence {
      }
    } else {
      assert t.appended in later && p in later && later[t.appended].sequence == later[p].sequence;
    }
  }

  lemma StepShares(capacity: nat, t: Trace, step: Step)
    requires Counted(t) && Numbered(t)
    ensures NumbersDiffer(Apply(capacity, t, step).entered)
      <==> NumbersDiffer(t.entered) && (step.Appends? && Stands(t, step.id, Room) ==> LastNumber(t) < t.held.sequence)
  {
    Enters(capacity, t, step);
    if step.Appends? && Stands(t, step.id, Room) {
      OneLess(t.makers.Keys, step.id);
      EntryShares(t, AtAppend(t.held.sequence, |t.makers.Keys - {step.id}|, t.raised));
    }
  }

  lemma EntryShares(t: Trace, entry: AtAppend)
    requires Numbered(t) && entry.sequence == t.held.sequence >= 1
    ensures NumbersDiffer(t.entered[t.appended + 1 := entry])
      <==> NumbersDiffer(t.entered) && LastNumber(t) < t.held.sequence
  {
    if NumbersDiffer(t.entered) {
      AppendShares(t, entry);
    } else {
      SharedStaysShared(t.entered, t.appended + 1, entry);
    }
  }

  lemma {:induction false} SharedExactly(capacity: nat, t: Trace, steps: seq<Step>)
    requires Kept(t) && Numbered(t)
    ensures NumbersDiffer(Run(capacity, t, steps).entered)
      <==> NumbersDiffer(t.entered) && BegunBetweenAppends(capacity, t, steps)
    decreases |steps|
  {
    if steps != [] {
      StepKeeps(capacity, t, steps[0]);
      StepNumbers(capacity, t, steps[0]);
      StepShares(capacity, t, steps[0]);
      SharedExactly(capacity, Apply(capacity, t, steps[0]), steps[1..]);
    }
  }

  /** No two records are given the same sequence if and only if one begins between any two
      appends. */
  lemma NumbersDifferExactly(capacity: nat, steps: seq<Step>)
    ensures NumbersDiffer(Run(capacity, Start(), steps).entered) <==> BegunBetweenAppends(capacity, Start(), steps)
  {
    StartIsKept();
    SharedExactly(capacity, Start(), steps);
  }

  // -- one flush at a time ---------------------------------------------------------------------------

  /** No record is taken off the log while another is out. */
  ghost predicate OneAtATime(capacity: nat, t: Trace, steps: seq<Step>)
    decreases |steps|
  {
    steps != [] ==>
      (steps[0].Pops? ==> Out(t) == {}) && OneAtATime(capacity, Apply(capacity, t, steps[0]), steps[1..])
  }

  ghost predicate Rising(out: seq<Given>) {
    forall i, j :: 0 <= i < j < |out| ==> out[i].place < out[j].place
  }

  /** One record is out at most, after every delivered one; no record had a companion. */
  ghost predicate Alone(t: Trace) {
    && |t.popped| + |t.inFlight| <= 1
    && Rising(t.delivered)
    && (forall s, r :: s in Out(t) && r in t.delivered ==> r.place < s)
    && (forall r :: Left(t, r) ==> r.place in t.stamped && t.stamped[r.place].companions == {})
  }

  lemma NoneOut(t: Trace)
    requires Out(t) == {}
    ensures t.popped == [] && t.inFlight == []
  {
    assert t.popped != [] ==> t.popped[0].place in TakenPlaces(t.popped);
    assert t.inFlight != [] ==> t.inFlight[0].place in GivenPlaces(t.inFlight);
    assert TakenPlaces(t.popped) <= Out(t) && GivenPlaces(t.inFlight) <= Out(t);
  }

  lemma PopsStaysAlone(t: Trace)
    requires Kept(t) && Alone(t) && Out(t) == {} && t.held.pending != []
    ensures Alone(Apply(0, t, Pops))
  {
    var u := Apply(0, t, Pops);
    NoneOut(t);
    PopsMoves(t);
    forall r | r in u.delivered ensures r.place < Head(t) {
      assert Left(t, r);
      LeftIsPast(t, r);
    }
    forall r | Left(u, r) ensures Left(t, r) {
    }
  }

  lemma StampsStaysAlone(t: Trace, k: nat)
    requires Kept(t) && Alone(t) && k < |t.popped|
    ensures Alone(AfterStamping(t, k))
  {
    var u := AfterStamping(t, k);
    var n := t.popped[0].place;
    assert t.popped == [t.popped[0]] && t.inFlight == [];
    assert Out(t) == {n} && Lower(Out(t), n) == {};
    StampsMoves(t, k);
    forall r | Left(u, r) ensures r.place in u.stamped && u.stamped[r.place].companions == {} {
      if r.place != n { assert Left(t, r); }
    }
  }

  lemma OneMoreRises(out: seq<Given>, x: Given)
    requires Rising(out) && forall r :: r in out ==> r.place < x.place
    ensures Rising(out + [x])
  {
  }

  lemma AcceptsStaysAlone(t: Trace, k: nat)
    requires Alone(t) && k < |t.inFlight|
    ensures Alone(Apply(0, t, Accepts(k)))
  {
    var u := Apply(0, t, Accepts(k));
    assert t.inFlight == [t.inFlight[0]] && t.popped == [] && u.inFlight == [];
    var x := t.inFlight[0];
    assert Out(u) == {};
    assert Rising(t.delivered + [x]) by {
      assert x.place in Out(t);
      OneMoreRises(t.delivered, x);
    }
    forall r | Left(u, r) ensures Left(t, r) {
    }
  }

  lemma RefusesStaysAlone(t: Trace, k: nat)
    requires Kept(t) && Alone(t) && k < |t.inFlight|
    ensures Alone(Apply(0, t, Refuses(k)))
  {
    var u := Apply(0, t, Refuses(k));
    assert t.inFlight == [t.inFlight[0]] && t.popped == [] && u.inFlight == [];
    assert Out(u) == {};
    forall r | Left(u, r) ensures Left(t, r) {
    }
  }

  lemma MakingStaysAlone(capacity: nat, t: Trace, step: Step)
    requires Kept(t) && Alone(t) && OfAMaker(step)
    ensures Alone(Apply(capacity, t, step))
  {
    var u := Apply(capacity, t, step);
    MakingMoves(capacity, t, step);
    assert Out(u) == Out(t);
    forall r | Left(u, r) ensures Left(t, r) {
    }
  }

  lemma StepStaysAlone(capacity: nat, t: Trace, step: Step)
    requires Kept(t) && Alone(t) && (step.Pops? ==> Out(t) == {})
    ensures Alone(Apply(capacity, t, step))
  {
    match step {
      case Pops => if t.held.pending != [] { PopsStaysAlone(t); }
      case Stamps(k) => if k < |t.popped| { StampsStaysAlone(t, k); }
      case Accepts(k) => if k < |t.inFlight| { AcceptsStaysAlone(t, k); }
      case Refuses(k) => if k < |t.inFlight| { RefusesStaysAlone(t, k); }
      case _ => MakingStaysAlone(capacity, t, step);
    }
  }

  lemma {:induction false} RunStaysAlone(capacity: nat, t: Trace, steps: seq<Step>)
    requires Kept(t) && Alone(t) && OneAtATime(capacity, t, steps)
    ensures Alone(Run(capacity, t, steps))
    decreases |steps|
  {
    if steps != [] {
      StepStaysAlone(capacity, t, steps[0]);
      StepKeeps(capacity, t, steps[0]);
      RunStaysAlone(capacity, Apply(capacity, t, steps[0]), steps[1..]);
    }
  }

  lemma StartIsAlone()
    ensures Alone(Start())
  {
  }

  /** The whole numbers from one up to `n`, itself excluded. */
  function Below(n: int): (r: set<int>)
    ensures forall s :: s in r <==> 1 <= s < n
    ensures |r| == if n <= 1 then 0 else n - 1
    decreases n
  {
    if n <= 1 then {} else Below(n - 1) + {n - 1}
  }

  /** The records appended earlier that the sink has never accepted. */
  function EarlierNeverAccepted(t: Trace, place: int): set<int> { Below(place) - GivenPlaces(t.delivered) }

  /** With one flush at a time, what came before a delivered record and was never accepted is lost. */
  lemma NeverAcceptedIsLost(t: Trace, r: Given)
    requires Kept(t) && Alone(t) && r in t.delivered
    ensures EarlierNeverAccepted(t, r.place) == LostBelow(t, r.place)
  {
    assert Left(t, r);
    LeftIsPast(t, r);
    forall s | s in LostBelow(t, r.place) ensures s in EarlierNeverAccepted(t, r.place) {
      assert s in t.lost && s !in GivenPlaces(t.delivered);
    }
    forall s | s in EarlierNeverAccepted(t, r.place) ensures s in LostBelow(t, r.place) {
      assert s in t.lost || s in Out(t);
    }
  }

  /** With one flush at a time, however many records are made meanwhile and whatever the sink
      refuses: records are delivered in the order they were appended, and a marker is the number
      appended earlier that the sink never accepted, plus those lost between its pop and its
      stamp, less the losses not counted by then. So it is exact if and only if those two are as
      many. */
  lemma GapsAreDeclaredExactly(capacity: nat, steps: seq<Step>)
    requires OneAtATime(capacity, Start(), steps)
    ensures Rising(Run(capacity, Start(), steps).delivered)
    ensures var t := Run(capacity, Start(), steps);
      forall r :: r in t.delivered ==>
        && r.place in t.stamped
        && var s := t.stamped[r.place];
        && r.record.droppedBefore + s.unseen == |EarlierNeverAccepted(t, r.place)| + |s.ahead|
        && (r.record.droppedBefore == |EarlierNeverAccepted(t, r.place)| <==> s.unseen == |s.ahead|)
  {
    var t := Run(capacity, Start(), steps);
    StartIsKept();
    StartIsAlone();
    RunKeeps(capacity, Start(), steps);
    RunStaysAlone(capacity, Start(), steps);
    forall r | r in t.delivered
      ensures r.place in t.stamped
      ensures r.record.droppedBefore + t.stamped[r.place].unseen
           == |EarlierNeverAccepted(t, r.place)| + |t.stamped[r.place].ahead|
    {
      assert Left(t, r) && Accounted(t, r);
      assert t.stamped[r.place].companions * t.lost == {};
      NeverAcceptedIsLost(t, r);
    }
  }

  // -- said of sequences --------------------------------------------------------------------------

  function Sequences(given: seq<Given>): set<int> { set r | r in given :: r.record.sequence }

  /** The sequences below this one that the sink has never accepted. */
  function NeverAccepted(t: Trace, sequence: int): set<int> { Below(sequence) - Sequences(t.delivered) }

  ghost predicate RisingSequences(out: seq<Given>) {
    forall i, j :: 0 <= i < j < |out| ==> out[i].record.sequence < out[j].record.sequence
  }

  lemma {:induction false} FirstPlacesAreAsMany(out: seq<Given>)
    requires Rising(out)
    ensures |GivenPlaces(out)| == |out|
  {
    if out == [] {
      assert GivenPlaces(out) == {};
    } else {
      var fore, last := out[..|out| - 1], out[|out| - 1];
      FirstPlacesAreAsMany(fore);
      assert out == fore + [last];
      assert GivenPlaces(out) == GivenPlaces(fore) + {last.place};
    }
  }

  lemma {:induction false} FirstSequencesAreAsMany(out: seq<Given>)
    requires RisingSequences(out)
    ensures |Sequences(out)| == |out|
  {
    if out == [] {
      assert Sequences(out) == {};
    } else {
      var fore, last := out[..|out| - 1], out[|out| - 1];
      FirstSequencesAreAsMany(fore);
      assert out == fore + [last];
      assert Sequences(out) == Sequences(fore) + {last.record.sequence};
    }
  }

  lemma OnlyFirstArePlacedLower(out: seq<Given>, i: nat)
    requires i < |out| && Rising(out) && forall r :: r in out ==> r.place >= 1
    ensures Below(out[i].place) - GivenPlaces(out) == Below(out[i].place) - GivenPlaces(out[..i])
    ensures GivenPlaces(out[..i]) <= Below(out[i].place)
  {
    forall s | s in GivenPlaces(out) && s < out[i].place ensures s in GivenPlaces(out[..i]) {
      var k :| 0 <= k < |out| && out[k].place == s;
      assert out[..i][k] == out[k];
    }
  }

  lemma OnlyFirstAreNumberedLower(out: seq<Given>, i: nat)
    requires i < |out| && RisingSequences(out) && forall r :: r in out ==> r.record.sequence >= 1
    ensures Below(out[i].record.sequence) - Sequences(out) == Below(out[i].record.sequence) - Sequences(out[..i])
    ensures Sequences(out[..i]) <= Below(out[i].record.sequence)
  {
    forall s | s in Sequences(out) && s < out[i].record.sequence ensures s in Sequences(out[..i]) {
      var k :| 0 <= k < |out| && out[k].record.sequence == s;
      assert out[..i][k] == out[k];
    }
  }

  lemma WithoutAPart(whole: set<int>, part: set<int>)
    requires part <= whole
    ensures |whole - part| == |whole| - |part|
  {
  }

  lemma PlacesMissing(out: seq<Given>, i: nat)
    requires i < |out| && Rising(out) && forall r :: r in out ==> r.place >= 1
    ensures |Below(out[i].place) - GivenPlaces(out)| == out[i].place - 1 - i
  {
    FirstPlacesAreAsMany(out[..i]);
    OnlyFirstArePlacedLower(out, i);
    WithoutAPart(Below(out[i].place), GivenPlaces(out[..i]));
  }

  lemma SequencesMissing(out: seq<Given>, i: nat)
    requires i < |out| && RisingSequences(out) && forall r :: r in out ==> r.record.sequence >= 1
    ensures |Below(out[i].record.sequence) - Sequences(out)| == out[i].record.sequence - 1 - i
  {
    FirstSequencesAreAsMany(out[..i]);
    OnlyFirstAreNumberedLower(out, i);
    WithoutAPart(Below(out[i].record.sequence), Sequences(out[..i]));
  }

  lemma DeliveredSequencesRise(t: Trace)
    requires Numbered(t) && NoneBeside(t) && Rising(t.delivered)
    ensures RisingSequences(t.delivered)
    ensures forall r :: r in t.delivered ==>
      r.place >= 1 && r.place in t.entered && r.record.sequence == r.place + t.entered[r.place].raised
  {
    var out := t.delivered;
    forall r | r in out
      ensures r.place >= 1 && r.place in t.entered && r.record.sequence == r.place + t.entered[r.place].raised
    {
      assert NumberIs(t.entered, r.place, r.record.sequence);
    }
    forall j, k | 0 <= j < k < |out| ensures out[j].record.sequence < out[k].record.sequence {
      assert out[j] in out && out[k] in out;
    }
  }

  /** The sequences missing below a delivered one are the earlier records never accepted and those
      that raised. */
  lemma MissingSequences(t: Trace, r: Given)
    requires Numbered(t) && NoneBeside(t) && Rising(t.delivered) && r in t.delivered
    ensures r.place in t.entered
    ensures |NeverAccepted(t, r.record.sequence)| == |EarlierNeverAccepted(t, r.place)| + t.entered[r.place].raised
  {
    DeliveredSequencesRise(t);
    var i :| 0 <= i < |t.delivered| && t.delivered[i] == r;
    PlacesMissing(t.delivered, i);
    SequencesMissing(t.delivered, i);
  }

  /** With one flush at a time, and no record appended beside another under way: the delivered
      sequences rise, and a marker counts the lower sequences the sink never accepted, plus those
      lost between its pop and its stamp, less the losses not counted by then and the records that
      raised before it. It is exact if and only if those are as many. */
  lemma SequenceGapsAreDeclaredExactly(capacity: nat, steps: seq<Step>)
    requires OneAtATime(capacity, Start(), steps) && LoneAppends(capacity, Start(), steps)
    ensures RisingSequences(Run(capacity, Start(), steps).delivered)
    ensures var t := Run(capacity, Start(), steps);
      forall r :: r in t.delivered ==>
        && r.place in t.stamped && r.place in t.entered
        && var s := t.stamped[r.place];
        && r.record.droppedBefore + s.unseen + t.entered[r.place].raised
           == |NeverAccepted(t, r.record.sequence)| + |s.ahead|
        && (r.record.droppedBefore == |NeverAccepted(t, r.record.sequence)|
            <==> s.unseen + t.entered[r.place].raised == |s.ahead|)
  {
    var t := Run(capacity, Start(), steps);
    GapsAreDeclaredExactly(capacity, steps);
    StartIsKept();
    RunNumbers(capacity, Start(), steps);
    BesideExactly(capacity, Start(), steps);
    DeliveredSequencesRise(t);
    forall r | r in t.delivered
      ensures r.place in t.entered
      ensures |NeverAccepted(t, r.record.sequence)| == |EarlierNeverAccepted(t, r.place)| + t.entered[r.place].raised
    {
      MissingSequences(t, r);
    }
  }

  // -- undisturbed ---------------------------------------------------------------------------------

  /** No record is shed while another waits for its stamp, none finds the log emptied before its
      shed, no stamp reads the count between a shed and its counting, and no record is appended
      while another is under way. */
  ghost predicate Undisturbed(capacity: nat, t: Trace, steps: seq<Step>)
    decreases |steps|
  {
    steps != [] ==>
      && (steps[0].Sheds? && Stands(t, steps[0].id, Full) ==> t.popped == [] && t.held.pending != [])
      && (steps[0].Stamps? ==> Shedding(t.makers) == {})
      && (steps[0].Appends? && Stands(t, steps[0].id, Room) ==> t.makers.Keys == {steps[0].id})
      && Undisturbed(capacity, Apply(capacity, t, steps[0]), steps[1..])
  }

  lemma {:induction false} UndisturbedAppendsAlone(capacity: nat, t: Trace, steps: seq<Step>)
    requires Undisturbed(capacity, t, steps)
    ensures LoneAppends(capacity, t, steps)
    decreases |steps|
  {
    if steps != [] {
      UndisturbedAppendsAlone(capacity, Apply(capacity, t, steps[0]), steps[1..]);
    }
  }

  /** Whatever waits for its stamp is after everything lost, nothing was ahead of the others, every
      loss was counted for them, and none raised. */
  ghost predicate Calm(t: Trace) {
    && (forall s, x :: s in TakenPlaces(t.popped) && x in t.lost ==> x < s)
    && (forall n :: n in t.stamped ==> t.stamped[n].ahead == {} && t.stamped[n].unseen == 0)
    && t.raised == 0
    && (forall p :: p in t.entered ==> t.entered[p].raised == 0)
  }

  lemma MakingStaysCalm(capacity: nat, t: Trace, step: Step)
    requires Calm(t) && OfAMaker(step)
    requires step.Sheds? && Stands(t, step.id, Full) ==> t.popped == [] && t.held.pending != []
    ensures Calm(Apply(capacity, t, step))
  {
    if t.popped == [] { assert TakenPlaces(t.popped) == {}; }
  }

  lemma PopsStaysCalm(t: Trace)
    requires Kept(t) && Calm(t) && Out(t) == {} && t.held.pending != []
    ensures Calm(Apply(0, t, Pops))
  {
    PopsMoves(t);
    NoneOut(t);
    assert TakenPlaces(Apply(0, t, Pops).popped) == {Head(t)};
  }

  lemma StampsStaysCalm(t: Trace, k: nat)
    requires Alone(t) && Calm(t) && k < |t.popped| && Shedding(t.makers) == {}
    ensures Calm(AfterStamping(t, k))
  {
    var u, n := AfterStamping(t, k), t.popped[k].place;
    assert n in TakenPlaces(t.popped);
    assert Higher(t.lost, n) == {};
    assert TakenPlaces(u.popped) == {};
  }

  lemma AnswerStaysCalm(t: Trace, step: Step)
    requires Alone(t) && Calm(t)
    requires (step.Accepts? || step.Refuses?) && step.which < |t.inFlight|
    ensures Calm(Apply(0, t, step))
  {
    assert TakenPlaces(Apply(0, t, step).popped) == {};
  }

  lemma StepStaysCalm(capacity: nat, t: Trace, step: Step)
    requires Kept(t) && Alone(t) && Calm(t) && (step.Pops? ==> Out(t) == {})
    requires step.Sheds? && Stands(t, step.id, Full) ==> t.popped == [] && t.held.pending != []
    requires step.Stamps? ==> Shedding(t.makers) == {}
    ensures Calm(Apply(capacity, t, step))
  {
    match step {
      case Pops => if t.held.pending != [] { PopsStaysCalm(t); }
      case Stamps(k) => if k < |t.popped| { StampsStaysCalm(t, k); }
      case Accepts(k) => if k < |t.inFlight| { AnswerStaysCalm(t, step); }
      case Refuses(k) => if k < |t.inFlight| { AnswerStaysCalm(t, step); }
      case _ => MakingStaysCalm(capacity, t, step);
    }
  }

  lemma {:induction false} RunStaysCalm(capacity: nat, t: Trace, steps: seq<Step>)
    requires Kept(t) && Alone(t) && Calm(t)
    requires OneAtATime(capacity, t, steps) && Undisturbed(capacity, t, steps)
    ensures Calm(Run(capacity, t, steps))
    decreases |steps|
  {
    if steps != [] {
      StepStaysAlone(capacity, t, steps[0]);
      StepStaysCalm(capacity, t, steps[0]);
      StepKeeps(capacity, t, steps[0]);
      RunStaysCalm(capacity, Apply(capacity, t, steps[0]), steps[1..]);
    }
  }

  /** Under both disciplines no marker is off: it counts the lower sequences never accepted. */
  lemma UndisturbedMarkersAreExact(capacity: nat, steps: seq<Step>)
    requires OneAtATime(capacity, Start(), steps) && Undisturbed(capacity, Start(), steps)
    ensures var t := Run(capacity, Start(), steps);
      forall r :: r in t.delivered ==> r.record.droppedBefore == |NeverAccepted(t, r.record.sequence)|
  {
    UndisturbedAppendsAlone(capacity, Start(), steps);
    SequenceGapsAreDeclaredExactly(capacity, steps);
    StartIsKept();
    StartIsAlone();
    RunStaysCalm(capacity, Start(), steps);
  }

  // -- a flush is such a run ------------------------------------------------------------------------------

  function Answer(accepts: Record -> bool, entry: Record): Step { if accepts(entry) then Accepts(0) else Refuses(0) }

  /** The log once its first record has been handed to a sink that accepts what `accepts` says. */
  function Handed(h: Held, accepts: Record -> bool): Held
    requires h.pending != []
  {
    if accepts(Stamp(h.pending[0], h.dropped)) then Popped(h) else Lost(Popped(h))
  }

  function Accepted(h: Held, accepts: Record -> bool): seq<Record>
    requires h.pending != []
  {
    var entry := Stamp(h.pending[0], h.dropped);
    if accepts(entry) then [entry] else []
  }

  /** The steps of one undisturbed flush. */
  function FlushSteps(h: Held, accepts: Record -> bool): seq<Step>
    decreases |h.pending|
  {
    if h.pending == [] then []
    else
      [Pops, Stamps(0), Answer(accepts, Stamp(h.pending[0], h.dropped))] + FlushSteps(Handed(h, accepts), accepts)
  }

  function Records(given: seq<Given>): seq<Record> {
    if given == [] then [] else Records(given[..|given| - 1]) + [given[|given| - 1].record]
  }

  /** One record handed over: taken off, stamped, then accepted or refused. */
  function HandedOver(capacity: nat, t: Trace, last: Step): Trace {
    Apply(capacity, Apply(capacity, Apply(capacity, t, Pops), Stamps(0)), last)
  }

  lemma HandingOver(capacity: nat, t: Trace, accepts: Record -> bool)
    requires t.popped == [] && t.inFlight == [] && t.held.pending != []
    ensures var u := HandedOver(capacity, t, Answer(accepts, Stamp(t.held.pending[0], t.held.dropped)));
      && u.popped == [] && u.inFlight == [] && u.held == Handed(t.held, accepts)
      && Records(u.delivered) == Records(t.delivered) + Accepted(t.held, accepts)
  {
    var entry := Stamp(t.held.pending[0], t.held.dropped);
    var taken := Apply(capacity, t, Pops);
    assert taken.popped == [Taken(Head(t), t.held.pending[0])];
    var stamped := Apply(capacity, taken, Stamps(0));
    assert stamped.popped == [] && stamped.inFlight == [Given(Head(t), entry)];
    if accepts(entry) {
      assert (t.delivered + [Given(Head(t), entry)])[..|t.delivered|] == t.delivered;
    } else {
      assert Records(t.delivered) + [] == Records(t.delivered);
    }
  }

  lemma ThreeStepsThenTheRest(capacity: nat, t: Trace, last: Step, rest: seq<Step>)
    requires t.popped == [] && t.inFlight == [] && !last.Pops?
    ensures var u := HandedOver(capacity, t, last);
      && Run(capacity, t, [Pops, Stamps(0), last] + rest) == Run(capacity, u, rest)
      && (OneAtATime(capacity, u, rest) ==> OneAtATime(capacity, t, [Pops, Stamps(0), last] + rest))
  {
    var steps := [Pops, Stamps(0), last] + rest;
    var taken := Apply(capacity, t, Pops);
    var stamped := Apply(capacity, taken, Stamps(0));
    assert steps[1..] == [Stamps(0), last] + rest && steps[1..][1..] == [last] + rest && ([last] + rest)[1..] == rest;
    assert Run(capacity, stamped, [last] + rest) == Run(capacity, Apply(capacity, stamped, last), rest);
    assert Run(capacity, taken, steps[1..]) == Run(capacity, stamped, [last] + rest);
    assert Out(t) == {};
    var u := Apply(capacity, stamped, last);
    assert OneAtATime(capacity, u, rest) ==> OneAtATime(capacity, stamped, [last] + rest);
    assert OneAtATime(capacity, u, rest) ==> OneAtATime(capacity, taken, steps[1..]);
  }

  /** What the log's own flush leaves and hands over, with what was accepted before it. */
  ghost predicate FlushedInto(h: Held, accepts: Record -> bool, before: seq<Record>, u: Trace) {
    && u.popped == [] && u.inFlight == []
    && (u.held, Records(u.delivered)) == After(before, Flushed(h, accepts))
  }

  lemma FlushGoesOn(h: Held, accepts: Record -> bool, before: seq<Record>, u: Trace)
    requires h.pending != [] && FlushedInto(Handed(h, accepts), accepts, before + Accepted(h, accepts), u)
    ensures FlushedInto(h, accepts, before, u)
  {
    AfterOneMore(before, Accepted(h, accepts), Flushed(Handed(h, accepts), accepts));
  }

  /** What the log's own flush does, undisturbed, is a run of these steps, one record at a time. */
  lemma {:induction false} FlushIsARun(capacity: nat, t: Trace, accepts: Record -> bool)
    requires t.popped == [] && t.inFlight == []
    ensures FlushedInto(t.held, accepts, Records(t.delivered), Run(capacity, t, FlushSteps(t.held, accepts)))
    ensures OneAtATime(capacity, t, FlushSteps(t.held, accepts))
    decreases |t.held.pending|
  {
    if t.held.pending == [] {
      assert Records(t.delivered) + [] == Records(t.delivered);
    } else {
      var last := Answer(accepts, Stamp(t.held.pending[0], t.held.dropped));
      var u := HandedOver(capacity, t, last);
      HandingOver(capacity, t, accepts);
      FlushIsARun(capacity, u, accepts);
      ThreeStepsThenTheRest(capacity, t, last, FlushSteps(u.held, accepts));
      FlushGoesOn(t.held, accepts, Records(t.delivered), Run(capacity, u, FlushSteps(u.held, accepts)));
    }
  }
}
