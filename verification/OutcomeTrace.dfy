/** Every interleaving of making and flushing records, statement by statement: the log has no
    lock. A record counts itself in, looks whether there is room, sheds the oldest and counts
    the loss if there is none, and is appended. A flush takes a record off the log, then reads
    the count of losses, then gives the record to the sink. Any number of records may be under
    way and any number of flushes, and any of them may take the next step.

    Records are told apart by their place, the order in which they were appended: sequences
    will not do, for two records under way at once may be given the same one. */
module OutcomeTrace {
  import opened OutcomeLog

  /** How far a record under way has come; `Room` is ready to be appended. */
  datatype Stage = Begun | Full | Shed | Room

  datatype Taken = Taken(place: int, item: Pending)

  datatype Given = Given(place: int, record: Record)

  /** What held as a record was stamped: the earlier places that were out, the later ones
      already lost, and how many losses the count it read was short of. */
  datatype AtStamp = AtStamp(companions: set<int>, ahead: set<int>, unseen: nat)

  /** What held as a record was appended: the sequence it was given, how many others were under
      way, and how many had raised. */
  datatype AtAppend = AtAppend(sequence: nat, beside: nat, raised: nat)

  /** The log; the records under way, by whoever makes them; how many were appended and how many
      raised; the records taken off and not stamped yet, those the sink has now, and those it
      accepted, in order; the places lost; and what is remembered of each place. */
  datatype Trace = Trace(
    held: Held,
    makers: map<nat, Stage>,
    appended: nat,
    raised: nat,
    popped: seq<Taken>,
    inFlight: seq<Given>,
    delivered: seq<Given>,
    lost: set<int>,
    stamped: map<int, AtStamp>,
    entered: map<int, AtAppend>)

  datatype Step =
    | Begins(id: nat)
    | Checks(id: nat)
    | Sheds(id: nat)
    | Counts(id: nat)
    | Appends(id: nat, outcome: Outcome)
    | Pops
    | Stamps(which: nat)
    | Accepts(which: nat)
    | Refuses(which: nat)

  function Start(): Trace { Trace(Held(0, 0, []), map[], 0, 0, [], [], [], {}, map[], map[]) }

  function TakenPlaces(taken: seq<Taken>): set<int> { set p | p in taken :: p.place }

  function GivenPlaces(given: seq<Given>): set<int> { set r | r in given :: r.place }

  /** The places that have left the log and been neither accepted nor lost. */
  function Out(t: Trace): set<int> { TakenPlaces(t.popped) + GivenPlaces(t.inFlight) }

  /** The place of the record that would leave next. */
  function Head(t: Trace): int { t.appended - |t.held.pending| + 1 }

  /** Who has shed a record and not counted it yet. */
  function Shedding(makers: map<nat, Stage>): set<nat> { set id | id in makers && makers[id] == Shed }

  predicate Stands(t: Trace, id: nat, stage: Stage) { id in t.makers && t.makers[id] == stage }

  function Without<T>(items: seq<T>, which: nat): seq<T>
    requires which < |items|
  {
    items[..which] + items[which + 1..]
  }

  function Lower(s: set<int>, n: int): set<int> { set x | x in s && x < n }

  function Higher(s: set<int>, n: int): set<int> { set x | x in s && x > n }

  /** The oldest shed; or, when the log has been emptied since it was found full, the raise that
      ends the record being made. */
  function AfterShedding(t: Trace, id: nat): Trace {
    if t.held.pending == [] then t.(makers := t.makers - {id}, raised := t.raised + 1)
    else t.(makers := t.makers[id := Shed], held := Popped(t.held), lost := t.lost + {Head(t)})
  }

  function AfterAppending(t: Trace, id: nat, outcome: Outcome): Trace {
    t.(makers := t.makers - {id},
       held := t.held.(pending := t.held.pending + [Pending(t.held.sequence, outcome)]),
       appended := t.appended + 1,
       entered := t.entered[t.appended + 1 := AtAppend(t.held.sequence, |t.makers.Keys - {id}|, t.raised)])
  }

  function AfterStamping(t: Trace, k: nat): Trace
    requires k < |t.popped|
  {
    var p := t.popped[k];
    t.(popped := Without(t.popped, k), inFlight := t.inFlight + [Given(p.place, Stamp(p.item, t.held.dropped))],
       stamped := t.stamped[p.place := AtStamp(Lower(Out(t), p.place), Higher(t.lost, p.place), |Shedding(t.makers)|)])
  }

  /** A step that finds nothing to do leaves everything as it is. */
  function Apply(capacity: nat, t: Trace, step: Step): Trace {
    match step
    case Begins(id) =>
      if id in t.makers then t
      else t.(held := t.held.(sequence := t.held.sequence + 1), makers := t.makers[id := Begun])
    case Checks(id) =>
      if !Stands(t, id, Begun) then t
      else t.(makers := t.makers[id := if |t.held.pending| == capacity then Full else Room])
    case Sheds(id) => if !Stands(t, id, Full) then t else AfterShedding(t, id)
    case Counts(id) => if !Stands(t, id, Shed) then t else t.(makers := t.makers[id := Room], held := Lost(t.held))
    case Appends(id, outcome) => if !Stands(t, id, Room) then t else AfterAppending(t, id, outcome)
    case Pops =>
      if t.held.pending == [] then t
      else t.(held := Popped(t.held), popped := t.popped + [Taken(Head(t), t.held.pending[0])])
    case Stamps(k) => if k >= |t.popped| then t else AfterStamping(t, k)
    case Accepts(k) =>
      if k >= |t.inFlight| then t
      else t.(inFlight := Without(t.inFlight, k), delivered := t.delivered + [t.inFlight[k]])
    case Refuses(k) =>
      if k >= |t.inFlight| then t
      else t.(inFlight := Without(t.inFlight, k), held := Lost(t.held), lost := t.lost + {t.inFlight[k].place})
  }

  function Run(capacity: nat, t: Trace, steps: seq<Step>): Trace
    decreases |steps|
  {
    if steps == [] then t else Run(capacity, Apply(capacity, t, steps[0]), steps[1..])
  }

  /** A step of a record under way, and not of a flush. */
  predicate OfAMaker(step: Step) { step.Begins? || step.Checks? || step.Sheds? || step.Counts? || step.Appends? }

  // -- nothing made is unaccounted for ---------------------------------------------------------

  ghost predicate Counted(t: Trace) {
    && |t.held.pending| <= t.appended
    && |t.lost| == t.held.dropped + |Shedding(t.makers)|
    && t.appended == |t.delivered| + |t.lost| + |t.popped| + |t.inFlight| + |t.held.pending|
    && t.held.sequence == t.appended + t.raised + |t.makers.Keys|
  }

  /** What one maker's change of stage does to the two counts of makers. */
  lemma MakerMoves(makers: map<nat, Stage>, id: nat, stage: Stage)
    ensures makers[id := stage].Keys == makers.Keys + {id}
    ensures Shedding(makers[id := stage]) == (if stage == Shed then Shedding(makers) + {id} else Shedding(makers) - {id})
    ensures (makers - {id}).Keys == makers.Keys - {id}
    ensures Shedding(makers - {id}) == Shedding(makers) - {id}
  {
  }

  lemma MakerCounts(makers: map<nat, Stage>, id: nat, stage: Stage)
    requires id in makers
    ensures |(makers - {id}).Keys| == |makers.Keys| - 1 && |makers[id := stage].Keys| == |makers.Keys|
    ensures makers[id] != Shed ==> |Shedding(makers - {id})| == |Shedding(makers)|
    ensures makers[id] != Shed ==> |Shedding(makers[id := stage])| == |Shedding(makers)| + if stage == Shed then 1 else 0
    ensures makers[id] == Shed && stage != Shed ==> |Shedding(makers[id := stage])| == |Shedding(makers)| - 1
  {
    MakerMoves(makers, id, stage);
    assert makers.Keys + {id} == makers.Keys;
    if makers[id] != Shed {
      assert id !in Shedding(makers);
      assert Shedding(makers) - {id} == Shedding(makers);
    } else {
      assert id in Shedding(makers);
    }
  }

  lemma BeginningCounts(makers: map<nat, Stage>, id: nat)
    requires id !in makers
    ensures |makers[id := Begun].Keys| == |makers.Keys| + 1 && Shedding(makers[id := Begun]) == Shedding(makers)
  {
    MakerMoves(makers, id, Begun);
    assert Shedding(makers) - {id} == Shedding(makers);
  }

  /** A place in range is not yet lost; losing it is one loss more. */
  lemma MakingCounts(capacity: nat, t: Trace, step: Step)
    requires Counted(t) && Head(t) !in t.lost && OfAMaker(step)
    ensures Counted(Apply(capacity, t, step))
  {
    var id := step.id;
    if id !in t.makers {
      BeginningCounts(t.makers, id);
    } else {
      MakerCounts(t.makers, id, Shed);
      MakerCounts(t.makers, id, Full);
      MakerCounts(t.makers, id, Room);
    }
  }

  lemma RefusalCounts(t: Trace, k: nat)
    requires Counted(t) && k < |t.inFlight| && t.inFlight[k].place !in t.lost
    ensures Counted(Apply(0, t, Refuses(k)))
  {
    assert |t.lost + {t.inFlight[k].place}| == |t.lost| + 1;
    assert |Without(t.inFlight, k)| == |t.inFlight| - 1;
  }

  lemma FlushingCounts(t: Trace, step: Step)
    requires Counted(t) && !OfAMaker(step) && !step.Refuses?
    ensures Counted(Apply(0, t, step))
  {
    match step {
      case Pops =>
      case Stamps(k) => if k < |t.popped| { assert |Without(t.popped, k)| == |t.popped| - 1; }
      case Accepts(k) => if k < |t.inFlight| { assert |Without(t.inFlight, k)| == |t.inFlight| - 1; }
      case _ =>
    }
  }

  /** How many records a schedule begins, and how many it appends. */
  function BegunIn(capacity: nat, t: Trace, steps: seq<Step>): nat
    decreases |steps|
  {
    if steps == [] then 0
    else (if steps[0].Begins? && steps[0].id !in t.makers then 1 else 0) + BegunIn(capacity, Apply(capacity, t, steps[0]), steps[1..])
  }

  lemma {:induction false} SequenceCountsTheBegun(capacity: nat, t: Trace, steps: seq<Step>)
    ensures Run(capacity, t, steps).held.sequence == t.held.sequence + BegunIn(capacity, t, steps)
    decreases |steps|
  {
    if steps != [] {
      SequenceCountsTheBegun(capacity, Apply(capacity, t, steps[0]), steps[1..]);
    }
  }

  // -- what every step keeps ---------------------------------------------------------------------

  ghost predicate LostIsPast(t: Trace) { forall s :: s in t.lost ==> 0 < s < Head(t) }

  ghost predicate DistinctTaken(taken: seq<Taken>) {
    forall i, j :: 0 <= i < j < |taken| ==> taken[i].place != taken[j].place
  }

  ghost predicate DistinctGiven(given: seq<Given>) {
    forall i, j :: 0 <= i < j < |given| ==> given[i].place != given[j].place
  }

  /** What is out left the log, is out once, and is neither lost nor accepted. */
  ghost predicate OutIsApart(t: Trace) {
    && DistinctTaken(t.popped) && DistinctGiven(t.inFlight)
    && TakenPlaces(t.popped) !! GivenPlaces(t.inFlight)
    && Out(t) !! t.lost && Out(t) !! GivenPlaces(t.delivered)
    && forall s :: s in Out(t) ==> 0 < s < Head(t)
  }

  ghost predicate DeliveredIsApart(t: Trace) {
    GivenPlaces(t.delivered) !! t.lost && forall s :: s in GivenPlaces(t.delivered) ==> 0 < s < Head(t)
  }

  /** Every record that left the log is lost, out or delivered. */
  ghost predicate NoneForgotten(t: Trace) {
    forall s: int :: 0 < s < Head(t) ==> s in t.lost || s in Out(t) || s in GivenPlaces(t.delivered)
  }

  ghost predicate Left(t: Trace, r: Given) { r in t.inFlight || r in t.delivered }

  function LostBelow(t: Trace, place: int): set<int> { Lower(t.lost, place) }

  /** What a marker says, against what was lost below it: it counts the later losses it saw, and
      misses the earlier ones that came after and those the log had not counted. */
  ghost predicate Accounted(t: Trace, r: Given) {
    && r.place in t.stamped
    && (forall c :: c in t.stamped[r.place].companions ==> c < r.place)
    && r.record.droppedBefore + |t.stamped[r.place].companions * t.lost| + t.stamped[r.place].unseen
       == |LostBelow(t, r.place)| + |t.stamped[r.place].ahead|
  }

  ghost predicate AllAccounted(t: Trace) { forall r :: Left(t, r) ==> Accounted(t, r) }

  /** An earlier place still out when a record has been stamped was out when it was. */
  ghost predicate CompanionsSeen(t: Trace) {
    forall s, r :: s in Out(t) && Left(t, r) && s < r.place ==>
      r.place in t.stamped && s in t.stamped[r.place].companions
  }

  ghost predicate Kept(t: Trace) {
    && Counted(t) && LostIsPast(t) && OutIsApart(t) && DeliveredIsApart(t)
    && NoneForgotten(t) && AllAccounted(t) && CompanionsSeen(t)
  }

  /** A record removed from the middle leaves the others, and no other of its place. */
  lemma WithoutGiven(given: seq<Given>, which: nat)
    requires which < |given| && DistinctGiven(given)
    ensures DistinctGiven(Without(given, which))
    ensures forall r :: r in Without(given, which) <==> r in given && r != given[which]
    ensures GivenPlaces(Without(given, which)) == GivenPlaces(given) - {given[which].place}
  {
    var rest := Without(given, which);
    forall r ensures r in rest <==> r in given && r != given[which] {
      if r in given && r != given[which] {
        var i :| 0 <= i < |given| && given[i] == r;
        assert rest[if i < which then i else i - 1] == r;
      }
    }
    forall r | r in rest ensures r.place != given[which].place {
      var i :| 0 <= i < |given| && given[i] == r;
    }
  }

  lemma WithoutTaken(taken: seq<Taken>, which: nat)
    requires which < |taken| && DistinctTaken(taken)
    ensures DistinctTaken(Without(taken, which))
    ensures TakenPlaces(Without(taken, which)) == TakenPlaces(taken) - {taken[which].place}
  {
    var rest := Without(taken, which);
    forall p | p in taken && p != taken[which] ensures p in rest {
      var i :| 0 <= i < |taken| && taken[i] == p;
      assert rest[if i < which then i else i - 1] == p;
    }
    forall p | p in rest ensures p in taken && p.place != taken[which].place {
      var i :| 0 <= i < |rest| && rest[i] == p;
      assert taken[if i < which then i else i + 1] == p;
    }
  }

  lemma LeftIsPast(t: Trace, r: Given)
    requires OutIsApart(t) && DeliveredIsApart(t) && Left(t, r)
    ensures 0 < r.place < Head(t) && r.place !in t.lost
  {
    if r in t.inFlight {
      assert r.place in Out(t);
    } else {
      assert r.place in GivenPlaces(t.delivered);
    }
  }

  // -- making a record ------------------------------------------------------------------------------

  /** A loss at or after a record changes nothing of its account. */
  lemma LaterLossIsNoConcern(t: Trace, u: Trace, r: Given)
    requires Accounted(t, r) && u.stamped == t.stamped && t.lost <= u.lost
    requires forall s :: s in u.lost && s !in t.lost ==> s >= r.place
    ensures Accounted(u, r)
  {
    var c := t.stamped[r.place].companions;
    assert LostBelow(u, r.place) == LostBelow(t, r.place);
    forall s | s in c ensures s in u.lost <==> s in t.lost {
    }
    assert c * u.lost == c * t.lost;
  }

  lemma OutUnmoved(t: Trace, u: Trace)
    requires CompanionsSeen(t) && u.popped == t.popped && u.inFlight == t.inFlight && u.delivered == t.delivered
    requires u.stamped == t.stamped
    ensures CompanionsSeen(u)
  {
    forall s, r | s in Out(u) && Left(u, r) && s < r.place
      ensures r.place in u.stamped && s in u.stamped[r.place].companions
    {
      assert s in Out(t) && Left(t, r);
    }
  }

  lemma AccountsStand(t: Trace, u: Trace)
    requires OutIsApart(t) && DeliveredIsApart(t) && AllAccounted(t)
    requires u.inFlight == t.inFlight && u.delivered == t.delivered && u.stamped == t.stamped
    requires u.lost == t.lost || u.lost == t.lost + {Head(t)}
    ensures AllAccounted(u)
  {
    forall r | Left(u, r) ensures Accounted(u, r) {
      assert Left(t, r);
      LeftIsPast(t, r);
      LaterLossIsNoConcern(t, u, r);
    }
  }

  /** A step of a record under way leaves everything that has left the log as it is, but for the
      head it may shed. */
  lemma MakingMoves(capacity: nat, t: Trace, step: Step)
    requires |t.held.pending| <= t.appended && OfAMaker(step)
    ensures var u := Apply(capacity, t, step);
      && u.popped == t.popped && u.inFlight == t.inFlight && u.delivered == t.delivered && u.stamped == t.stamped
      && ((Head(u) == Head(t) && u.lost == t.lost) || (Head(u) == Head(t) + 1 && u.lost == t.lost + {Head(t)}))
      && |u.held.pending| <= u.appended
  {
  }

  lemma MakingKeeps(capacity: nat, t: Trace, step: Step)
    requires Kept(t) && OfAMaker(step)
    ensures Kept(Apply(capacity, t, step))
  {
    var u := Apply(capacity, t, step);
    MakingMoves(capacity, t, step);
    MakingCounts(capacity, t, step);
    assert Out(u) == Out(t);
    AccountsStand(t, u);
    OutUnmoved(t, u);
    PlacesStand(t, u);
  }

  lemma PlacesStand(t: Trace, u: Trace)
    requires LostIsPast(t) && OutIsApart(t) && DeliveredIsApart(t) && NoneForgotten(t) && |t.held.pending| <= t.appended
    requires u.popped == t.popped && u.inFlight == t.inFlight && u.delivered == t.delivered
    requires (Head(u) == Head(t) && u.lost == t.lost) || (Head(u) == Head(t) + 1 && u.lost == t.lost + {Head(t)})
    ensures LostIsPast(u) && OutIsApart(u) && DeliveredIsApart(u) && NoneForgotten(u)
  {
    assert Out(u) == Out(t);
  }

  // -- taking it off the log --------------------------------------------------------------------------

  lemma PopsMoves(t: Trace)
    requires t.held.pending != []
    ensures var u := Apply(0, t, Pops);
      && Head(u) == Head(t) + 1 && u == t.(held := u.held, popped := u.popped)
      && u.popped == t.popped + [Taken(Head(t), t.held.pending[0])]
      && TakenPlaces(u.popped) == TakenPlaces(t.popped) + {Head(t)} && Out(u) == Out(t) + {Head(t)}
  {
    var u := Apply(0, t, Pops);
    assert u.popped[|t.popped|] in u.popped;
    assert forall p :: p in u.popped <==> p in t.popped || p == Taken(Head(t), t.held.pending[0]);
  }

  lemma PopsKeepsApart(t: Trace, u: Trace)
    requires LostIsPast(t) && OutIsApart(t) && DeliveredIsApart(t) && NoneForgotten(t) && Head(t) > 0
    requires u == t.(held := u.held, popped := u.popped) && Head(u) == Head(t) + 1
    requires |u.popped| > 0 && u.popped == t.popped + [u.popped[|u.popped| - 1]]
    requires u.popped[|u.popped| - 1].place == Head(t)
    requires TakenPlaces(u.popped) == TakenPlaces(t.popped) + {Head(t)} && Out(u) == Out(t) + {Head(t)}
    ensures LostIsPast(u) && OutIsApart(u) && DeliveredIsApart(u) && NoneForgotten(u)
  {
    forall i | 0 <= i < |t.popped| ensures t.popped[i].place != Head(t) {
      assert t.popped[i] in t.popped && t.popped[i].place in Out(t);
    }
    assert Head(t) !in Out(t);
  }

  lemma PopsKeeps(t: Trace)
    requires Kept(t)
    ensures Kept(Apply(0, t, Pops))
  {
    if t.held.pending != [] {
      var u := Apply(0, t, Pops);
      PopsMoves(t);
      FlushingCountsKept(t, Pops);
      PopsKeepsApart(t, u);
      AccountsStand(t, u);
      forall s, r | s in Out(u) && Left(u, r) && s < r.place
        ensures r.place in u.stamped && s in u.stamped[r.place].companions
      {
        assert Left(t, r);
        LeftIsPast(t, r);
        assert s in Out(t);
      }
    }
  }

  lemma FlushingCountsKept(t: Trace, step: Step)
    requires Counted(t) && OutIsApart(t) && !OfAMaker(step)
    ensures Counted(Apply(0, t, step))
  {
    if step.Refuses? {
      if step.which < |t.inFlight| {
        assert t.inFlight[step.which] in t.inFlight && t.inFlight[step.which].place in Out(t);
        RefusalCounts(t, step.which);
      }
    } else {
      FlushingCounts(t, step);
    }
  }

  // -- stamping it -------------------------------------------------------------------------------------

  lemma LossesSplit(lost: set<int>, n: int)
    requires n !in lost
    ensures |lost| == |Lower(lost, n)| + |Higher(lost, n)|
  {
    assert lost == Lower(lost, n) + Higher(lost, n) && Lower(lost, n) !! Higher(lost, n);
  }

  /** At its stamp a record's account is exact: every loss is before it or ahead of it, the count
      is short of those being counted, and what is out is not lost. */
  lemma NewestIsAccounted(t: Trace, k: nat)
    requires Counted(t) && OutIsApart(t) && k < |t.popped|
    ensures Accounted(AfterStamping(t, k), Given(t.popped[k].place, Stamp(t.popped[k].item, t.held.dropped)))
  {
    var u := AfterStamping(t, k);
    var n := t.popped[k].place;
    assert t.popped[k] in t.popped && n in Out(t) && n !in t.lost;
    LossesSplit(t.lost, n);
    assert u.stamped[n].companions * u.lost == {};
  }

  lemma StampsMoves(t: Trace, k: nat)
    requires OutIsApart(t) && k < |t.popped|
    ensures var u := AfterStamping(t, k);
      && Out(u) == Out(t) && OutIsApart(u)
  {
    var u := AfterStamping(t, k);
    var p := t.popped[k];
    WithoutTaken(t.popped, k);
    assert p in t.popped;
    assert u.inFlight[|t.inFlight|] in u.inFlight;
    assert GivenPlaces(u.inFlight) == GivenPlaces(t.inFlight) + {p.place};
    forall i | 0 <= i < |t.inFlight| ensures t.inFlight[i].place != p.place {
      assert t.inFlight[i] in t.inFlight && t.inFlight[i].place in GivenPlaces(t.inFlight);
    }
  }

  lemma StampsKeepsOthers(t: Trace, k: nat, r: Given)
    requires OutIsApart(t) && DeliveredIsApart(t) && AllAccounted(t) && k < |t.popped| && Left(t, r)
    ensures r.place != t.popped[k].place
    ensures Accounted(AfterStamping(t, k), r)
  {
    var u := AfterStamping(t, k);
    assert t.popped[k] in t.popped && t.popped[k].place in TakenPlaces(t.popped) && t.popped[k].place in Out(t);
    if r in t.inFlight {
      assert r.place in GivenPlaces(t.inFlight);
    } else {
      assert r.place in GivenPlaces(t.delivered);
    }
    assert Accounted(t, r);
    assert LostBelow(u, r.place) == LostBelow(t, r.place);
  }

  lemma StampsKeeps(t: Trace, k: nat)
    requires Kept(t) && k < |t.popped|
    ensures Kept(AfterStamping(t, k))
  {
    var u := AfterStamping(t, k);
    var newest := Given(t.popped[k].place, Stamp(t.popped[k].item, t.held.dropped));
    StampsMoves(t, k);
    FlushingCountsKept(t, Stamps(k));
    forall r | Left(u, r) ensures r == newest || Left(t, r) {
    }
    assert AllAccounted(u) by {
      forall r | Left(u, r) ensures Accounted(u, r) {
        if r == newest {
          NewestIsAccounted(t, k);
        } else {
          StampsKeepsOthers(t, k, r);
        }
      }
    }
    assert CompanionsSeen(u) by {
      forall s, r | s in Out(u) && Left(u, r) && s < r.place
        ensures r.place in u.stamped && s in u.stamped[r.place].companions
      {
        if r != newest {
          StampsKeepsOthers(t, k, r);
        }
      }
    }
  }

  // -- the sink's answer ----------------------------------------------------------------------------------

  lemma AcceptsMoves(t: Trace, k: nat)
    requires OutIsApart(t) && k < |t.inFlight|
    ensures var u, place := Apply(0, t, Accepts(k)), t.inFlight[k].place;
      && place in GivenPlaces(t.inFlight) && Out(u) == Out(t) - {place}
      && GivenPlaces(u.delivered) == GivenPlaces(t.delivered) + {place}
  {
    var u := Apply(0, t, Accepts(k));
    var x := t.inFlight[k];
    WithoutGiven(t.inFlight, k);
    assert x in t.inFlight && x.place in GivenPlaces(t.inFlight);
    assert u.delivered[|t.delivered|] in u.delivered;
  }

  lemma AcceptsKeepsApart(t: Trace, k: nat)
    requires LostIsPast(t) && OutIsApart(t) && DeliveredIsApart(t) && NoneForgotten(t) && k < |t.inFlight|
    ensures var u := Apply(0, t, Accepts(k)); LostIsPast(u) && OutIsApart(u) && DeliveredIsApart(u) && NoneForgotten(u)
  {
    WithoutGiven(t.inFlight, k);
    AcceptsMoves(t, k);
  }

  lemma AcceptsKeeps(t: Trace, k: nat)
    requires Kept(t) && k < |t.inFlight|
    ensures Kept(Apply(0, t, Accepts(k)))
  {
    var u := Apply(0, t, Accepts(k));
    FlushingCountsKept(t, Accepts(k));
    AcceptsKeepsApart(t, k);
    AcceptsMoves(t, k);
    assert t.inFlight[k] in t.inFlight;
    forall r | Left(u, r) ensures Left(t, r) && Accounted(u, r) {
      assert Left(t, r);
      LaterLossIsNoConcern(t, u, r);
    }
  }

  lemma LossIsSeenByItsCompanions(t: Trace, u: Trace, x: int, r: Given)
    requires Accounted(t, r) && x !in t.lost && u.lost == t.lost + {x} && u.stamped == t.stamped
    requires x < r.place ==> x in t.stamped[r.place].companions
    ensures Accounted(u, r)
  {
    if x < r.place {
      assert LostBelow(u, r.place) == LostBelow(t, r.place) + {x};
      assert t.stamped[r.place].companions * u.lost == (t.stamped[r.place].companions * t.lost) + {x};
    } else {
      LaterLossIsNoConcern(t, u, r);
    }
  }

  lemma RefusesMoves(t: Trace, k: nat)
    requires OutIsApart(t) && k < |t.inFlight|
    ensures var u, place := Apply(0, t, Refuses(k)), t.inFlight[k].place;
      && place in Out(t) && Out(u) == Out(t) - {place} && u.lost == t.lost + {place} && u.stamped == t.stamped
      && forall r :: Left(u, r) ==> Left(t, r)
  {
    WithoutGiven(t.inFlight, k);
    assert t.inFlight[k] in t.inFlight && t.inFlight[k].place in GivenPlaces(t.inFlight);
  }

  lemma RefusesKeepsApart(t: Trace, k: nat)
    requires LostIsPast(t) && OutIsApart(t) && DeliveredIsApart(t) && NoneForgotten(t) && k < |t.inFlight|
    ensures var u := Apply(0, t, Refuses(k)); LostIsPast(u) && OutIsApart(u) && DeliveredIsApart(u) && NoneForgotten(u)
  {
    WithoutGiven(t.inFlight, k);
    RefusesMoves(t, k);
  }

  lemma RefusesKeeps(t: Trace, k: nat)
    requires Kept(t) && k < |t.inFlight|
    ensures Kept(Apply(0, t, Refuses(k)))
  {
    var u := Apply(0, t, Refuses(k));
    FlushingCountsKept(t, Refuses(k));
    RefusesKeepsApart(t, k);
    RefusesMoves(t, k);
    forall r | Left(u, r) ensures Left(t, r) && Accounted(u, r) {
      assert Left(t, r);
      LossIsSeenByItsCompanions(t, u, t.inFlight[k].place, r);
    }
  }

  /** Every statement of every record and of every flush keeps all of it. */
  lemma StepKeeps(capacity: nat, t: Trace, step: Step)
    requires Kept(t)
    ensures Kept(Apply(capacity, t, step))
  {
    match step {
      case Pops => PopsKeeps(t);
      case Stamps(k) => if k < |t.popped| { StampsKeeps(t, k); }
      case Accepts(k) => if k < |t.inFlight| { AcceptsKeeps(t, k); }
      case Refuses(k) => if k < |t.inFlight| { RefusesKeeps(t, k); }
      case _ => MakingKeeps(capacity, t, step);
    }
  }

  lemma {:induction false} RunKeeps(capacity: nat, t: Trace, steps: seq<Step>)
    requires Kept(t)
    ensures Kept(Run(capacity, t, steps))
    decreases |steps|
  {
    if steps != [] {
      StepKeeps(capacity, t, steps[0]);
      RunKeeps(capacity, Apply(capacity, t, steps[0]), steps[1..]);
    }
  }

  lemma StartIsKept()
    ensures Kept(Start())
  {
    assert Shedding(Start().makers) == {} && Out(Start()) == {};
  }

  /** Whatever overlaps what, each record begun is delivered, lost, pending, out, under way or has
      raised; and the log's own count is short of the losses by those being counted. */
  lemma EveryRecordMadeIsAccountedFor(capacity: nat, steps: seq<Step>)
    ensures var t := Run(capacity, Start(), steps);
      && BegunIn(capacity, Start(), steps)
         == |t.delivered| + |t.lost| + |t.held.pending| + |t.popped| + |t.inFlight| + |t.makers.Keys| + t.raised
      && |t.lost| == t.held.dropped + |Shedding(t.makers)|
  {
    StartIsKept();
    RunKeeps(capacity, Start(), steps);
    SequenceCountsTheBegun(capacity, Start(), steps);
  }

  // -- a call that nothing disturbs -----------------------------------------------------------------------

  function RecordSteps(id: nat, outcome: Outcome): seq<Step> {
    [Begins(id), Checks(id), Sheds(id), Counts(id), Appends(id, outcome)]
  }

  lemma RunFive(capacity: nat, t: Trace, a: Step, b: Step, c: Step, d: Step, e: Step)
    ensures Run(capacity, t, [a, b, c, d, e])
      == Apply(capacity, Apply(capacity, Apply(capacity, Apply(capacity, Apply(capacity, t, a), b), c), d), e)
  {
    var t1 := Apply(capacity, t, a);
    var t2 := Apply(capacity, t1, b);
    var t3 := Apply(capacity, t2, c);
    var t4 := Apply(capacity, t3, d);
    assert [a, b, c, d, e][1..] == [b, c, d, e] && [b, c, d, e][1..] == [c, d, e] && [c, d, e][1..] == [d, e];
    assert [d, e][1..] == [e] && [e][1..] == [];
    assert Run(capacity, t4, [e]) == Apply(capacity, t4, e);
    assert Run(capacity, t3, [d, e]) == Apply(capacity, t4, e);
    assert Run(capacity, t2, [c, d, e]) == Apply(capacity, t4, e);
    assert Run(capacity, t1, [b, c, d, e]) == Apply(capacity, t4, e);
  }

  /** A maker who found room, or found none and made some. */
  lemma FindsRoom(capacity: nat, t: Trace, id: nat)
    requires Stands(t, id, Begun) && |t.held.pending| != capacity
    ensures Apply(capacity, Apply(capacity, Apply(capacity, t, Checks(id)), Sheds(id)), Counts(id))
      == t.(makers := t.makers[id := Room])
  {
  }

  lemma MakesRoom(capacity: nat, t: Trace, id: nat)
    requires Stands(t, id, Begun) && |t.held.pending| == capacity && capacity >= 1
    ensures Apply(capacity, Apply(capacity, Apply(capacity, t, Checks(id)), Sheds(id)), Counts(id))
      == t.(makers := t.makers[id := Room], held := Lost(Popped(t.held)), lost := t.lost + {Head(t)})
  {
    var full := Apply(capacity, t, Checks(id));
    assert full == t.(makers := t.makers[id := Full]);
    var shed := Apply(capacity, full, Sheds(id));
    assert shed == t.(makers := t.makers[id := Full][id := Shed], held := Popped(t.held), lost := t.lost + {Head(t)});
    assert t.makers[id := Full][id := Shed][id := Room] == t.makers[id := Room];
  }

  lemma BeginsThenAppends(capacity: nat, t: Trace, id: nat, held: Held, lost: set<int>, outcome: Outcome)
    requires id !in t.makers
    ensures var ready := t.(makers := t.makers[id := Begun][id := Room], held := held, lost := lost);
      var u := Apply(capacity, ready, Appends(id, outcome));
      && u.held == held.(pending := held.pending + [Pending(held.sequence, outcome)])
      && u == t.(held := u.held, appended := t.appended + 1, lost := lost, entered := u.entered)
  {
    assert t.makers[id := Begun][id := Room] - {id} == t.makers;
  }

  /** What the log's own method does is a run of these steps, whoever else is half way. */
  lemma RecordIsARun(capacity: nat, t: Trace, id: nat, outcome: Outcome)
    requires capacity >= 1 && id !in t.makers
    ensures var u := Run(capacity, t, RecordSteps(id, outcome));
      && u.held == Made(t.held, capacity, outcome)
      && u.lost == (if |t.held.pending| == capacity then t.lost + {Head(t)} else t.lost)
      && u == t.(held := u.held, appended := t.appended + 1, lost := u.lost, entered := u.entered)
  {
    RunFive(capacity, t, Begins(id), Checks(id), Sheds(id), Counts(id), Appends(id, outcome));
    var began := Apply(capacity, t, Begins(id));
    if |t.held.pending| == capacity {
      MakesRoom(capacity, began, id);
      BeginsThenAppends(capacity, t, id, Lost(Popped(began.held)), t.lost + {Head(t)}, outcome);
    } else {
      FindsRoom(capacity, began, id);
      BeginsThenAppends(capacity, t, id, began.held, t.lost, outcome);
    }
  }
}
