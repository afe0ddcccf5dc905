/** The chain's verdict: contiguity, then every hash, then every link. */
module EvidenceChain {
  import opened Outcomes
  import opened EvidenceEntry
  import opened EvidenceGrades

  datatype Condition = Intact | BrokenAt | GapAt | Unverifiable

  datatype DeclaredGap = DeclaredGap(sequence: nat, reason: string, count: int)

  datatype ChainVerdict = ChainVerdict(
    scope: string,
    condition: Condition,
    fromSequence: int,
    toSequence: Option<nat>,
    upTo: Option<nat>,
    sequence: Option<int>,
    expected: Option<string>,
    found: Option<string>,
    version: Option<string>,
    coversAnEntry: bool,
    declaredGaps: seq<DeclaredGap>,
    grades: map<string, Grade>)

  datatype CallerError = InvalidBundle

  predicate ScopeChar(c: char) {
    'a' <= c <= 'z' || 'A' <= c <= 'Z' || '0' <= c <= '9'
  }

  /** The contract's scope grammar. */
  predicate ValidScope(s: string) {
    && 1 <= |s| <= 128
    && ScopeChar(s[0])
    && forall i :: 1 <= i < |s| ==> ScopeChar(s[i]) || s[i] in {'.', '_', '-'}
  }

  predicate ValidRange(from: int, to: Option<int>) {
    from >= 1 && (to.Some? ==> to.value >= from)
  }

  function GapsOf(entries: seq<Entry>): seq<DeclaredGap> {
    if entries == [] then []
    else
      (if entries[0].body.Gap? then [DeclaredGap(entries[0].sequence, entries[0].body.reason, entries[0].body.count)]
       else []) + GapsOf(entries[1..])
  }

  /** What stage a range fails at, and the index of the entry it fails at. */
  datatype Finding =
    | OtherScope
    | OutOfOrder
    | NothingRead(to: Option<int>)
    | StartsElsewhere
    | Jump(at: nat)
    | StopsShort
    | NoRecipe(at: nat)
    | WrongHash(at: nat)
    | WrongLink(at: nat)
    | Whole

  // -- the stages, each as the least index at which it fails --------------------------

  predicate SingleScope(entries: seq<Entry>, scope: string) {
    forall e :: e in entries ==> e.scope == scope
  }

  predicate InOrder(entries: seq<Entry>) {
    forall i :: 1 <= i < |entries| ==> entries[i - 1].sequence < entries[i].sequence
  }

  predicate StepsByOne(entries: seq<Entry>, i: nat)
    requires 1 <= i < |entries|
  {
    entries[i].sequence == entries[i - 1].sequence + 1
  }

  /** The recipe is this reader's and can be applied. */
  predicate Applicable(h: Hasher, e: Entry) {
    e.preimageVersion == PREIMAGE_VERSION && h(e).Some?
  }

  predicate Linked(entries: seq<Entry>, i: nat)
    requires 1 <= i < |entries|
  {
    entries[i].previousHash == Some(entries[i - 1].entryHash)
  }

  ghost predicate ContiguousTo(entries: seq<Entry>, n: nat) {
    forall i :: 1 <= i < n && i < |entries| ==> StepsByOne(entries, i)
  }

  ghost predicate VerifiedTo(h: Hasher, entries: seq<Entry>, n: nat) {
    forall i :: 0 <= i < n && i < |entries| ==> Verifies(h, entries[i])
  }

  ghost predicate LinkedTo(entries: seq<Entry>, n: nat) {
    forall i :: 1 <= i < n && i < |entries| ==> Linked(entries, i)
  }

  /** What each finding establishes, and all it establishes: the stages before its own hold
      of the whole range, its own holds up to the named entry, and later ones were not run. */
  ghost predicate Establishes(f: Finding, h: Hasher, entries: seq<Entry>, scope: string, from: int, to: Option<int>) {
    var n := |entries|;
    match f
    case OtherScope => !SingleScope(entries, scope)
    case OutOfOrder => SingleScope(entries, scope) && !InOrder(entries)
    case NothingRead(t) => entries == [] && t == to
    case StartsElsewhere =>
      SingleScope(entries, scope) && InOrder(entries) && n > 0 && entries[0].sequence != from
    case Jump(i) =>
      && SingleScope(entries, scope) && InOrder(entries) && n > 0 && entries[0].sequence == from
      && 1 <= i < n && ContiguousTo(entries, i) && !StepsByOne(entries, i)
    case StopsShort =>
      && SingleScope(entries, scope) && n > 0 && entries[0].sequence == from && ContiguousTo(entries, n)
      && to.Some? && entries[n - 1].sequence < to.value
    case NoRecipe(i) =>
      && Contiguous(entries, scope, from, to)
      && i < n && VerifiedTo(h, entries, i) && !Applicable(h, entries[i])
    case WrongHash(i) =>
      && Contiguous(entries, scope, from, to)
      && i < n && VerifiedTo(h, entries, i) && Applicable(h, entries[i]) && !Verifies(h, entries[i])
    case WrongLink(i) =>
      && Contiguous(entries, scope, from, to) && VerifiedTo(h, entries, n)
      && 1 <= i < n && LinkedTo(entries, i) && !Linked(entries, i)
    case Whole =>
      Contiguous(entries, scope, from, to) && VerifiedTo(h, entries, n) && LinkedTo(entries, n)
  }

  /** The first stage: one scope, no missing sequence from the first asked for to the last. */
  ghost predicate Contiguous(entries: seq<Entry>, scope: string, from: int, to: Option<int>) {
    && SingleScope(entries, scope)
    && entries != [] && entries[0].sequence == from
    && ContiguousTo(entries, |entries|)
    && (to.Some? ==> entries[|entries| - 1].sequence >= to.value)
  }

  // -- the verdict a finding is written as ------------------------------------------------

  function ConditionOf(f: Finding): Condition {
    match f
    case Whole => Intact
    case NothingRead(to) => if to == None then Unverifiable else GapAt
    case StartsElsewhere => GapAt
    case Jump(_) => GapAt
    case StopsShort => GapAt
    case WrongHash(_) => BrokenAt
    case WrongLink(_) => BrokenAt
    case _ => Unverifiable
  }

  /** The sequence the verdict names. */
  function NamedBy(f: Finding, entries: seq<Entry>, from: int): Option<int> {
    match f
    case NothingRead(to) => if to == None then None else Some(from)
    case StartsElsewhere => Some(from)
    case Jump(i) => if 1 <= i <= |entries| then Some(entries[i - 1].sequence + 1) else None
    case StopsShort => if entries != [] then Some(entries[|entries| - 1].sequence + 1) else None
    case NoRecipe(i) => if i < |entries| then Some(entries[i].sequence) else None
    case WrongHash(i) => if i < |entries| then Some(entries[i].sequence) else None
    case WrongLink(i) => if i < |entries| then Some(entries[i].sequence) else None
    case _ => None
  }

  /** The length of the prefix a verdict grades. */
  function GradedBy(f: Finding, entries: seq<Entry>): nat {
    match f
    case OtherScope => 0
    case OutOfOrder => 0
    case StartsElsewhere => 0
    case Jump(i) => if i <= |entries| then i else 0
    case NoRecipe(i) => if i <= |entries| then i else 0
    case WrongHash(i) => if i <= |entries| then i else 0
    case WrongLink(i) => if i <= |entries| then i else 0
    case _ => |entries|
  }

  function LastSequence(entries: seq<Entry>): Option<nat> {
    if entries == [] then None else Some(entries[|entries| - 1].sequence)
  }

  /** The hash the verdict names as expected: what the entry recomputes to, or what its
      predecessor is. */
  function ExpectedBy(f: Finding, h: Hasher, entries: seq<Entry>): Option<string> {
    match f
    case WrongHash(i) => if i < |entries| then h(entries[i]) else None
    case WrongLink(i) => if 1 <= i <= |entries| then Some(entries[i - 1].entryHash) else None
    case _ => None
  }

  function FoundBy(f: Finding, entries: seq<Entry>): Option<string> {
    match f
    case NoRecipe(i) => if i < |entries| then Some(entries[i].entryHash) else None
    case WrongHash(i) => if i < |entries| then Some(entries[i].entryHash) else None
    case WrongLink(i) => if i < |entries| then entries[i].previousHash else None
    case _ => None
  }

  function VersionBy(f: Finding, entries: seq<Entry>): Option<string> {
    match f
    case NoRecipe(i) => if i < |entries| then Some(entries[i].preimageVersion) else None
    case _ => None
  }

  /** The verdict one finding is rendered as. */
  ghost predicate Renders(v: ChainVerdict, f: Finding, h: Hasher, entries: seq<Entry>, scope: string, from: int,
                          lowered: set<string>) {
    && v.scope == scope
    && v.condition == ConditionOf(f)
    && v.fromSequence == from
    && v.toSequence == LastSequence(entries)
    && v.upTo == (if f == Whole then LastSequence(entries) else None)
    && v.sequence == NamedBy(f, entries, from)
    && v.expected == ExpectedBy(f, h, entries)
    && v.found == FoundBy(f, entries)
    && v.version == VersionBy(f, entries)
    && v.coversAnEntry == (entries != [])
    && v.declaredGaps == GapsOf(entries)
    && WeakestGrades(entries[..GradedBy(f, entries)], lowered, v.grades)
  }

  // -- the scans ----------------------------------------------------------------------

  method EveryScopeIs(entries: seq<Entry>, scope: string) returns (ok: bool)
    ensures ok == SingleScope(entries, scope)
  {
    for i := 0 to |entries|
      invariant forall j :: 0 <= j < i ==> entries[j].scope == scope
    {
      if entries[i].scope != scope { return false; }
    }
    return true;
  }

  method EverySequenceRises(entries: seq<Entry>) returns (ok: bool)
    ensures ok == InOrder(entries)
  {
    if entries == [] { return true; }
    for i := 1 to |entries|
      invariant forall j :: 1 <= j < i ==> entries[j - 1].sequence < entries[j].sequence
    {
      if entries[i].sequence <= entries[i - 1].sequence { return false; }
    }
    return true;
  }

  method FirstJump(entries: seq<Entry>) returns (at: Option<nat>)
    ensures match at
      case None => ContiguousTo(entries, |entries|)
      case Some(i) => 1 <= i < |entries| && ContiguousTo(entries, i) && !StepsByOne(entries, i)
  {
    if entries == [] { return None; }
    for i := 1 to |entries|
      invariant ContiguousTo(entries, i)
    {
      if entries[i].sequence != entries[i - 1].sequence + 1 { return Some(i); }
    }
    return None;
  }

  method FirstUnverified(h: Hasher, entries: seq<Entry>) returns (f: Finding)
    ensures match f
      case NoRecipe(i) => i < |entries| && VerifiedTo(h, entries, i) && !Applicable(h, entries[i])
      case WrongHash(i) =>
        i < |entries| && VerifiedTo(h, entries, i) && Applicable(h, entries[i]) && !Verifies(h, entries[i])
      case Whole => VerifiedTo(h, entries, |entries|)
      case _ => false
  {
    for i := 0 to |entries|
      invariant VerifiedTo(h, entries, i)
    {
      if entries[i].preimageVersion != PREIMAGE_VERSION { return NoRecipe(i); }
      var expected := h(entries[i]);
      if expected == None { return NoRecipe(i); }
      if expected.value != entries[i].entryHash { return WrongHash(i); }
    }
    return Whole;
  }

  method FirstUnlinked(entries: seq<Entry>) returns (at: Option<nat>)
    ensures match at
      case None => LinkedTo(entries, |entries|)
      case Some(i) => 1 <= i < |entries| && LinkedTo(entries, i) && !Linked(entries, i)
  {
    if entries == [] { return None; }
    for i := 1 to |entries|
      invariant LinkedTo(entries, i)
    {
      if entries[i].previousHash != Some(entries[i - 1].entryHash) { return Some(i); }
    }
    return None;
  }

  /** The stages in their order, each run over the whole range before the next. */
  method Find(h: Hasher, entries: seq<Entry>, scope: string, from: int, to: Option<int>) returns (f: Finding)
    ensures Establishes(f, h, entries, scope, from, to)
  {
    var single := EveryScopeIs(entries, scope);
    if !single { return OtherScope; }
    var rising := EverySequenceRises(entries);
    if !rising { return OutOfOrder; }
    if entries == [] { return NothingRead(to); }
    if entries[0].sequence != from { return StartsElsewhere; }
    var jump := FirstJump(entries);
    if jump.Some? { return Jump(jump.value); }
    if to.Some? && entries[|entries| - 1].sequence < to.value { return StopsShort; }
    f := FirstUnverified(h, entries);
    if f != Whole { return f; }
    var unlinked := FirstUnlinked(entries);
    if unlinked.Some? { return WrongLink(unlinked.value); }
    return Whole;
  }

  /** The verdict on one range: it renders what was found at the first stage that failed.
      Only the caller's own arguments are refused. */
  method VerifyChain(h: Hasher, entries: seq<Entry>, scope: string, from: int, to: Option<int>, lowered: set<string>)
    returns (v: Result<ChainVerdict, CallerError>)
    ensures v.Err? <==> !(ValidScope(scope) && ValidRange(from, to))
    ensures v.Ok? ==>
      exists f :: Establishes(f, h, entries, scope, from, to) && Renders(v.value, f, h, entries, scope, from, lowered)
  {
    if !ValidScope(scope) || !ValidRange(from, to) { return Err(InvalidBundle); }
    var f := Find(h, entries, scope, from, to);
    var grades := Grades(entries[..GradedBy(f, entries)], lowered);
    var verdict := ChainVerdict(
      scope, ConditionOf(f), from, LastSequence(entries), if f == Whole then LastSequence(entries) else None,
      NamedBy(f, entries, from), ExpectedBy(f, h, entries), FoundBy(f, entries), VersionBy(f, entries),
      entries != [], GapsOf(entries), grades);
    assert Renders(verdict, f, h, entries, scope, from, lowered);
    v := Ok(verdict);
  }

  // -- exactness --------------------------------------------------------------------------

  /** A range has one finding: the stages are disjoint and each names its least failure. */
  lemma OneFinding(f: Finding, g: Finding, h: Hasher, entries: seq<Entry>, scope: string, from: int, to: Option<int>)
    requires Establishes(f, h, entries, scope, from, to) && Establishes(g, h, entries, scope, from, to)
    ensures f == g
  {
    ContiguousIsInOrder(entries);
    NoEarlierFailure(f, g, h, entries, scope, from, to);
    NoEarlierFailure(g, f, h, entries, scope, from, to);
  }

  lemma ContiguousIsInOrder(entries: seq<Entry>)
    ensures ContiguousTo(entries, |entries|) ==> InOrder(entries)
  {
    if ContiguousTo(entries, |entries|) {
      forall i | 1 <= i < |entries| ensures entries[i - 1].sequence < entries[i].sequence {
        assert StepsByOne(entries, i);
      }
    }
  }

  predicate HashStage(f: Finding) { f.NoRecipe? || f.WrongHash? }

  /** A stage that names an index was clean before it, so no other finding of that stage is
      earlier, and no later stage was reached. */
  lemma NoEarlierFailure(f: Finding, g: Finding, h: Hasher, entries: seq<Entry>, scope: string, from: int, to: Option<int>)
    requires Establishes(f, h, entries, scope, from, to) && Establishes(g, h, entries, scope, from, to)
    ensures f.Jump? && g.Jump? ==> f.at <= g.at
    ensures f.Jump? ==> !(g.StopsShort? || HashStage(g) || g.WrongLink? || g.Whole?)
    ensures HashStage(f) && HashStage(g) ==> f.at <= g.at
    ensures HashStage(f) ==> !(g.WrongLink? || g.Whole?)
    ensures f.WrongLink? && g.WrongLink? ==> f.at <= g.at
    ensures f.WrongLink? ==> g != Whole
  {
    if g.Jump? { assert !StepsByOne(entries, g.at); }
    if f.Jump? { assert !StepsByOne(entries, f.at); }
    if HashStage(g) { assert !Verifies(h, entries[g.at]); }
    if HashStage(f) { assert !Verifies(h, entries[f.at]); }
    if g.WrongLink? { assert !Linked(entries, g.at); }
    if f.WrongLink? { assert !Linked(entries, f.at); }
  }

  /** `lowered` decides grades and nothing else: two verdicts on one range differ in their
      grades only. */
  lemma LoweredNeverMovesTheVerdict(h: Hasher, entries: seq<Entry>, scope: string, from: int, to: Option<int>,
                                    v: ChainVerdict, f: Finding, w: ChainVerdict, g: Finding,
                                    lowered: set<string>, wider: set<string>)
    requires Establishes(f, h, entries, scope, from, to) && Renders(v, f, h, entries, scope, from, lowered)
    requires Establishes(g, h, entries, scope, from, to) && Renders(w, g, h, entries, scope, from, wider)
    ensures v == w.(grades := v.grades)
  {
    OneFinding(f, g, h, entries, scope, from, to);
  }

  /** `intact` says exactly this of a range. */
  ghost predicate IntactRange(h: Hasher, entries: seq<Entry>, scope: string, from: int, to: Option<int>) {
    && entries != []
    && entries[0].sequence == from
    && (to.Some? ==> entries[|entries| - 1].sequence >= to.value)
    && (forall e :: e in entries ==> e.scope == scope && Verifies(h, e))
    && forall i :: 1 <= i < |entries| ==> Follows(entries[i - 1], entries[i])
  }

  lemma IntactIsExact(f: Finding, h: Hasher, entries: seq<Entry>, scope: string, from: int, to: Option<int>)
    requires Establishes(f, h, entries, scope, from, to)
    ensures ConditionOf(f) == Intact <==> IntactRange(h, entries, scope, from, to)
  {
    WholeIsIntact(h, entries, scope, from, to);
    if IntactRange(h, entries, scope, from, to) {
      OneFinding(f, Whole, h, entries, scope, from, to);
    }
  }

  lemma WholeIsIntact(h: Hasher, entries: seq<Entry>, scope: string, from: int, to: Option<int>)
    ensures Establishes(Whole, h, entries, scope, from, to) <==> IntactRange(h, entries, scope, from, to)
  {
    if Establishes(Whole, h, entries, scope, from, to) {
      forall i | 1 <= i < |entries| ensures Follows(entries[i - 1], entries[i]) {
        assert StepsByOne(entries, i) && Linked(entries, i);
      }
    }
    if IntactRange(h, entries, scope, from, to) {
      forall i | 1 <= i < |entries| ensures StepsByOne(entries, i) && Linked(entries, i) {
        assert Follows(entries[i - 1], entries[i]);
      }
    }
  }

  lemma {:induction false} SequencesByPosition(entries: seq<Entry>, i: nat, n: nat)
    requires ContiguousTo(entries, n) && i < n <= |entries|
    ensures entries[i].sequence == entries[0].sequence + i
  {
    if i > 0 {
      SequencesByPosition(entries, i - 1, n);
      assert StepsByOne(entries, i);
    }
  }

  lemma {:induction false} RisingPast(entries: seq<Entry>, i: nat, j: nat)
    requires InOrder(entries) && i <= j < |entries|
    ensures entries[i].sequence + (j - i) <= entries[j].sequence
  {
    if i < j {
      RisingPast(entries, i, j - 1);
    }
  }

  ghost predicate Holds(entries: seq<Entry>, sequence: int) {
    exists e :: e in entries && e.sequence == sequence
  }

  /** How many entries precede the gap. */
  function BeforeGap(f: Finding, entries: seq<Entry>): nat {
    match f case Jump(i) => i case StopsShort => |entries| case _ => 0
  }

  lemma GapIsPlaced(f: Finding, h: Hasher, entries: seq<Entry>, scope: string, from: int, to: Option<int>)
    requires Establishes(f, h, entries, scope, from, to) && ConditionOf(f) == GapAt
    ensures BeforeGap(f, entries) <= |entries| && ContiguousTo(entries, BeforeGap(f, entries))
    ensures NamedBy(f, entries, from) == Some(from + BeforeGap(f, entries))
    ensures BeforeGap(f, entries) > 0 ==> entries[0].sequence == from
  {
    var n := BeforeGap(f, entries);
    if n > 0 { SequencesByPosition(entries, n - 1, n); }
  }

  lemma NoneBeforeGapIsMissing(entries: seq<Entry>, from: int, n: nat, s: int)
    requires n <= |entries| && ContiguousTo(entries, n) && (n > 0 ==> entries[0].sequence == from) && from <= s < from + n
    ensures Holds(entries, s)
  {
    SequencesByPosition(entries, s - from, n);
    assert entries[s - from] in entries;
  }

  lemma GapIsMissing(f: Finding, h: Hasher, entries: seq<Entry>, scope: string, from: int, to: Option<int>, j: nat)
    requires Establishes(f, h, entries, scope, from, to) && ConditionOf(f) == GapAt && j < |entries|
    requires entries[0].sequence >= from
    ensures entries[j].sequence != from + BeforeGap(f, entries)
  {
    var n := BeforeGap(f, entries);
    if j < n {
      SequencesByPosition(entries, j, n);
    } else {
      RisingPast(entries, n, j);
      if n > 0 {
        SequencesByPosition(entries, n - 1, n);
        assert entries[n - 1].sequence < entries[n].sequence && !StepsByOne(entries, n);
      }
    }
  }

  /** A gap names the least sequence at or after the first asked for that no entry holds,
      whenever no entry precedes the first asked for. */
  lemma GapIsTheLeastMissing(f: Finding, h: Hasher, entries: seq<Entry>, scope: string, from: int, to: Option<int>)
    requires Establishes(f, h, entries, scope, from, to) && ConditionOf(f) == GapAt
    requires forall e :: e in entries ==> e.sequence >= from
    ensures NamedBy(f, entries, from).Some?
    ensures var at := NamedBy(f, entries, from).value;
      at >= from && !Holds(entries, at) && forall s :: from <= s < at ==> Holds(entries, s)
  {
    var n := BeforeGap(f, entries);
    GapIsPlaced(f, h, entries, scope, from, to);
    forall s | from <= s < from + n ensures Holds(entries, s) {
      NoneBeforeGapIsMissing(entries, from, n, s);
    }
    forall e | e in entries ensures e.sequence != from + n {
      var j :| 0 <= j < |entries| && entries[j] == e;
      assert entries[0] in entries;
      GapIsMissing(f, h, entries, scope, from, to, j);
    }
  }

  // -- completeness: what a writer placed verifies ------------------------------------------

  /** A chain grown by placing each record on the last entry; nothing if any is refused. */
  function Placed(place: Placer, records: seq<Record>): Option<seq<Entry>> {
    if records == [] then Some([])
    else
      match Placed(place, records[..|records| - 1])
      case None => None
      case Some(before) =>
        match place(records[|records| - 1], Head(before))
        case Err(_) => None
        case Ok(e) => Some(before + [e])
  }

  function Head(chain: seq<Entry>): Option<Entry> {
    if chain == [] then None else Some(chain[|chain| - 1])
  }

  /** A chain from its genesis on, carrying these records in their order. */
  ghost predicate Carries(h: Hasher, chain: seq<Entry>, records: seq<Record>, scope: string) {
    && |chain| == |records|
    && (forall i :: 0 <= i < |chain| ==>
          && chain[i].scope == scope && Verifies(h, chain[i]) && chain[i].sequence == i + 1
          && chain[i].body == records[i].body && chain[i].connectionId == records[i].connectionId)
    && (forall i :: 1 <= i < |chain| ==> Follows(chain[i - 1], chain[i]))
  }

  lemma CarriesOneMore(h: Hasher, chain: seq<Entry>, records: seq<Record>, scope: string, e: Entry, x: Record)
    requires Carries(h, chain, records, scope)
    requires e.scope == scope && Verifies(h, e) && e.body == x.body && e.connectionId == x.connectionId
    requires if chain == [] then e.sequence == 1 else Follows(chain[|chain| - 1], e)
    ensures Carries(h, chain + [e], records + [x], scope)
  {
    var longer := chain + [e];
    forall i | 1 <= i < |longer| ensures Follows(longer[i - 1], longer[i]) {
      if i < |chain| {
        assert Follows(chain[i - 1], chain[i]);
      }
    }
  }

  /** What a placed entry owes its record and the head it was placed after. */
  ghost predicate PlacesAfter(h: Hasher, x: Record, head: Option<Entry>, e: Entry) {
    && Verifies(h, e)
    && e.scope == x.scope && e.body == x.body && e.connectionId == x.connectionId
    && if head == None then e.sequence == 1 else Follows(head.value, e)
  }

  ghost predicate PlacesWell(h: Hasher, place: Placer) {
    forall x, head :: place(x, head).Ok? ==> PlacesAfter(h, x, head, place(x, head).value)
  }

  lemma {:induction false} PlacedIsAChain(h: Hasher, place: Placer, records: seq<Record>, scope: string)
    requires PlacesWell(h, place)
    requires Placed(place, records).Some? && forall x :: x in records ==> x.scope == scope
    ensures Carries(h, Placed(place, records).value, records, scope)
  {
    if records != [] {
      var init, last := records[..|records| - 1], records[|records| - 1];
      assert records == init + [last];
      PlacedIsAChain(h, place, init, scope);
      var before := Placed(place, init).value;
      assert PlacesAfter(h, last, Head(before), place(last, Head(before)).value);
      CarriesOneMore(h, before, init, scope, place(last, Head(before)).value, last);
    }
  }

  /** `ChainedDocument` places that well. */
  lemma WriterPlacesWell(r: Recipes)
    ensures PlacesWell(HasherOf(r), PlacerOf(r))
  {
    forall x, head | PlacerOf(r)(x, head).Ok?
      ensures PlacesAfter(HasherOf(r), x, head, PlacerOf(r)(x, head).value)
    {
      PlacedVerifies(r, x, head);
    }
  }

  lemma SliceIsIntact(h: Hasher, chain: seq<Entry>, records: seq<Record>, scope: string, lo: nat, hi: nat)
    requires Carries(h, chain, records, scope) && lo < hi <= |chain|
    ensures IntactRange(h, chain[lo..hi], scope, lo + 1, Some(hi))
    ensures chain[lo..hi][hi - lo - 1].sequence == hi
  {
    var slice := chain[lo..hi];
    forall i | 1 <= i < |slice| ensures Follows(slice[i - 1], slice[i]) {
      assert Follows(chain[lo + i - 1], chain[lo + i]);
    }
  }

  lemma PlacedSliceIsIntact(h: Hasher, place: Placer, records: seq<Record>, scope: string, lo: nat, hi: nat)
    requires PlacesWell(h, place)
    requires Placed(place, records).Some? && forall x :: x in records ==> x.scope == scope
    requires lo < hi <= |Placed(place, records).value|
    ensures var slice := Placed(place, records).value[lo..hi];
      IntactRange(h, slice, scope, lo + 1, Some(hi)) && slice[|slice| - 1].sequence == hi
  {
    PlacedIsAChain(h, place, records, scope);
    SliceIsIntact(h, Placed(place, records).value, records, scope, lo, hi);
  }

  /** Every contiguous slice of what a writer placed is intact, and cannot be found otherwise. */
  lemma EverySliceIsIntact(r: Recipes, records: seq<Record>, scope: string, lo: nat, hi: nat, f: Finding)
    requires Placed(PlacerOf(r), records).Some? && forall x :: x in records ==> x.scope == scope
    requires lo < hi <= |Placed(PlacerOf(r), records).value|
    requires var slice := Placed(PlacerOf(r), records).value[lo..hi];
      Establishes(f, HasherOf(r), slice, scope, lo + 1, Some(hi))
    ensures ConditionOf(f) == Intact
  {
    var h, slice := HasherOf(r), Placed(PlacerOf(r), records).value[lo..hi];
    WriterPlacesWell(r);
    PlacedSliceIsIntact(h, PlacerOf(r), records, scope, lo, hi);
    IntactIsExact(f, h, slice, scope, lo + 1, Some(hi));
  }

  // -- the head hash fixes the history -------------------------------------------------------

  ghost predicate HashFixesThePredecessor(h: Hasher) {
    forall e, f :: Verifies(h, e) && Verifies(h, f) && e.entryHash == f.entryHash ==> e.previousHash == f.previousHash
  }

  lemma {:induction false} HashesAgreeBackwards(h: Hasher, a: seq<Entry>, b: seq<Entry>, scope: string, other: string,
                                                from: int, start: int, k: nat)
    requires HashFixesThePredecessor(h)
    requires IntactRange(h, a, scope, from, None) && IntactRange(h, b, other, start, None)
    requires a[|a| - 1].entryHash == b[|b| - 1].entryHash
    requires k < |a| && k < |b|
    ensures a[|a| - 1 - k].entryHash == b[|b| - 1 - k].entryHash
    decreases k
  {
    if k > 0 {
      HashesAgreeBackwards(h, a, b, scope, other, from, start, k - 1);
      var i, j := |a| - k, |b| - k;
      assert Verifies(h, a[i]) && Verifies(h, b[j]);
      assert Follows(a[i - 1], a[i]) && Follows(b[j - 1], b[j]);
    }
  }

  lemma PredecessorIsFixed(r: Recipes)
    requires CollisionFree(r)
    ensures HashFixesThePredecessor(HasherOf(r))
  {
    forall e, f | Verifies(HasherOf(r), e) && Verifies(HasherOf(r), f) && e.entryHash == f.entryHash
      ensures e.previousHash == f.previousHash
    {
      HashFixesTheComponents(r, e, f);
      assert Components(r, e).value[8] == e.previousHash;
    }
  }

  /** Two intact ranges that end in one hash agree, entry by entry backwards, in everything
      that was hashed, for as far back as both reach. */
  lemma HeadHashFixesTheHistory(r: Recipes, a: seq<Entry>, b: seq<Entry>, scope: string, other: string,
                                from: int, start: int, k: nat)
    requires CollisionFree(r) && CanonicalTexts(r)
    requires IntactRange(HasherOf(r), a, scope, from, None) && IntactRange(HasherOf(r), b, other, start, None)
    requires a[|a| - 1].entryHash == b[|b| - 1].entryHash
    requires k < |a| && k < |b|
    ensures HashedPart(r, a[|a| - 1 - k]) == HashedPart(r, b[|b| - 1 - k])
    ensures a[|a| - 1 - k].entryHash == b[|b| - 1 - k].entryHash
  {
    PredecessorIsFixed(r);
    HashesAgreeBackwards(HasherOf(r), a, b, scope, other, from, start, k);
    HashFixesTheEntry(r, a[|a| - 1 - k], b[|b| - 1 - k]);
  }
}
