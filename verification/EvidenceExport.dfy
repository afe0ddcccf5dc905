/** The offline verifier of an export: chain, manifest, recovery context, policies, coverage,
    and the one verdict over all of them.

    A bundle is a document whose members have been read. Some can still be bad, and then are
    data: a sequence below one, a context or an attachment that does not decode. */
module EvidenceExport {
  import opened Outcomes
  import opened EvidenceEntry
  import opened EvidenceChain
  import opened PolicyEvaluation

  datatype Attachment = Present(content: Option<string>) | Absent | Damaged | Unknown

  datatype Context = NoContext | ContextRead(entries: seq<Entry>) | ContextUnreadable

  datatype ServerVerdict = ServerVerdict(condition: string, upTo: Option<int>, rest: string)

  datatype Bundle = Bundle(
    scope: string,
    fromSequence: int,
    toSequence: Option<int>,
    nextFrom: Option<int>,
    contractVersion: string,
    entries: seq<Entry>,
    verification: ServerVerdict,
    manifestVersion: Option<string>,
    manifestHash: string,
    policyVersions: Option<map<string, Attachment>>,
    context: Context,
    rest: string)

  /** The wheel: the entry recipe, SHA-256, the manifest's canonical JSON and the parser. */
  datatype Wheel = Wheel(
    entryHash: Hasher,
    sha256: string -> string,
    manifestJson: ManifestDocument -> string,
    parse: Parser)

  // -- the manifest ---------------------------------------------------------------------

  const MANIFEST_V1 := "sayfirst-control-plane/evidence-export/v1"
  const MANIFEST_V2 := "sayfirst-control-plane/evidence-export/v2"
  const MANIFEST_V3 := "sayfirst-control-plane/evidence-export/v3"
  const MANIFEST_VERSIONS := {MANIFEST_V1, MANIFEST_V2, MANIFEST_V3}

  /** The range an older manifest binds: v1 with two members of the verdict, v2 with all. */
  datatype ManifestDocument =
    | BindsTwoMembers(scope: string, fromSequence: int, toSequence: Option<int>, contractVersion: string,
                      entryHashes: seq<string>, condition: string, upTo: Option<int>)
    | BindsTheVerdict(scope: string, fromSequence: int, toSequence: Option<int>, contractVersion: string,
                      entryHashes: seq<string>, verdict: ServerVerdict)
    | BindsTheBundle(bundle: Bundle)

  function EntryHashes(entries: seq<Entry>): seq<string> {
    if entries == [] then [] else [entries[0].entryHash] + EntryHashes(entries[1..])
  }

  function ManifestOf(b: Bundle, version: string): ManifestDocument
    requires version in MANIFEST_VERSIONS
  {
    if version == MANIFEST_V3 then BindsTheBundle(b.(manifestHash := ""))
    else if version == MANIFEST_V2 then
      BindsTheVerdict(b.scope, b.fromSequence, b.toSequence, b.contractVersion, EntryHashes(b.entries), b.verification)
    else
      BindsTwoMembers(b.scope, b.fromSequence, b.toSequence, b.contractVersion, EntryHashes(b.entries),
                      b.verification.condition, b.verification.upTo)
  }

  function ManifestHash(w: Wheel, b: Bundle, version: string): string
    requires version in MANIFEST_VERSIONS
  {
    w.sha256(w.manifestJson(ManifestOf(b, version)))
  }

  /** The digest the bundle carries is the one its recipe computes; a bundle naming no
      recipe predates v3 and is tried under the two older ones. */
  predicate ManifestRecomputes(w: Wheel, b: Bundle) {
    match b.manifestVersion
    case None => ManifestHash(w, b, MANIFEST_V1) == b.manifestHash || ManifestHash(w, b, MANIFEST_V2) == b.manifestHash
    case Some(v) => v in MANIFEST_VERSIONS && ManifestHash(w, b, v) == b.manifestHash
  }

  /** The v3 text holds every member of a bundle but the digest, so it fixes those. */
  ghost predicate BundleTextsAreCanonical(w: Wheel) {
    forall b: Bundle, c: Bundle ::
      (b.manifestHash == c.manifestHash == "" && w.manifestJson(BindsTheBundle(b)) == w.manifestJson(BindsTheBundle(c)))
      ==> b == c
  }

  /** Under a collision-free hash, two bundles sharing a v3 digest differ in nothing but the
      digest they carry. */
  lemma ManifestFixesTheBundle(w: Wheel, b: Bundle, c: Bundle)
    requires forall x, y :: w.sha256(x) == w.sha256(y) ==> x == y
    requires BundleTextsAreCanonical(w)
    requires ManifestHash(w, b, MANIFEST_V3) == ManifestHash(w, c, MANIFEST_V3)
    ensures b == c.(manifestHash := b.manifestHash)
  {
    assert b.(manifestHash := "") == c.(manifestHash := "");
    assert b.(manifestHash := "").(manifestHash := b.manifestHash) == b;
  }

  // -- the recovery context ---------------------------------------------------------------

  /** A supplied context that continues the range: the next sequence, linked to the last
      entry, and intact from there on. */
  ghost predicate ContextVerifies(h: Hasher, c: Context, entries: seq<Entry>, scope: string) {
    match c
    case NoContext => true
    case ContextUnreadable => false
    case ContextRead(read) =>
      read == [] ||
      (&& entries != []
       && Follows(entries[|entries| - 1], read[0])
       && IntactRange(h, read, scope, read[0].sequence, None))
  }

  method VerifiedContext(h: Hasher, c: Context, entries: seq<Entry>, scope: string)
    returns (context: seq<Entry>, unverified: bool)
    requires ValidScope(scope)
    ensures unverified == !ContextVerifies(h, c, entries, scope)
    ensures context == if !unverified && c.ContextRead? then c.entries else []
  {
    match c {
      case NoContext => return [], false;
      case ContextUnreadable => return [], true;
      case ContextRead(read) =>
        if read == [] { return [], false; }
        if entries == [] { return [], true; }
        if !Follows(entries[|entries| - 1], read[0]) { return [], true; }
        var f := Find(h, read, scope, read[0].sequence, None);
        IntactIsExact(f, h, read, scope, read[0].sequence, None);
        if ConditionOf(f) != Intact { return [], true; }
        return read, false;
    }
  }

  // -- the epochs the markers close ------------------------------------------------------------

  datatype Span = Span(first: int, last: int)

  predicate Within(sequence: int, spans: seq<Span>) {
    exists s :: s in spans && s.first <= sequence <= s.last
  }

  ghost predicate MarkedBy(markers: seq<Entry>, cleanly: bool, sequence: int) {
    exists m :: m in markers && m.body.Recovery? && m.body.cleanStop == cleanly
      && m.body.fromSequence <= sequence <= m.body.throughSequence
  }

  method Epochs(markers: seq<Entry>) returns (clean: seq<Span>, unclean: seq<Span>)
    ensures forall s: int :: Within(s, clean) <==> MarkedBy(markers, true, s)
    ensures forall s: int :: Within(s, unclean) <==> MarkedBy(markers, false, s)
  {
    clean, unclean := [], [];
    for i := 0 to |markers|
      invariant forall s: int :: Within(s, clean) <==> MarkedBy(markers[..i], true, s)
      invariant forall s: int :: Within(s, unclean) <==> MarkedBy(markers[..i], false, s)
    {
      var marker := markers[i];
      ghost var wasClean, wasUnclean := clean, unclean;
      if marker.body.Recovery? {
        var span := Span(marker.body.fromSequence, marker.body.throughSequence);
        if marker.body.cleanStop {
          clean := clean + [span];
        } else {
          unclean := unclean + [span];
        }
      }
      MarkedOneMore(markers[..i], marker);
      assert markers[..i + 1] == markers[..i] + [marker];
    }
    assert markers[..|markers|] == markers;
  }

  lemma MarkedOneMore(markers: seq<Entry>, m: Entry)
    ensures forall s: int, cleanly :: MarkedBy(markers + [m], cleanly, s) <==>
      MarkedBy(markers, cleanly, s)
      || (m.body.Recovery? && m.body.cleanStop == cleanly && m.body.fromSequence <= s <= m.body.throughSequence)
  {
    assert m in markers + [m];
    forall s: int, cleanly | MarkedBy(markers, cleanly, s) ensures MarkedBy(markers + [m], cleanly, s) {
      var x :| x in markers && x.body.Recovery? && x.body.cleanStop == cleanly
        && x.body.fromSequence <= s <= x.body.throughSequence;
      assert x in markers + [m];
    }
  }

  // -- the policy attachments ------------------------------------------------------------

  datatype PolicyFound = Usable(content: string) | Missing(cause: Cause, incomplete: bool) | Undecodable

  predicate HexDigit(c: char) { '0' <= c <= '9' || 'a' <= c <= 'f' }

  /** The published grammar of a policy version. */
  predicate VersionShaped(v: string) {
    |v| == 71 && v[..7] == "sha256:" && forall i :: 7 <= i < 71 ==> HexDigit(v[i])
  }

  /** One attachment, judged against the version that names it. */
  function PolicyFor(w: Wheel, b: Bundle, version: string): PolicyFound {
    if b.policyVersions == None || version !in b.policyVersions.value then Missing(PolicyAbsent, true)
    else match b.policyVersions.value[version]
      case Present(None) => Undecodable
      case Present(Some(content)) =>
        if VersionShaped(version) && "sha256:" + w.sha256(content) == version then Usable(content)
        else Missing(PolicyDamaged, true)
      case Absent => Missing(PolicyAbsent, false)
      case Damaged => Missing(PolicyDamaged, false)
      case Unknown => Missing(PolicyStateUnknown, false)
  }

  function RecordedOf(body: Body, scope: string): RecordedDecision
    requires body.Effect?
  {
    RecordedDecision(scope, body.capability, body.references, body.argumentsDigest,
                     Triple(body.outcome, body.reason, body.ruleId), body.recipe)
  }

  // -- the export verdict ---------------------------------------------------------------------

  datatype Issue = ChainUnverifiable | ChainDamaged | ManifestRecipeUnsupported | ManifestMismatch
                 | ContextUnverified | PolicyMapIncomplete | CoverageIncomplete | CoverageUnknown | NoDecisions

  datatype Coverage = Complete | Incomplete | UnknownCoverage

  datatype EntryRederivation = EntryRederivation(sequence: nat, decisionId: string, result: Rederived)

  datatype ExportVerdict =
    | Unreadable
    | ExportVerdict(
        chain: ChainVerdict,
        recomputes: Option<bool>,
        rederivations: seq<EntryRederivation>,
        coverage: Coverage,
        issues: seq<Issue>,
        overall: Rederivation)

  predicate PositiveOrAbsent(n: Option<int>) { n.Some? ==> n.value >= 1 }

  /** A bundle whose members can be read as an export at all. */
  predicate Readable(b: Bundle) {
    && ValidScope(b.scope)
    && b.fromSequence >= 1 && PositiveOrAbsent(b.toSequence) && PositiveOrAbsent(b.nextFrom)
    && (b.entries != [] ==> b.toSequence == Some(b.entries[|b.entries| - 1].sequence as int))
    && ValidRange(b.fromSequence, b.toSequence)
  }

  /** How long a prefix of the range is taken as good on the strength of the chain verdict. */
  function TrustedCount(entries: seq<Entry>, v: ChainVerdict): (n: nat)
    ensures n <= |entries|
  {
    if v.condition == Intact then |entries|
    else if v.sequence == None then 0
    else CountBelow(entries, v.sequence.value)
  }

  function CountBelow(entries: seq<Entry>, sequence: int): (n: nat)
    ensures n <= |entries|
  {
    if entries == [] then 0 else (if entries[0].sequence < sequence then 1 else 0) + CountBelow(entries[1..], sequence)
  }

  predicate Asynchronous(e: Entry) { e.body.Effect? || e.body.GradeRecord? || e.body.Composition? }

  /** How one effect is re-derived: not at all past the trusted ones, and otherwise against
      the policy its version names. */
  function RederivationOf(w: Wheel, b: Bundle, e: Entry, lastTrusted: int): EntryRederivation
    requires e.body.Effect?
  {
    EntryRederivation(e.sequence, e.body.decisionId,
      if e.sequence > lastTrusted then Rederived(Rederivation.Unverifiable, EntryUntrusted)
      else match PolicyFor(w, b, e.body.policyVersion)
        case Usable(content) => Rederive(RecordedOf(e.body, b.scope), content, w.parse)
        case Missing(cause, _) => Rederived(Rederivation.Unverifiable, cause)
        case Undecodable => Rederived(Rederivation.Unverifiable, PolicyAbsent))
  }

  function Rederivations(w: Wheel, b: Bundle, entries: seq<Entry>, lastTrusted: int): seq<EntryRederivation> {
    if entries == [] then []
    else
      (if entries[0].body.Effect? then [RederivationOf(w, b, entries[0], lastTrusted)] else [])
      + Rederivations(w, b, entries[1..], lastTrusted)
  }

  predicate HasEffect(entries: seq<Entry>) { exists e :: e in entries && e.body.Effect? }

  predicate HasGap(entries: seq<Entry>) { exists e :: e in entries && e.body.Gap? }

  predicate HasUndecodable(w: Wheel, b: Bundle, trusted: seq<Entry>) {
    exists e :: e in trusted && e.body.Effect? && PolicyFor(w, b, e.body.policyVersion) == Undecodable
  }

  predicate MapIncomplete(w: Wheel, b: Bundle, trusted: seq<Entry>) {
    exists e :: e in trusted && e.body.Effect?
      && var p := PolicyFor(w, b, e.body.policyVersion); p.Missing? && p.incomplete
  }

  predicate EveryAsynchronousClosed(trusted: seq<Entry>, clean: seq<Span>, unclean: seq<Span>) {
    forall e :: e in trusted && Asynchronous(e) ==> Within(e.sequence, clean) && !Within(e.sequence, unclean)
  }

  function LoweredBy(trusted: seq<Entry>, unclean: seq<Span>): set<string> {
    set e | e in trusted && Within(e.sequence, unclean) :: e.connectionId
  }

  function If<T>(condition: bool, item: T): seq<T> { if condition then [item] else [] }

  /** Precedence: a demonstrated difference first, then anything short of certainty. */
  function Overall(rederivations: seq<EntryRederivation>, issues: seq<Issue>, coverage: Coverage): Rederivation {
    if exists x :: x in rederivations && x.result.verdict == Differs then Differs
    else if issues != [] || coverage != Complete || rederivations == []
      || exists x :: x in rederivations && x.result.verdict != Confirmed
    then Rederivation.Unverifiable
    else Confirmed
  }

  // -- what `confirmed` says -------------------------------------------------------------------

  ghost predicate RecordedAsEvaluated(w: Wheel, b: Bundle, e: Entry)
    requires e.body.Effect?
  {
    var p := PolicyFor(w, b, e.body.policyVersion);
    p.Usable? && AnswersItsInputs(RecordedOf(e.body, b.scope), p.content, w.parse)
  }

  /** Where recovery markers are looked for: in the range, and in what was supplied to follow it. */
  function MarkersOf(w: Wheel, b: Bundle): seq<Entry> {
    b.entries + if b.context.ContextRead? then b.context.entries else []
  }

  /** Exactly what an export must be for its verdict to be `confirmed`. */
  ghost predicate ConfirmedExport(w: Wheel, b: Bundle) {
    && Readable(b)
    && IntactRange(w.entryHash, b.entries, b.scope, b.fromSequence, b.toSequence)
    && ManifestRecomputes(w, b)
    && ContextVerifies(w.entryHash, b.context, b.entries, b.scope)
    && HasEffect(b.entries) && !HasGap(b.entries)
    && EveryEffectAnswers(w, b) && EveryAsynchronousMarked(w, b)
  }

  ghost predicate EveryEffectAnswers(w: Wheel, b: Bundle) {
    forall e :: e in b.entries && e.body.Effect? ==> RecordedAsEvaluated(w, b, e)
  }

  ghost predicate EveryAsynchronousMarked(w: Wheel, b: Bundle) {
    forall e :: e in b.entries && Asynchronous(e) ==>
      MarkedBy(MarkersOf(w, b), true, e.sequence) && !MarkedBy(MarkersOf(w, b), false, e.sequence)
  }

  predicate AllConfirmed(found: seq<EntryRederivation>) {
    forall x :: x in found ==> x.result.verdict == Confirmed
  }

  lemma {:induction false} RederivationsAreExact(w: Wheel, b: Bundle, entries: seq<Entry>, last: int)
    ensures forall x :: x in Rederivations(w, b, entries, last) <==>
      exists e :: e in entries && e.body.Effect? && x == RederivationOf(w, b, e, last)
  {
    if entries != [] {
      RederivationsAreExact(w, b, entries[1..], last);
      assert entries == [entries[0]] + entries[1..];
    }
  }

  /** With every effect trusted, all are confirmed exactly when each was recorded as its
      inputs and the bytes its version names evaluate. */
  lemma AllConfirmedIsExact(w: Wheel, b: Bundle, last: int)
    requires forall e :: e in b.entries ==> e.sequence <= last
    ensures AllConfirmed(Rederivations(w, b, b.entries, last)) <==> EveryEffectAnswers(w, b)
    ensures Rederivations(w, b, b.entries, last) == [] <==> !HasEffect(b.entries)
  {
    var found := Rederivations(w, b, b.entries, last);
    RederivationsAreExact(w, b, b.entries, last);
    forall e | e in b.entries && e.body.Effect?
      ensures RederivationOf(w, b, e, last) in found
      ensures RederivationOf(w, b, e, last).result.verdict == Confirmed <==> RecordedAsEvaluated(w, b, e)
    {
      if PolicyFor(w, b, e.body.policyVersion).Usable? {
        ConfirmedIsExact(RecordedOf(e.body, b.scope), PolicyFor(w, b, e.body.policyVersion).content, w.parse);
      }
    }
    if found != [] {
      assert found[0] in found;
    }
  }

  /** What the steps before the verdict found. */
  datatype Found = Found(
    chain: ChainVerdict,
    trusted: seq<Entry>,
    context: seq<Entry>,
    contextUnverified: bool,
    clean: seq<Span>,
    unclean: seq<Span>)

  ghost predicate FoundHolds(w: Wheel, b: Bundle, f: Found) {
    && RendersSome(w, b, f.chain)
    && (f.chain.condition == Intact <==> IntactRange(w.entryHash, b.entries, b.scope, b.fromSequence, b.toSequence))
    && f.trusted == b.entries[..TrustedCount(b.entries, f.chain)]
    && f.contextUnverified == !ContextVerifies(w.entryHash, b.context, b.entries, b.scope)
    && f.context == (if !f.contextUnverified && b.context.ContextRead? then b.context.entries else [])
    && (forall s: int :: Within(s, f.clean) <==> MarkedBy(f.trusted + f.context, true, s))
    && (forall s: int :: Within(s, f.unclean) <==> MarkedBy(f.trusted + f.context, false, s))
  }

  predicate Unsupported(b: Bundle) { b.manifestVersion.Some? && b.manifestVersion.value !in MANIFEST_VERSIONS }

  predicate CoverageIsUnknown(b: Bundle, f: Found) {
    f.trusted == [] || |f.trusted| < |b.entries| || f.contextUnverified
    || !EveryAsynchronousClosed(f.trusted, f.clean, f.unclean)
  }

  function CoverageOf(b: Bundle, f: Found): Coverage {
    if HasGap(f.trusted) then Incomplete else if CoverageIsUnknown(b, f) then UnknownCoverage else Complete
  }

  /** The issues, in the order the verifier comes upon them. */
  function IssuesOf(w: Wheel, b: Bundle, f: Found): seq<Issue> {
    If(f.chain.condition == Condition.Unverifiable, ChainUnverifiable)
    + If(f.chain.condition !in {Intact, Condition.Unverifiable}, ChainDamaged)
    + If(Unsupported(b), ManifestRecipeUnsupported)
    + If(!Unsupported(b) && !ManifestRecomputes(w, b), ManifestMismatch)
    + If(f.contextUnverified, ContextUnverified)
    + If(MapIncomplete(w, b, f.trusted), PolicyMapIncomplete)
    + If(HasGap(f.trusted), CoverageIncomplete)
    + If(CoverageIsUnknown(b, f), CoverageUnknown)
    + If(!HasEffect(f.trusted), NoDecisions)
  }

  predicate NothingAmiss(w: Wheel, b: Bundle, f: Found) {
    && f.chain.condition == Intact
    && ManifestRecomputes(w, b)
    && !f.contextUnverified
    && !MapIncomplete(w, b, f.trusted)
    && !HasGap(f.trusted)
    && !CoverageIsUnknown(b, f)
    && HasEffect(f.trusted)
  }

  lemma NoIssueIsExact(w: Wheel, b: Bundle, f: Found)
    ensures IssuesOf(w, b, f) == [] <==> NothingAmiss(w, b, f)
    ensures NothingAmiss(w, b, f) ==> CoverageOf(b, f) == Complete
  {
  }

  function LastTrusted(f: Found): int {
    if f.trusted == [] then 0 else f.trusted[|f.trusted| - 1].sequence
  }

  lemma OverallIsExact(w: Wheel, b: Bundle, f: Found)
    ensures Overall(Rederivations(w, b, b.entries, LastTrusted(f)), IssuesOf(w, b, f), CoverageOf(b, f)) == Confirmed
      <==> (&& NothingAmiss(w, b, f)
            && Rederivations(w, b, b.entries, LastTrusted(f)) != []
            && AllConfirmed(Rederivations(w, b, b.entries, LastTrusted(f))))
  {
    NoIssueIsExact(w, b, f);
  }

  lemma IntactIsInOrder(h: Hasher, entries: seq<Entry>, scope: string, from: int, to: Option<int>)
    requires IntactRange(h, entries, scope, from, to)
    ensures forall e :: e in entries ==> e.sequence <= entries[|entries| - 1].sequence
  {
    forall i | 1 <= i < |entries| ensures entries[i - 1].sequence < entries[i].sequence {
      assert Follows(entries[i - 1], entries[i]);
    }
    forall e | e in entries ensures e.sequence <= entries[|entries| - 1].sequence {
      var i :| 0 <= i < |entries| && entries[i] == e;
      RisingPast(entries, i, |entries| - 1);
    }
  }

  predicate NothingMissing(w: Wheel, b: Bundle) {
    ManifestRecomputes(w, b) && HasEffect(b.entries) && !HasGap(b.entries) && !MapIncomplete(w, b, b.entries)
  }

  lemma AmissIsExact(w: Wheel, b: Bundle, f: Found)
    requires Readable(b) && FoundHolds(w, b, f) && f.chain.condition == Intact && !f.contextUnverified
    ensures f.trusted == b.entries && f.trusted + f.context == MarkersOf(w, b)
    ensures NothingAmiss(w, b, f) <==> NothingMissing(w, b) && EveryAsynchronousMarked(w, b)
  {
    assert b.entries[..|b.entries|] == b.entries;
  }

  lemma AnsweredIsNotMissing(w: Wheel, b: Bundle)
    requires EveryEffectAnswers(w, b)
    ensures !MapIncomplete(w, b, b.entries) && !HasUndecodable(w, b, b.entries)
  {
    forall e | e in b.entries && e.body.Effect? ensures PolicyFor(w, b, e.body.policyVersion).Usable? {
      assert RecordedAsEvaluated(w, b, e);
    }
  }

  /** All of the verdict's conditions at once, the chain being intact and its context good. */
  lemma WholeExportIsExact(w: Wheel, b: Bundle, f: Found)
    requires Readable(b) && FoundHolds(w, b, f) && f.chain.condition == Intact && !f.contextUnverified
    ensures f.trusted == b.entries
    ensures (NothingAmiss(w, b, f)
             && Rederivations(w, b, b.entries, LastTrusted(f)) != []
             && AllConfirmed(Rederivations(w, b, b.entries, LastTrusted(f))))
      <==> NothingMissing(w, b) && EveryAsynchronousMarked(w, b) && EveryEffectAnswers(w, b)
  {
    AmissIsExact(w, b, f);
    IntactIsInOrder(w.entryHash, b.entries, b.scope, b.fromSequence, b.toSequence);
    AllConfirmedIsExact(w, b, LastTrusted(f));
  }

  lemma ConfirmedExportIsWhole(w: Wheel, b: Bundle, f: Found)
    requires FoundHolds(w, b, f) && (f.chain.condition != Intact || f.contextUnverified)
    ensures !NothingAmiss(w, b, f) && !ConfirmedExport(w, b)
  {
  }

  /** The verdict computed from what was found is `confirmed` exactly on a confirmed export. */
  lemma ConfirmedExportIsExact(w: Wheel, b: Bundle, f: Found)
    requires Readable(b) && FoundHolds(w, b, f)
    ensures Overall(Rederivations(w, b, b.entries, LastTrusted(f)), IssuesOf(w, b, f), CoverageOf(b, f)) == Confirmed
      <==> ConfirmedExport(w, b)
    ensures ConfirmedExport(w, b) ==> !HasUndecodable(w, b, f.trusted)
  {
    OverallIsExact(w, b, f);
    if f.chain.condition == Intact && !f.contextUnverified {
      WholeExportIsExact(w, b, f);
      if EveryEffectAnswers(w, b) { AnsweredIsNotMissing(w, b); }
    } else {
      ConfirmedExportIsWhole(w, b, f);
    }
  }

  lemma ChainConditionIsExact(w: Wheel, b: Bundle, v: ChainVerdict)
    requires RendersSome(w, b, v)
    ensures v.condition == Intact <==> IntactRange(w.entryHash, b.entries, b.scope, b.fromSequence, b.toSequence)
  {
    var f :| Establishes(f, w.entryHash, b.entries, b.scope, b.fromSequence, b.toSequence)
      && Renders(v, f, w.entryHash, b.entries, b.scope, b.fromSequence, {});
    IntactIsExact(f, w.entryHash, b.entries, b.scope, b.fromSequence, b.toSequence);
  }

  /** This verdict renders what the scans of the bundle's range find. */
  ghost predicate RendersSome(w: Wheel, b: Bundle, v: ChainVerdict) {
    exists f ::
      && Establishes(f, w.entryHash, b.entries, b.scope, b.fromSequence, b.toSequence)
      && Renders(v, f, w.entryHash, b.entries, b.scope, b.fromSequence, {})
  }

  /** The bytes an effect's version names, whose digest is that version. */
  predicate BytesNamed(w: Wheel, b: Bundle, version: string, content: string) {
    && b.policyVersions.Some? && version in b.policyVersions.value
    && b.policyVersions.value[version] == Present(Some(content))
    && VersionShaped(version) && version == "sha256:" + w.sha256(content)
  }

  /** An effect recorded under the recipe, with one of its reasons, over bytes that are the ones its
      version names and parse to rules that evaluate its inputs to another answer. */
  ghost predicate EffectDiffers(w: Wheel, b: Bundle, e: Entry)
    requires e.body.Effect?
  {
    && e.body.recipe == Some(RECIPE) && e.body.references.Some? && e.body.reason in RECIPE_REASONS
    && exists content :: BytesNamed(w, b, e.body.policyVersion, content) && w.parse(content).Some?
        && Evaluate(w.parse(content).value,
                    Inputs(b.scope, e.body.capability, e.body.references.value, e.body.argumentsDigest))
           != Triple(e.body.outcome, e.body.reason, e.body.ruleId)
  }

  /** Attachments judged, each way exactly. */
  lemma PolicyForIsExact(w: Wheel, b: Bundle, version: string)
    ensures var p := PolicyFor(w, b, version);
      var at := if b.policyVersions.Some? && version in b.policyVersions.value
                then Some(b.policyVersions.value[version]) else None;
      && (forall content :: p == Usable(content) <==> BytesNamed(w, b, version, content))
      && (p == Undecodable <==> at == Some(Present(None)))
      && (p.Missing? && p.incomplete <==>
        at == None || (at.value.Present? && at.value.content.Some? && !p.Usable?))
      && (p.Missing? && p.cause == PolicyAbsent <==> at == None || at == Some(Absent))
      && (p.Missing? && p.cause == PolicyStateUnknown <==> at == Some(Unknown))
      && (p.Missing? && p.cause == PolicyDamaged <==>
        at == Some(Damaged) || (at.Some? && at.value.Present? && at.value.content.Some? && !p.Usable?))
  {
  }

  lemma RederivedDiffers(w: Wheel, b: Bundle, e: Entry, last: int)
    requires e.body.Effect?
    ensures RederivationOf(w, b, e, last).result.verdict == Differs <==> e.sequence <= last && EffectDiffers(w, b, e)
  {
    PolicyForIsExact(w, b, e.body.policyVersion);
    var p := PolicyFor(w, b, e.body.policyVersion);
    if p.Usable? {
      DiffersIsExact(RecordedOf(e.body, b.scope), p.content, w.parse);
      assert BytesNamed(w, b, e.body.policyVersion, p.content);
      forall content | BytesNamed(w, b, e.body.policyVersion, content) ensures content == p.content {
      }
    }
  }

  lemma DiffersComesFromAnEffect(w: Wheel, b: Bundle, last: int, issues: seq<Issue>, coverage: Coverage)
    ensures Overall(Rederivations(w, b, b.entries, last), issues, coverage) == Differs <==>
      exists e :: e in b.entries && e.body.Effect? && e.sequence <= last && EffectDiffers(w, b, e)
  {
    var found := Rederivations(w, b, b.entries, last);
    RederivationsAreExact(w, b, b.entries, last);
    forall e | e in b.entries && e.body.Effect?
      ensures RederivationOf(w, b, e, last) in found
      ensures RederivationOf(w, b, e, last).result.verdict == Differs <==> e.sequence <= last && EffectDiffers(w, b, e)
    {
      RederivedDiffers(w, b, e, last);
    }
    if x :| x in found && x.result.verdict == Differs {
      var e :| e in b.entries && e.body.Effect? && x == RederivationOf(w, b, e, last);
      assert e.sequence <= last && EffectDiffers(w, b, e);
    }
  }

  /** The chain, the context and the epochs, before anything is re-derived. */
  method Gather(w: Wheel, b: Bundle) returns (found: Found)
    requires Readable(b)
    ensures FoundHolds(w, b, found)
  {
    var context, contextUnverified := VerifiedContext(w.entryHash, b.context, b.entries, b.scope);
    var provisional := VerifyChain(w.entryHash, b.entries, b.scope, b.fromSequence, b.toSequence, {});
    var chain := provisional.value;
    assert RendersSome(w, b, chain);
    ChainConditionIsExact(w, b, chain);
    var trusted := b.entries[..TrustedCount(b.entries, chain)];
    var clean, unclean := Epochs(trusted + context);
    found := Found(chain, trusted, context, contextUnverified, clean, unclean);
  }

  /** Every member of the verdict, said of what the steps before it found. */
  ghost predicate Reports(w: Wheel, b: Bundle, f: Found, v: ExportVerdict)
    requires v.ExportVerdict?
  {
    && FoundHolds(w, b, f)
    && RendersUnder(w, b, v.chain, LoweredBy(f.trusted, f.unclean))
    && v.recomputes == (if Unsupported(b) then None else Some(ManifestRecomputes(w, b)))
    && v.rederivations == Rederivations(w, b, b.entries, LastTrusted(f))
    && v.coverage == CoverageOf(b, f)
    && v.issues == IssuesOf(w, b, f)
    && (v.overall == Differs <==>
         exists e :: e in b.entries && e.body.Effect? && NotPastTrusted(f, e) && EffectDiffers(w, b, e))
  }

  /** The entry is not past the last trusted one; with none trusted, every entry numbered is. */
  predicate NotPastTrusted(f: Found, e: Entry) {
    if f.trusted == [] then e.sequence == 0 else e.sequence <= f.trusted[|f.trusted| - 1].sequence
  }

  /** The final chain verdict lowers the grade of every connection an unclean span touches. */
  ghost predicate RendersUnder(w: Wheel, b: Bundle, v: ChainVerdict, lowered: set<string>) {
    exists f ::
      && Establishes(f, w.entryHash, b.entries, b.scope, b.fromSequence, b.toSequence)
      && Renders(v, f, w.entryHash, b.entries, b.scope, b.fromSequence, lowered)
  }

  ghost predicate ReportsSomething(w: Wheel, b: Bundle, v: ExportVerdict)
    requires v.ExportVerdict?
  {
    exists f :: Reports(w, b, f, v)
  }

  /** An attachment a trusted effect names is not base64. */
  ghost predicate NamesUndecodable(w: Wheel, b: Bundle) {
    exists f :: FoundHolds(w, b, f) && HasUndecodable(w, b, f.trusted)
  }

  /** What is trusted does not depend on how it was found. */
  lemma UndecodableIsDecided(w: Wheel, b: Bundle, found: Found)
    requires FoundHolds(w, b, found)
    ensures NamesUndecodable(w, b) <==> HasUndecodable(w, b, found.trusted)
  {
    if NamesUndecodable(w, b) {
      var other :| FoundHolds(w, b, other) && HasUndecodable(w, b, other.trusted);
      SameConditionAndSequence(w, b, found.chain, other.chain);
    }
  }

  lemma SameConditionAndSequence(w: Wheel, b: Bundle, v: ChainVerdict, u: ChainVerdict)
    requires RendersSome(w, b, v) && RendersSome(w, b, u)
    ensures v.condition == u.condition && v.sequence == u.sequence
  {
    var f :| Establishes(f, w.entryHash, b.entries, b.scope, b.fromSequence, b.toSequence)
      && Renders(v, f, w.entryHash, b.entries, b.scope, b.fromSequence, {});
    var g :| Establishes(g, w.entryHash, b.entries, b.scope, b.fromSequence, b.toSequence)
      && Renders(u, g, w.entryHash, b.entries, b.scope, b.fromSequence, {});
    OneFinding(f, g, w.entryHash, b.entries, b.scope, b.fromSequence, b.toSequence);
  }

  /** Everything an export establishes. The verdict is `confirmed` exactly when the export
      is a `ConfirmedExport`, and `differs` exactly when some trusted effect does. */
  method VerifyExport(w: Wheel, b: Bundle) returns (v: ExportVerdict)
    ensures v == Unreadable <==> !Readable(b) || NamesUndecodable(w, b)
    ensures v.ExportVerdict? ==> (v.overall == Confirmed <==> ConfirmedExport(w, b))
    ensures v.ExportVerdict? ==> ReportsSomething(w, b, v)
    ensures ConfirmedExport(w, b) ==> v.ExportVerdict?
  {
    if !Readable(b) { return Unreadable; }
    var found := Gather(w, b);
    ConfirmedExportIsExact(w, b, found);
    var recomputes := if Unsupported(b) then None else Some(ManifestRecomputes(w, b));
    var lowered := LoweredBy(found.trusted, found.unclean);
    var final := VerifyChain(w.entryHash, b.entries, b.scope, b.fromSequence, b.toSequence, lowered);

    UndecodableIsDecided(w, b, found);
    if HasUndecodable(w, b, found.trusted) { return Unreadable; }
    var rederivations := Rederivations(w, b, b.entries, LastTrusted(found));
    var issues, coverage := IssuesOf(w, b, found), CoverageOf(b, found);
    var overall := Overall(rederivations, issues, coverage);
    DiffersComesFromAnEffect(w, b, LastTrusted(found), issues, coverage);
    v := ExportVerdict.ExportVerdict(final.value, recomputes, rederivations, coverage, issues, overall);
    assert RendersUnder(w, b, v.chain, lowered);
    assert forall e :: NotPastTrusted(found, e) <==> e.sequence <= LastTrusted(found);
    assert Reports(w, b, found, v);
  }

  // -- completeness -----------------------------------------------------------------------------

  /** An effect recorded from the evaluation of present, matching bytes. */
  ghost predicate RecordedFromPolicy(w: Wheel, b: Bundle, e: Entry, content: string)
    requires e.body.Effect?
  {
    && b.policyVersions.Some?
    && e.body.policyVersion in b.policyVersions.value
    && b.policyVersions.value[e.body.policyVersion] == Present(Some(content))
    && VersionShaped(e.body.policyVersion)
    && e.body.policyVersion == "sha256:" + w.sha256(content)
    && AnswersItsInputs(RecordedOf(e.body, b.scope), content, w.parse)
  }

  /** What is asked of an export beyond its chain: one effect at least, each recorded from
      its policy, no gap, every asynchronous entry in a clean span and none in an unclean
      one, by the markers of the range and of its context, and the manifest computed. */
  ghost predicate FaithfullyExported(w: Wheel, b: Bundle) {
    && ManifestRecomputes(w, b)
    && HasEffect(b.entries) && !HasGap(b.entries)
    && (forall e :: e in b.entries && e.body.Effect? ==> exists content :: RecordedFromPolicy(w, b, e, content))
    && (forall e :: e in b.entries && Asynchronous(e) ==>
          MarkedBy(MarkersOf(w, b), true, e.sequence) && !MarkedBy(MarkersOf(w, b), false, e.sequence))
  }

  lemma FaithfulIntactExportIsConfirmed(w: Wheel, b: Bundle)
    requires Readable(b) && FaithfullyExported(w, b)
    requires IntactRange(w.entryHash, b.entries, b.scope, b.fromSequence, b.toSequence)
    requires ContextVerifies(w.entryHash, b.context, b.entries, b.scope)
    ensures ConfirmedExport(w, b)
  {
    forall e | e in b.entries && e.body.Effect? ensures RecordedAsEvaluated(w, b, e) {
      var content :| RecordedFromPolicy(w, b, e, content);
    }
  }

  /** The recovery context an export of `chain[lo..hi]` may carry: none, or whatever of the
      chain follows the slice, up to any later entry. */
  predicate CarriesOn(b: Bundle, chain: seq<Entry>, hi: nat, m: nat)
    requires hi <= m <= |chain|
  {
    b.context == NoContext || b.context == ContextRead(chain[hi..m])
  }

  /** What follows a slice in its chain is a context of it that verifies. */
  lemma RestOfTheChainVerifies(h: Hasher, chain: seq<Entry>, records: seq<Record>, scope: string, lo: nat, hi: nat, m: nat)
    requires Carries(h, chain, records, scope) && lo < hi <= m <= |chain|
    ensures ContextVerifies(h, ContextRead(chain[hi..m]), chain[lo..hi], scope)
  {
    if hi < m {
      SliceIsIntact(h, chain, records, scope, hi, m);
      assert Follows(chain[hi - 1], chain[hi]);
    }
  }

  lemma PlacedExportIsConfirmed(w: Wheel, place: Placer, b: Bundle, records: seq<Record>, lo: nat, hi: nat, m: nat)
    requires PlacesWell(w.entryHash, place) && ValidScope(b.scope) && PositiveOrAbsent(b.nextFrom)
    requires Placed(place, records).Some? && forall x :: x in records ==> x.scope == b.scope
    requires lo < hi <= m <= |Placed(place, records).value| && b.entries == Placed(place, records).value[lo..hi]
    requires b.fromSequence == lo + 1 && b.toSequence == Some(hi) && FaithfullyExported(w, b)
    requires CarriesOn(b, Placed(place, records).value, hi, m)
    ensures ConfirmedExport(w, b)
  {
    PlacedSliceIsIntact(w.entryHash, place, records, b.scope, lo, hi);
    PlacedIsAChain(w.entryHash, place, records, b.scope);
    RestOfTheChainVerifies(w.entryHash, Placed(place, records).value, records, b.scope, lo, hi, m);
    FaithfulIntactExportIsConfirmed(w, b);
  }

  /** End to end: an export of any contiguous slice of a chain grown with `ChainedDocument`,
      with any continuation of it as its recovery context or with none, is confirmed. */
  lemma SliceExportIsConfirmed(r: Recipes, w: Wheel, b: Bundle, records: seq<Record>, lo: nat, hi: nat, m: nat)
    requires w.entryHash == HasherOf(r) && ValidScope(b.scope) && PositiveOrAbsent(b.nextFrom)
    requires Placed(PlacerOf(r), records).Some? && forall x :: x in records ==> x.scope == b.scope
    requires lo < hi <= m <= |Placed(PlacerOf(r), records).value|
    requires b.entries == Placed(PlacerOf(r), records).value[lo..hi]
    requires b.fromSequence == lo + 1 && b.toSequence == Some(hi) && FaithfullyExported(w, b)
    requires CarriesOn(b, Placed(PlacerOf(r), records).value, hi, m)
    ensures ConfirmedExport(w, b)
  {
    WriterPlacesWell(r);
    PlacedExportIsConfirmed(w, PlacerOf(r), b, records, lo, hi, m);
  }

  // -- what an earlier stage's failure leaves unchecked -------------------------------------------

  /** The entries before a gap are trusted without any hash having been recomputed: a range
      whose first entry does not verify is still reported as a gap after it, and that entry
      counts as trusted. */
  lemma GapLeavesEarlierHashesUnchecked(h: Hasher, e: Entry, f: Entry, v: ChainVerdict, found: Finding, to: Option<int>)
    requires e.sequence >= 1 && f.sequence > e.sequence + 1 && f.scope == e.scope && !Verifies(h, e)
    requires Establishes(found, h, [e, f], e.scope, e.sequence, to)
    requires Renders(v, found, h, [e, f], e.scope, e.sequence, {})
    ensures v.condition == GapAt && v.sequence == Some(e.sequence + 1)
    ensures TrustedCount([e, f], v) == 1
  {
    var entries := [e, f];
    assert entries[0] == e && entries[1] == f;
    assert !StepsByOne(entries, 1);
    assert Establishes(Jump(1), h, entries, e.scope, e.sequence, to);
    OneFinding(found, Jump(1), h, entries, e.scope, e.sequence, to);
    assert entries[1..] == [f] && [f][1..] == [];
    assert CountBelow([f], e.sequence + 1) == 0;
  }
}
