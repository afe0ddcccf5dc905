/** What each member of a chain verdict and of an export verdict says, exactly. */
module EvidenceVerdict {
  import opened Outcomes
  import opened EvidenceEntry
  import opened EvidenceGrades
  import opened EvidenceChain
  import opened EvidenceExport
  import opened PolicyEvaluation

  // -- the chain verdict -------------------------------------------------------------------------

  /** Some recomputation disagrees with the hash it is carried under, everything before it agreeing. */
  ghost predicate HashDisagrees(h: Hasher, entries: seq<Entry>, i: nat) {
    i < |entries| && VerifiedTo(h, entries, i)
    && entries[i].preimageVersion == PREIMAGE_VERSION && h(entries[i]).Some? && h(entries[i]) != Some(entries[i].entryHash)
  }

  /** With every hash good, some entry does not carry its predecessor's, every earlier one doing so. */
  ghost predicate LinkDisagrees(h: Hasher, entries: seq<Entry>, i: nat) {
    1 <= i < |entries| && VerifiedTo(h, entries, |entries|) && LinkedTo(entries, i)
    && entries[i].previousHash != Some(entries[i - 1].entryHash)
  }

  /** Some entry cannot be recomputed here, everything before it agreeing. */
  ghost predicate RecipeFails(h: Hasher, entries: seq<Entry>, i: nat) {
    i < |entries| && VerifiedTo(h, entries, i) && (entries[i].preimageVersion != PREIMAGE_VERSION || h(entries[i]) == None)
  }

  lemma FindingSaysWhatFailed(f: Finding, h: Hasher, entries: seq<Entry>, scope: string, from: int, to: Option<int>)
    requires Establishes(f, h, entries, scope, from, to)
    ensures f.WrongHash? <==> Contiguous(entries, scope, from, to) && exists i :: HashDisagrees(h, entries, i)
    ensures f.WrongLink? <==> Contiguous(entries, scope, from, to) && exists i :: LinkDisagrees(h, entries, i)
    ensures f.NoRecipe? <==> Contiguous(entries, scope, from, to) && exists i :: RecipeFails(h, entries, i)
  {
    ContiguousIsInOrder(entries);
    if f.WrongHash? { assert HashDisagrees(h, entries, f.at); }
    if f.WrongLink? { assert LinkDisagrees(h, entries, f.at); }
    if f.NoRecipe? { assert RecipeFails(h, entries, f.at); }
    if Contiguous(entries, scope, from, to) {
      if i :| HashDisagrees(h, entries, i) { OneFinding(f, WrongHash(i), h, entries, scope, from, to); }
      if i :| LinkDisagrees(h, entries, i) { OneFinding(f, WrongLink(i), h, entries, scope, from, to); }
      if i :| RecipeFails(h, entries, i) { OneFinding(f, NoRecipe(i), h, entries, scope, from, to); }
    }
  }

  /** `broken_at` says that some recomputation or link of a contiguous range disagrees, and nothing
      else; `gap_at` that a range of one scope, in order, is not contiguous. */
  lemma ConditionIsExact(f: Finding, h: Hasher, entries: seq<Entry>, scope: string, from: int, to: Option<int>,
                         v: ChainVerdict, lowered: set<string>)
    requires Establishes(f, h, entries, scope, from, to) && Renders(v, f, h, entries, scope, from, lowered)
    ensures v.condition == BrokenAt <==>
      Contiguous(entries, scope, from, to) && exists i :: HashDisagrees(h, entries, i) || LinkDisagrees(h, entries, i)
    ensures v.condition == GapAt <==>
      SingleScope(entries, scope) && InOrder(entries) && !Contiguous(entries, scope, from, to) && (entries == [] ==> to.Some?)
    ensures v.condition == Condition.Unverifiable <==>
      !SingleScope(entries, scope) || !InOrder(entries) || (entries == [] && to == None)
      || (Contiguous(entries, scope, from, to) && exists i :: RecipeFails(h, entries, i))
  {
    ContiguousIsInOrder(entries);
    FindingSaysWhatFailed(f, h, entries, scope, from, to);
  }

  /** And a broken verdict names the entry, the hash that was expected of it, which its own content or
      its predecessor gives, and the different one it carries. */
  lemma BrokenNamesBothHashes(f: Finding, h: Hasher, entries: seq<Entry>, scope: string, from: int, to: Option<int>,
                              v: ChainVerdict, lowered: set<string>) returns (i: nat)
    requires Establishes(f, h, entries, scope, from, to) && Renders(v, f, h, entries, scope, from, lowered)
    requires v.condition == BrokenAt
    ensures i < |entries| && v.sequence == Some(entries[i].sequence as int) && v.expected != v.found && v.expected.Some?
    ensures HashDisagrees(h, entries, i) ==> v.expected == h(entries[i]) && v.found == Some(entries[i].entryHash)
    ensures !HashDisagrees(h, entries, i) ==>
      LinkDisagrees(h, entries, i) && v.expected == Some(entries[i - 1].entryHash) && v.found == entries[i].previousHash
  {
    i := f.at;
  }

  /** One that cannot be recomputed is named with its own version and hash, and none expected of it. */
  lemma UnreadableIsNamed(f: Finding, h: Hasher, entries: seq<Entry>, scope: string, from: int, to: Option<int>,
                          v: ChainVerdict, lowered: set<string>, i: nat)
    requires Establishes(f, h, entries, scope, from, to) && Renders(v, f, h, entries, scope, from, lowered)
    requires Contiguous(entries, scope, from, to) && RecipeFails(h, entries, i)
    ensures v.sequence == Some(entries[i].sequence as int) && v.version == Some(entries[i].preimageVersion)
    ensures v.expected == None && v.found == Some(entries[i].entryHash)
  {
    OneFinding(f, NoRecipe(i), h, entries, scope, from, to);
  }

  ghost predicate FailsAt(h: Hasher, entries: seq<Entry>, i: nat) {
    HashDisagrees(h, entries, i) || LinkDisagrees(h, entries, i) || RecipeFails(h, entries, i)
  }

  /** The grades of a contiguous range one entry of which fails are those of the entries before it. */
  lemma GradesGoUpToTheFailure(f: Finding, h: Hasher, entries: seq<Entry>, scope: string, from: int, to: Option<int>,
                               v: ChainVerdict, lowered: set<string>, i: nat)
    requires Establishes(f, h, entries, scope, from, to) && Renders(v, f, h, entries, scope, from, lowered)
    requires Contiguous(entries, scope, from, to) && FailsAt(h, entries, i)
    ensures v.condition != Intact && v.upTo == None
    ensures WeakestGrades(entries[..i], lowered, v.grades)
  {
    if HashDisagrees(h, entries, i) {
      OneFinding(f, WrongHash(i), h, entries, scope, from, to);
    } else if LinkDisagrees(h, entries, i) {
      OneFinding(f, WrongLink(i), h, entries, scope, from, to);
    } else {
      OneFinding(f, NoRecipe(i), h, entries, scope, from, to);
    }
  }

  /** Of a range that does not start where it was asked to, or is not of one scope in order, none is
      graded; of an intact one every entry is, up to the last. */
  lemma GradesOfTheRest(f: Finding, h: Hasher, entries: seq<Entry>, scope: string, from: int, to: Option<int>,
                        v: ChainVerdict, lowered: set<string>)
    requires Establishes(f, h, entries, scope, from, to) && Renders(v, f, h, entries, scope, from, lowered)
    ensures !SingleScope(entries, scope) || !InOrder(entries) || (entries != [] && entries[0].sequence != from) ==> v.grades == map[]
    ensures v.upTo.Some? <==> IntactRange(h, entries, scope, from, to)
    ensures v.upTo.Some? ==> v.upTo.value == entries[|entries| - 1].sequence && WeakestGrades(entries, lowered, v.grades)
  {
    ContiguousIsInOrder(entries);
    IntactIsExact(f, h, entries, scope, from, to);
    assert entries[..|entries|] == entries;
  }

  lemma {:induction false} GapsAddUp(entries: seq<Entry>, more: seq<Entry>)
    ensures GapsOf(entries + more) == GapsOf(entries) + GapsOf(more)
  {
    if entries == [] {
      assert entries + more == more && GapsOf(entries) + GapsOf(more) == GapsOf(more);
    } else {
      assert (entries + more)[1..] == entries[1..] + more && (entries + more)[0] == entries[0];
      GapsAddUp(entries[1..], more);
    }
  }

  /** The gaps a range declares, in its order: a gap entry declares its own, any other none. */
  lemma DeclaredGapsAreExact(entries: seq<Entry>, e: Entry, more: seq<Entry>)
    ensures GapsOf(entries + [e] + more)
      == GapsOf(entries)
         + (if e.body.Gap? then [DeclaredGap(e.sequence, e.body.reason, e.body.count)] else []) + GapsOf(more)
  {
    GapsAddUp(entries + [e], more);
    GapsAddUp(entries, [e]);
    assert [e][1..] == [];
    assert GapsOf([e]) == (if e.body.Gap? then [DeclaredGap(e.sequence, e.body.reason, e.body.count)] else []) + GapsOf([]);
  }

  // -- the export verdict ----------------------------------------------------------------------------

  /** Each issue, by what is wrong. */
  ghost predicate Arises(w: Wheel, b: Bundle, f: Found, issue: Issue) {
    match issue
    case ChainUnverifiable => f.chain.condition == Condition.Unverifiable
    case ChainDamaged => f.chain.condition == BrokenAt || f.chain.condition == GapAt
    case ManifestRecipeUnsupported => b.manifestVersion.Some? && b.manifestVersion.value !in MANIFEST_VERSIONS
    case ManifestMismatch => (b.manifestVersion == None || b.manifestVersion.value in MANIFEST_VERSIONS) && !ManifestRecomputes(w, b)
    case ContextUnverified => !ContextVerifies(w.entryHash, b.context, b.entries, b.scope)
    case PolicyMapIncomplete =>
      exists e :: e in f.trusted && e.body.Effect? && PolicyIsNotThere(w, b, e.body.policyVersion)
    case CoverageIncomplete => exists e :: e in f.trusted && e.body.Gap?
    case CoverageUnknown => CoverageIsOpen(w, b, f)
    case NoDecisions => forall e :: e in f.trusted ==> !e.body.Effect?
  }

  /** The map does not hold the version, or holds bytes that are not its own. */
  ghost predicate PolicyIsNotThere(w: Wheel, b: Bundle, version: string) {
    b.policyVersions == None || version !in b.policyVersions.value
    || (var at := b.policyVersions.value[version];
        at.Present? && at.content.Some? && !BytesNamed(w, b, version, at.content.value))
  }

  /** Nothing trusted, less than the whole, a context that does not verify, or an asynchronous entry
      outside every clean span or inside an unclean one. */
  ghost predicate CoverageIsOpen(w: Wheel, b: Bundle, f: Found) {
    || f.trusted == [] || |f.trusted| < |b.entries|
    || !ContextVerifies(w.entryHash, b.context, b.entries, b.scope)
    || exists e :: e in f.trusted && Asynchronous(e)
         && (MarkedBy(f.trusted + f.context, false, e.sequence) || !MarkedBy(f.trusted + f.context, true, e.sequence))
  }

  /** The issues in the order the verifier comes upon them. */
  function Nth(n: nat): Issue
    requires n < 9
  {
    match n
    case 0 => ChainUnverifiable
    case 1 => ChainDamaged
    case 2 => ManifestRecipeUnsupported
    case 3 => ManifestMismatch
    case 4 => ContextUnverified
    case 5 => PolicyMapIncomplete
    case 6 => CoverageIncomplete
    case 7 => CoverageUnknown
    case _ => NoDecisions
  }

  function Rank(issue: Issue): (n: nat)
    ensures n < 9 && Nth(n) == issue
  {
    match issue
    case ChainUnverifiable => 0
    case ChainDamaged => 1
    case ManifestRecipeUnsupported => 2
    case ManifestMismatch => 3
    case ContextUnverified => 4
    case PolicyMapIncomplete => 5
    case CoverageIncomplete => 6
    case CoverageUnknown => 7
    case NoDecisions => 8
  }

  /** The issues of rank below n that were added, in their order. */
  ghost predicate AddedUpTo(added: Issue -> bool, sofar: seq<Issue>, n: nat) {
    && (forall x :: x in sofar <==> added(x) && Rank(x) < n)
    && (forall i, j :: 0 <= i < j < |sofar| ==> Rank(sofar[i]) < Rank(sofar[j]))
  }

  lemma OneMoreIssue(added: Issue -> bool, sofar: seq<Issue>, n: nat, c: bool, more: seq<Issue>)
    requires n < 9 && AddedUpTo(added, sofar, n) && c == added(Nth(n))
    requires more == sofar + If(c, Nth(n))
    ensures AddedUpTo(added, more, n + 1)
  {
    forall y ensures y in more <==> added(y) && Rank(y) < n + 1 {
      assert Nth(Rank(y)) == y && Rank(Nth(n)) == n;
    }
    forall i | 0 <= i < |sofar| ensures Rank(sofar[i]) < n {
      assert sofar[i] in sofar;
    }
  }

  lemma ThreeMoreIssues(added: Issue -> bool, sofar: seq<Issue>, n: nat, c: bool, d: bool, e: bool)
    requires n < 7 && AddedUpTo(added, sofar, n) && c == added(Nth(n)) && d == added(Nth(n + 1)) && e == added(Nth(n + 2))
    ensures AddedUpTo(added, sofar + If(c, Nth(n)) + If(d, Nth(n + 1)) + If(e, Nth(n + 2)), n + 3)
  {
    var one := sofar + If(c, Nth(n));
    OneMoreIssue(added, sofar, n, c, one);
    var two := one + If(d, Nth(n + 1));
    OneMoreIssue(added, one, n + 1, d, two);
    OneMoreIssue(added, two, n + 2, e, two + If(e, Nth(n + 2)));
  }

  /** Whether the verifier adds an issue. */
  predicate Added(w: Wheel, b: Bundle, f: Found, x: Issue) {
    match x
    case ChainUnverifiable => f.chain.condition == Condition.Unverifiable
    case ChainDamaged => f.chain.condition !in {Intact, Condition.Unverifiable}
    case ManifestRecipeUnsupported => Unsupported(b)
    case ManifestMismatch => !Unsupported(b) && !ManifestRecomputes(w, b)
    case ContextUnverified => f.contextUnverified
    case PolicyMapIncomplete => MapIncomplete(w, b, f.trusted)
    case CoverageIncomplete => HasGap(f.trusted)
    case CoverageUnknown => CoverageIsUnknown(b, f)
    case NoDecisions => !HasEffect(f.trusted)
  }

  /** The first three, and then three more twice, are all the verifier collects. */
  lemma FirstIssues(w: Wheel, b: Bundle, f: Found, added: Issue -> bool) returns (three: seq<Issue>)
    requires forall x :: added(x) == Added(w, b, f, x)
    ensures three == If(f.chain.condition == Condition.Unverifiable, ChainUnverifiable)
      + If(f.chain.condition !in {Intact, Condition.Unverifiable}, ChainDamaged) + If(Unsupported(b), ManifestRecipeUnsupported)
    ensures AddedUpTo(added, three, 3)
  {
    var c, d := f.chain.condition == Condition.Unverifiable, f.chain.condition !in {Intact, Condition.Unverifiable};
    assert [] + If(c, Nth(0)) == If(c, Nth(0));
    three := If(c, Nth(0)) + If(d, Nth(1)) + If(Unsupported(b), Nth(2));
    ThreeMoreIssues(added, [], 0, c, d, Unsupported(b));
  }

  lemma NextIssues(w: Wheel, b: Bundle, f: Found, added: Issue -> bool, three: seq<Issue>) returns (six: seq<Issue>)
    requires AddedUpTo(added, three, 3) && forall x :: added(x) == Added(w, b, f, x)
    ensures six == three + If(!Unsupported(b) && !ManifestRecomputes(w, b), ManifestMismatch)
      + If(f.contextUnverified, ContextUnverified) + If(MapIncomplete(w, b, f.trusted), PolicyMapIncomplete)
    ensures AddedUpTo(added, six, 6)
  {
    var c, d, e := !Unsupported(b) && !ManifestRecomputes(w, b), f.contextUnverified, MapIncomplete(w, b, f.trusted);
    six := three + If(c, Nth(3)) + If(d, Nth(4)) + If(e, Nth(5));
    ThreeMoreIssues(added, three, 3, c, d, e);
  }

  lemma LastIssues(w: Wheel, b: Bundle, f: Found, added: Issue -> bool, six: seq<Issue>) returns (nine: seq<Issue>)
    requires AddedUpTo(added, six, 6) && forall x :: added(x) == Added(w, b, f, x)
    ensures nine == six + If(HasGap(f.trusted), CoverageIncomplete)
      + If(CoverageIsUnknown(b, f), CoverageUnknown) + If(!HasEffect(f.trusted), NoDecisions)
    ensures AddedUpTo(added, nine, 9)
  {
    var c, d, e := HasGap(f.trusted), CoverageIsUnknown(b, f), !HasEffect(f.trusted);
    nine := six + If(c, Nth(6)) + If(d, Nth(7)) + If(e, Nth(8));
    ThreeMoreIssues(added, six, 6, c, d, e);
  }

  lemma IssuesAreThoseAdded(w: Wheel, b: Bundle, f: Found, added: Issue -> bool) returns (all: seq<Issue>)
    requires forall x :: added(x) == Added(w, b, f, x)
    ensures all == IssuesOf(w, b, f) && AddedUpTo(added, all, 9)
  {
    var three := FirstIssues(w, b, f, added);
    var six := NextIssues(w, b, f, added, three);
    all := LastIssues(w, b, f, added, six);
  }

  lemma MapIsIncomplete(w: Wheel, b: Bundle, trusted: seq<Entry>)
    ensures MapIncomplete(w, b, trusted) <==>
      exists e :: e in trusted && e.body.Effect? && PolicyIsNotThere(w, b, e.body.policyVersion)
  {
    forall e | e in trusted && e.body.Effect?
      ensures var p := PolicyFor(w, b, e.body.policyVersion);
        (p.Missing? && p.incomplete) <==> PolicyIsNotThere(w, b, e.body.policyVersion)
    {
      PolicyForIsExact(w, b, e.body.policyVersion);
    }
  }

  lemma CoverageIsUnknownExactly(w: Wheel, b: Bundle, f: Found)
    requires f.contextUnverified == !ContextVerifies(w.entryHash, b.context, b.entries, b.scope)
    requires forall s: int :: Within(s, f.clean) <==> MarkedBy(f.trusted + f.context, true, s)
    requires forall s: int :: Within(s, f.unclean) <==> MarkedBy(f.trusted + f.context, false, s)
    ensures CoverageIsOpen(w, b, f) <==> CoverageIsUnknown(b, f)
  {
  }

  lemma ArisesAsAdded(w: Wheel, b: Bundle, f: Found, x: Issue)
    requires FoundHolds(w, b, f)
    ensures Arises(w, b, f, x) <==> Added(w, b, f, x)
  {
    match x {
      case PolicyMapIncomplete => MapIsIncomplete(w, b, f.trusted);
      case CoverageUnknown => CoverageIsUnknownExactly(w, b, f);
      case _ =>
    }
  }

  /** The issues of a verdict are exactly those that arise, each once and in the verifier's order. */
  lemma IssuesAreExact(w: Wheel, b: Bundle, f: Found)
    requires FoundHolds(w, b, f)
    ensures forall x :: x in IssuesOf(w, b, f) <==> Arises(w, b, f, x)
    ensures forall i, j :: 0 <= i < j < |IssuesOf(w, b, f)| ==> Rank(IssuesOf(w, b, f)[i]) < Rank(IssuesOf(w, b, f)[j])
  {
    var added := x => Added(w, b, f, x);
    var issues := IssuesAreThoseAdded(w, b, f, added);
    forall x ensures added(x) <==> Arises(w, b, f, x) {
      ArisesAsAdded(w, b, f, x);
    }
  }

  /** Coverage is incomplete for a declared gap, unknown for anything open, and complete otherwise. */
  lemma CoverageIsExact(w: Wheel, b: Bundle, f: Found)
    requires FoundHolds(w, b, f)
    ensures CoverageOf(b, f) == Incomplete <==> exists e :: e in f.trusted && e.body.Gap?
    ensures CoverageOf(b, f) == Complete <==> !CoverageIsOpen(w, b, f) && forall e :: e in f.trusted ==> !e.body.Gap?
  {
    CoverageIsUnknownExactly(w, b, f);
  }

  /** The connections lowered are those of the trusted entries an unclean span holds. */
  lemma LoweredIsExact(w: Wheel, b: Bundle, f: Found, c: string)
    requires FoundHolds(w, b, f)
    ensures c in LoweredBy(f.trusted, f.unclean) <==>
      exists e :: e in f.trusted && e.connectionId == c && MarkedBy(f.trusted + f.context, false, e.sequence)
  {
  }

  /** Every effect is reported once, in the order of the range, and nothing else is. */
  lemma RederivationsInOrder(w: Wheel, b: Bundle, entries: seq<Entry>, e: Entry, more: seq<Entry>, last: int)
    ensures Rederivations(w, b, entries + [e] + more, last)
      == Rederivations(w, b, entries, last)
         + (if e.body.Effect? then [RederivationOf(w, b, e, last)] else []) + Rederivations(w, b, more, last)
  {
    RederivationsAddUp(w, b, entries + [e], more, last);
    RederivationsAddUp(w, b, entries, [e], last);
    assert [e][1..] == [];
    assert Rederivations(w, b, [e], last)
      == (if e.body.Effect? then [RederivationOf(w, b, e, last)] else []) + Rederivations(w, b, [], last);
  }

  lemma {:induction false} RederivationsAddUp(w: Wheel, b: Bundle, entries: seq<Entry>, more: seq<Entry>, last: int)
    ensures Rederivations(w, b, entries + more, last) == Rederivations(w, b, entries, last) + Rederivations(w, b, more, last)
  {
    if entries == [] {
      assert entries + more == more;
      assert Rederivations(w, b, entries, last) + Rederivations(w, b, more, last) == Rederivations(w, b, more, last);
    } else {
      assert (entries + more)[1..] == entries[1..] + more && (entries + more)[0] == entries[0];
      RederivationsAddUp(w, b, entries[1..], more, last);
    }
  }

  /** How one effect is reported: as recorded under its own sequence and decision; untrusted exactly past
      the last trusted entry; and otherwise as its policy, or the lack of it, has it. */
  lemma RederivationIsExact(w: Wheel, b: Bundle, f: Found, e: Entry)
    requires e.body.Effect?
    ensures var r := RederivationOf(w, b, e, LastTrusted(f));
      && r.sequence == e.sequence && r.decisionId == e.body.decisionId
      && (r.result.cause == EntryUntrusted <==> !NotPastTrusted(f, e))
      && (r.result.verdict == Differs <==> NotPastTrusted(f, e) && EffectDiffers(w, b, e))
      && (r.result.verdict == Confirmed <==> NotPastTrusted(f, e) && RecordedAsEvaluated(w, b, e))
  {
    RederivedDiffers(w, b, e, LastTrusted(f));
    var p := PolicyFor(w, b, e.body.policyVersion);
    if p.Usable? {
      ConfirmedIsExact(RecordedOf(e.body, b.scope), p.content, w.parse);
      DiffersIsExact(RecordedOf(e.body, b.scope), p.content, w.parse);
    }
  }

  // -- the older manifests --------------------------------------------------------------------------

  /** Under a collision-free hash and texts that tell ranges apart, one digest of an older recipe fixes
      the range, its hashes and, under v2, the whole verdict the server gave; under v1 two members of it. */
  lemma OlderManifestsFixTheRange(w: Wheel, b: Bundle, c: Bundle, version: string)
    requires version == MANIFEST_V1 || version == MANIFEST_V2
    requires forall x, y :: w.sha256(x) == w.sha256(y) ==> x == y
    requires forall m: ManifestDocument, n: ManifestDocument :: !m.BindsTheBundle? && !n.BindsTheBundle? && w.manifestJson(m) == w.manifestJson(n) ==> m == n
    requires ManifestHash(w, b, version) == ManifestHash(w, c, version)
    ensures b.scope == c.scope && b.fromSequence == c.fromSequence && b.toSequence == c.toSequence
    ensures b.contractVersion == c.contractVersion
    ensures |b.entries| == |c.entries| && forall i :: 0 <= i < |b.entries| ==> b.entries[i].entryHash == c.entries[i].entryHash
    ensures b.verification.condition == c.verification.condition && b.verification.upTo == c.verification.upTo
    ensures version == MANIFEST_V2 ==> b.verification == c.verification
  {
    assert ManifestOf(b, version) == ManifestOf(c, version);
    HashesAreOfTheEntries(b.entries);
    HashesAreOfTheEntries(c.entries);
    forall i | 0 <= i < |b.entries| ensures b.entries[i].entryHash == c.entries[i].entryHash {
      assert EntryHashes(b.entries)[i] == EntryHashes(c.entries)[i];
    }
  }

  lemma {:induction false} HashesAreOfTheEntries(entries: seq<Entry>)
    ensures |EntryHashes(entries)| == |entries|
    ensures forall i :: 0 <= i < |entries| ==> EntryHashes(entries)[i] == entries[i].entryHash
  {
    if entries != [] {
      HashesAreOfTheEntries(entries[1..]);
    }
  }
}
