/** How far the entries before the one a chain verdict names can be trusted. */
module EvidenceTrust {
  import opened Outcomes
  import opened EvidenceEntry
  import opened EvidenceChain
  import opened EvidenceExport

  /** How many leading entries a finding lets a reader trust. */
  function TrustedBy(f: Finding, entries: seq<Entry>, from: int): (n: nat)
    ensures n <= |entries|
  {
    if f == Whole then |entries|
    else if NamedBy(f, entries, from) == None then 0
    else CountBelow(entries, NamedBy(f, entries, from).value)
  }

  /** That is the count the export verifier takes from the verdict. */
  lemma TrustedByIsTheCount(f: Finding, h: Hasher, entries: seq<Entry>, scope: string, from: int, v: ChainVerdict,
                            lowered: set<string>)
    requires Renders(v, f, h, entries, scope, from, lowered)
    ensures TrustedCount(entries, v) == TrustedBy(f, entries, from)
  {
  }

  lemma {:induction false} AllAtOrAbove(entries: seq<Entry>, sequence: int)
    requires forall e :: e in entries ==> e.sequence >= sequence
    ensures CountBelow(entries, sequence) == 0
  {
    if entries != [] {
      AllAtOrAbove(entries[1..], sequence);
    }
  }

  lemma RisingAfterFirst(entries: seq<Entry>)
    requires entries != [] && InOrder(entries)
    ensures InOrder(entries[1..])
    ensures forall e :: e in entries[1..] ==> e.sequence > entries[0].sequence
  {
    forall i | 1 <= i < |entries| - 1 ensures entries[1..][i - 1].sequence < entries[1..][i].sequence {
      assert entries[i].sequence < entries[i + 1].sequence;
    }
    forall e | e in entries[1..] ensures e.sequence > entries[0].sequence {
      var j :| 1 <= j < |entries| && entries[j] == e;
      RisingPast(entries, 0, j);
    }
  }

  /** In a range that rises, the entries below the i-th are the first i. */
  lemma {:induction false} CountBelowIsPosition(entries: seq<Entry>, i: nat)
    requires i < |entries| && InOrder(entries)
    ensures CountBelow(entries, entries[i].sequence) == i
  {
    RisingAfterFirst(entries);
    if i == 0 {
      AllAtOrAbove(entries[1..], entries[0].sequence);
    } else {
      assert entries[i] == entries[1..][i - 1];
      CountBelowIsPosition(entries[1..], i - 1);
    }
  }

  // -- a hash or a link that fails: what precedes it was recomputed ------------------------------

  /** Unless the verdict is a gap, every trusted entry recomputes; and when the stage of links
      was reached, every trusted entry also links to the one before it. */
  lemma TrustedEntriesVerify(f: Finding, h: Hasher, entries: seq<Entry>, scope: string, from: int, to: Option<int>)
    requires Establishes(f, h, entries, scope, from, to) && ConditionOf(f) != GapAt
    ensures VerifiedTo(h, entries, TrustedBy(f, entries, from))
    ensures f.WrongLink? || f.Whole? ==> LinkedTo(entries, TrustedBy(f, entries, from))
  {
    if HashStage(f) || f.WrongLink? {
      ContiguousIsInOrder(entries);
      CountBelowIsPosition(entries, f.at);
    }
  }

  // -- a gap: nothing was ----------------------------------------------------------------------------

  /** Two ranges a gap cannot be told apart by: one entry for each of the other's. */
  ghost predicate SameSequences(entries: seq<Entry>, others: seq<Entry>) {
    |entries| == |others|
    && forall i :: 0 <= i < |entries| ==> entries[i].scope == others[i].scope && entries[i].sequence == others[i].sequence
  }

  lemma SameStages(entries: seq<Entry>, others: seq<Entry>, scope: string)
    requires SameSequences(entries, others)
    ensures SingleScope(entries, scope) ==> SingleScope(others, scope)
    ensures InOrder(entries) ==> InOrder(others)
    ensures forall i :: 1 <= i < |entries| ==> (StepsByOne(entries, i) <==> StepsByOne(others, i))
    ensures forall n: nat :: ContiguousTo(entries, n) ==> ContiguousTo(others, n)
  {
    if SingleScope(entries, scope) {
      forall e | e in others ensures e.scope == scope {
        var i :| 0 <= i < |others| && others[i] == e;
        assert entries[i] in entries;
      }
    }
    forall n: nat | ContiguousTo(entries, n) ensures ContiguousTo(others, n) {
      forall i | 1 <= i < n && i < |others| ensures StepsByOne(others, i) {
        assert StepsByOne(entries, i);
      }
    }
  }

  /** A gap is found by scopes and sequences alone: whatever else the entries hold, and
      whatever they hash to, the finding is the same. */
  lemma GapIsBlindToContent(f: Finding, h: Hasher, entries: seq<Entry>, other: Hasher, others: seq<Entry>,
                            scope: string, from: int, to: Option<int>)
    requires Establishes(f, h, entries, scope, from, to) && ConditionOf(f) == GapAt && SameSequences(entries, others)
    ensures Establishes(f, other, others, scope, from, to)
    ensures TrustedBy(f, others, from) == TrustedBy(f, entries, from)
  {
    SameStages(entries, others, scope);
    if NamedBy(f, entries, from).Some? {
      SameCount(entries, others, NamedBy(f, entries, from).value);
    }
  }

  lemma {:induction false} SameCount(entries: seq<Entry>, others: seq<Entry>, sequence: int)
    requires SameSequences(entries, others)
    ensures CountBelow(entries, sequence) == CountBelow(others, sequence)
  {
    if entries != [] {
      SameCount(entries[1..], others[1..], sequence);
    }
  }

  function Repeated(c: char, n: nat): (s: string)
    ensures |s| == n && forall i :: 0 <= i < n ==> s[i] == c
  {
    if n == 0 then "" else [c] + Repeated(c, n - 1)
  }

  /** Some digest that is not this one. */
  function OtherThan(digest: string): (other: string)
    ensures other != digest && |other| == 64
  {
    var zeros, ones := Repeated('0', 64), Repeated('1', 64);
    assert zeros[0] != ones[0];
    if digest == zeros then ones else zeros
  }

  /** The range with every recipe replaced by an unknown one and every link broken. */
  function Tampered(entries: seq<Entry>): seq<Entry> {
    seq(|entries|, i requires 0 <= i < |entries| =>
      entries[i].(preimageVersion := "another",
                  previousHash := if i == 0 then entries[i].previousHash else Some(OtherThan(entries[i - 1].entryHash))))
  }

  lemma TamperedIsBad(h: Hasher, entries: seq<Entry>)
    ensures SameSequences(entries, Tampered(entries))
    ensures entries != [] ==> !VerifiedTo(h, Tampered(entries), 1)
    ensures |entries| > 1 ==> !LinkedTo(Tampered(entries), 2)
  {
    if entries != [] { assert !Verifies(h, Tampered(entries)[0]); }
    if |entries| > 1 { assert !Linked(Tampered(entries), 1); }
  }

  /** Over every range the finding is made of, the trusted entries recompute. */
  ghost predicate HashesAreEarned(f: Finding, h: Hasher, entries: seq<Entry>, scope: string, from: int, to: Option<int>) {
    forall others :: SameSequences(entries, others) && Establishes(f, h, others, scope, from, to) ==>
      VerifiedTo(h, others, TrustedBy(f, others, from))
  }

  ghost predicate LinksAreEarned(f: Finding, h: Hasher, entries: seq<Entry>, scope: string, from: int, to: Option<int>) {
    forall others :: SameSequences(entries, others) && Establishes(f, h, others, scope, from, to) ==>
      LinkedTo(others, TrustedBy(f, others, from))
  }

  /** A verdict vouches for the hashes of what it lets a reader trust exactly when it is not a
      gap, or lets them trust nothing. */
  lemma HashesAreEarnedExactly(f: Finding, h: Hasher, entries: seq<Entry>, scope: string, from: int, to: Option<int>,
                               v: ChainVerdict, lowered: set<string>)
    requires Establishes(f, h, entries, scope, from, to) && Renders(v, f, h, entries, scope, from, lowered)
    ensures HashesAreEarned(f, h, entries, scope, from, to)
      <==> v.condition != GapAt || TrustedCount(entries, v) == 0
  {
    TrustedByIsTheCount(f, h, entries, scope, from, v, lowered);
    FindingEarnsHashesExactly(f, h, entries, scope, from, to);
  }

  lemma FindingEarnsHashesExactly(f: Finding, h: Hasher, entries: seq<Entry>, scope: string, from: int, to: Option<int>)
    requires Establishes(f, h, entries, scope, from, to)
    ensures HashesAreEarned(f, h, entries, scope, from, to)
      <==> ConditionOf(f) != GapAt || TrustedBy(f, entries, from) == 0
  {
    if ConditionOf(f) == GapAt {
      var others := Tampered(entries);
      if TrustedBy(f, entries, from) > 0 {
        TamperedIsBad(h, entries);
        GapIsBlindToContent(f, h, entries, h, others, scope, from, to);
      } else {
        forall others | SameSequences(entries, others) && Establishes(f, h, others, scope, from, to)
          ensures VerifiedTo(h, others, TrustedBy(f, others, from))
        {
          GapIsBlindToContent(f, h, entries, h, others, scope, from, to);
        }
      }
    } else {
      forall others | SameSequences(entries, others) && Establishes(f, h, others, scope, from, to)
        ensures VerifiedTo(h, others, TrustedBy(f, others, from))
      {
        TrustedEntriesVerify(f, h, others, scope, from, to);
      }
    }
  }

  // -- a hash that fails: no link was looked at ----------------------------------------------------

  /** The second entry linked to something else, and hashed anew so that it still verifies. */
  function Relinked(r: Recipes, entries: seq<Entry>): Entry
    requires |entries| >= 2
  {
    var e := entries[1].(previousHash := Some(OtherThan(entries[0].entryHash)));
    e.(entryHash := match EntryHash(r, e) case None => e.entryHash case Some(hash) => hash)
  }

  lemma RelinkedVerifies(r: Recipes, entries: seq<Entry>)
    requires |entries| >= 2 && Verifies(HasherOf(r), entries[1])
    ensures Verifies(HasherOf(r), Relinked(r, entries))
    ensures Relinked(r, entries).previousHash != Some(entries[0].entryHash)
    ensures Relinked(r, entries).scope == entries[1].scope && Relinked(r, entries).sequence == entries[1].sequence
  {
    var e := Relinked(r, entries);
    assert Components(r, e) == Components(r, e.(entryHash := entries[1].entryHash));
    assert Components(r, entries[1]).Some?;
  }

  lemma StillContiguous(entries: seq<Entry>, others: seq<Entry>, scope: string, from: int, to: Option<int>)
    requires SameSequences(entries, others) && Contiguous(entries, scope, from, to)
    ensures Contiguous(others, scope, from, to)
  {
    SameStages(entries, others, scope);
  }

  lemma StillFailsThere(f: Finding, h: Hasher, entries: seq<Entry>, e: Entry, scope: string, from: int, to: Option<int>)
    requires Establishes(f, h, entries, scope, from, to) && HashStage(f) && f.at >= 2
    requires Verifies(h, e) && e.scope == entries[1].scope && e.sequence == entries[1].sequence
    ensures SameSequences(entries, entries[1 := e]) && Establishes(f, h, entries[1 := e], scope, from, to)
  {
    var others := entries[1 := e];
    StillContiguous(entries, others, scope, from, to);
    forall i | 0 <= i < f.at ensures Verifies(h, others[i]) {
      assert Verifies(h, entries[i]);
    }
  }

  /** A failed hash says nothing of the links before it: one of them can be broken and the
      finding stays what it was. */
  lemma WrongHashIsBlindToLinks(f: Finding, h: Hasher, entries: seq<Entry>, e: Entry, scope: string, from: int, to: Option<int>)
    requires Establishes(f, h, entries, scope, from, to) && HashStage(f) && f.at >= 2
    requires Verifies(h, e) && e.scope == entries[1].scope && e.sequence == entries[1].sequence
    requires e.previousHash != Some(entries[0].entryHash)
    ensures var others := entries[1 := e];
      && SameSequences(entries, others) && Establishes(f, h, others, scope, from, to)
      && TrustedBy(f, others, from) == f.at && !LinkedTo(others, f.at)
  {
    var others := entries[1 := e];
    StillFailsThere(f, h, entries, e, scope, from, to);
    HashStageTrustsUpToItself(f, h, others, scope, from, to);
    assert !Linked(others, 1);
  }

  lemma SameTrust(f: Finding, entries: seq<Entry>, others: seq<Entry>, from: int)
    requires SameSequences(entries, others)
    ensures TrustedBy(f, others, from) == TrustedBy(f, entries, from)
  {
    assert NamedBy(f, others, from) == NamedBy(f, entries, from);
    if NamedBy(f, entries, from).Some? {
      SameCount(entries, others, NamedBy(f, entries, from).value);
    }
  }

  lemma LinksEarned(f: Finding, h: Hasher, entries: seq<Entry>, scope: string, from: int, to: Option<int>)
    requires Establishes(f, h, entries, scope, from, to)
    requires f.WrongLink? || f.Whole? || TrustedBy(f, entries, from) <= 1
    ensures LinksAreEarned(f, h, entries, scope, from, to)
  {
    forall others | SameSequences(entries, others) && Establishes(f, h, others, scope, from, to)
      ensures LinkedTo(others, TrustedBy(f, others, from))
    {
      if f.WrongLink? || f.Whole? {
        TrustedEntriesVerify(f, h, others, scope, from, to);
      } else {
        SameTrust(f, entries, others, from);
      }
    }
  }

  lemma LinkedToFewer(entries: seq<Entry>, fewer: nat, n: nat)
    requires fewer <= n
    ensures LinkedTo(entries, n) ==> LinkedTo(entries, fewer)
  {
  }

  lemma LinksNotEarnedByAGap(f: Finding, h: Hasher, entries: seq<Entry>, scope: string, from: int, to: Option<int>)
    requires Establishes(f, h, entries, scope, from, to) && ConditionOf(f) == GapAt && TrustedBy(f, entries, from) > 1
    ensures !LinksAreEarned(f, h, entries, scope, from, to)
  {
    var others := Tampered(entries);
    TamperedIsBad(h, entries);
    GapIsBlindToContent(f, h, entries, h, others, scope, from, to);
    LinkedToFewer(others, 2, TrustedBy(f, others, from));
  }

  lemma LinksNotEarnedByAHash(f: Finding, h: Hasher, entries: seq<Entry>, e: Entry, scope: string, from: int, to: Option<int>)
    requires Establishes(f, h, entries, scope, from, to) && HashStage(f) && f.at >= 2
    requires Verifies(h, e) && e.scope == entries[1].scope && e.sequence == entries[1].sequence
    requires e.previousHash != Some(entries[0].entryHash)
    ensures !LinksAreEarned(f, h, entries, scope, from, to)
  {
    WrongHashIsBlindToLinks(f, h, entries, e, scope, from, to);
  }

  lemma HashStageTrustsUpToItself(f: Finding, h: Hasher, entries: seq<Entry>, scope: string, from: int, to: Option<int>)
    requires Establishes(f, h, entries, scope, from, to) && HashStage(f)
    ensures TrustedBy(f, entries, from) == f.at
    ensures f.at >= 2 ==> Verifies(h, entries[1])
  {
    ContiguousIsInOrder(entries);
    CountBelowIsPosition(entries, f.at);
  }

  /** And it vouches for their links exactly when it comes from the stage of links or after, or
      lets a reader trust one entry at most. */
  lemma LinksAreEarnedExactly(f: Finding, r: Recipes, entries: seq<Entry>, scope: string, from: int, to: Option<int>,
                              v: ChainVerdict, lowered: set<string>)
    requires Establishes(f, HasherOf(r), entries, scope, from, to)
    requires Renders(v, f, HasherOf(r), entries, scope, from, lowered)
    ensures LinksAreEarned(f, HasherOf(r), entries, scope, from, to)
      <==> f.WrongLink? || f.Whole? || TrustedCount(entries, v) <= 1
  {
    TrustedByIsTheCount(f, HasherOf(r), entries, scope, from, v, lowered);
    FindingEarnsLinksExactly(f, r, entries, scope, from, to);
  }

  lemma FindingEarnsLinksExactly(f: Finding, r: Recipes, entries: seq<Entry>, scope: string, from: int, to: Option<int>)
    requires Establishes(f, HasherOf(r), entries, scope, from, to)
    ensures LinksAreEarned(f, HasherOf(r), entries, scope, from, to)
      <==> f.WrongLink? || f.Whole? || TrustedBy(f, entries, from) <= 1
  {
    if f.WrongLink? || f.Whole? || TrustedBy(f, entries, from) <= 1 {
      LinksEarned(f, HasherOf(r), entries, scope, from, to);
    } else if ConditionOf(f) == GapAt {
      LinksNotEarnedByAGap(f, HasherOf(r), entries, scope, from, to);
    } else {
      HashStageTrustsUpToItself(f, HasherOf(r), entries, scope, from, to);
      RelinkedVerifies(r, entries);
      LinksNotEarnedByAHash(f, HasherOf(r), entries, Relinked(r, entries), scope, from, to);
    }
  }

  /** A range that starts elsewhere is a gap at the first sequence asked for, and every entry
      below that one is trusted, unexamined. */
  lemma StartingElsewhereTrustsWhatPrecedes(h: Hasher, entries: seq<Entry>, scope: string, from: int, to: Option<int>, i: nat)
    requires Establishes(StartsElsewhere, h, entries, scope, from, to)
    ensures i < |entries| ==> (i < TrustedBy(StartsElsewhere, entries, from) <==> entries[i].sequence < from)
  {
    if i < |entries| { CountBelowSplits(entries, from, i); }
  }

  lemma {:induction false} CountBelowSplits(entries: seq<Entry>, sequence: int, i: nat)
    requires InOrder(entries) && i < |entries|
    ensures i < CountBelow(entries, sequence) <==> entries[i].sequence < sequence
  {
    RisingAfterFirst(entries);
    if entries[0].sequence >= sequence {
      AllAtOrAbove(entries[1..], sequence);
      RisingPast(entries, 0, i);
    } else if i > 0 {
      assert entries[i] == entries[1..][i - 1];
      CountBelowSplits(entries[1..], sequence, i - 1);
    }
  }
}
