/** For every connection in a range, the lowest grade it held while acting in it. */
module EvidenceGrades {
  import opened EvidenceEntry

  datatype Grade = Unverified | Observability | Evidence

  function Rank(g: Grade): nat {
    match g case Unverified => 0 case Observability => 1 case Evidence => 2
  }

  /** The grade a text names; any other text names the lowest. */
  function GradeNamed(text: string): Grade {
    if text == "evidence" then Evidence else if text == "observability" then Observability else Unverified
  }

  /** The grade a connection stands at after the first `n` entries. */
  function Standing(entries: seq<Entry>, n: nat, c: string): Grade
    requires n <= |entries|
  {
    if n == 0 then Unverified
    else if entries[n - 1].connectionId == c && entries[n - 1].body.GradeRecord? then GradeNamed(entries[n - 1].body.grade)
    else Standing(entries, n - 1, c)
  }

  function Connections(entries: seq<Entry>): set<string> {
    set e | e in entries :: e.connectionId
  }

  function Weaker(a: Grade, b: Grade): Grade { if Rank(b) < Rank(a) then b else a }

  function Least(grades: seq<Grade>): Grade
    requires grades != []
  {
    if |grades| == 1 then grades[0] else Weaker(Least(grades[..|grades| - 1]), grades[|grades| - 1])
  }

  lemma {:induction false} LeastIsLeast(grades: seq<Grade>)
    requires grades != []
    ensures Least(grades) in grades
    ensures forall g :: g in grades ==> Rank(Least(grades)) <= Rank(g)
  {
    if |grades| > 1 {
      LeastIsLeast(grades[..|grades| - 1]);
      assert grades == grades[..|grades| - 1] + [grades[|grades| - 1]];
    }
  }

  /** The standings a connection had at its own entries, in order. */
  function Covered(entries: seq<Entry>, n: nat, c: string): seq<Grade>
    requires n <= |entries|
  {
    if n == 0 then []
    else Covered(entries, n - 1, c) + (if entries[n - 1].connectionId == c then [Standing(entries, n, c)] else [])
  }

  lemma {:induction false} CoveredIsExact(entries: seq<Entry>, n: nat, c: string)
    requires n <= |entries|
    ensures forall g :: g in Covered(entries, n, c) <==>
      exists i :: 0 <= i < n && entries[i].connectionId == c && Standing(entries, i + 1, c) == g
  {
    if n > 0 {
      CoveredIsExact(entries, n - 1, c);
    }
  }

  /** The weakest grade a connection stood at over its entries of the range. */
  ghost predicate IsWeakest(entries: seq<Entry>, c: string, grade: Grade) {
    && (forall i :: 0 <= i < |entries| && entries[i].connectionId == c ==>
          Rank(grade) <= Rank(Standing(entries, i + 1, c)))
    && (exists i :: 0 <= i < |entries| && entries[i].connectionId == c && grade == Standing(entries, i + 1, c))
  }

  /** The verdict's grades, said outright: every connection of the range and no other; a
      lowered one is unverified, any other is the weakest it stood at over its entries. */
  ghost predicate WeakestGrades(entries: seq<Entry>, lowered: set<string>, grades: map<string, Grade>) {
    && grades.Keys == Connections(entries)
    && forall c :: c in grades ==> if c in lowered then grades[c] == Unverified else IsWeakest(entries, c, grades[c])
  }

  lemma LeastIsWeakest(entries: seq<Entry>, c: string)
    requires Covered(entries, |entries|, c) != []
    ensures IsWeakest(entries, c, Least(Covered(entries, |entries|, c)))
  {
    LeastIsLeast(Covered(entries, |entries|, c));
    CoveredIsExact(entries, |entries|, c);
  }

  lemma WeakestFromCovered(entries: seq<Entry>, lowered: set<string>, covered: map<string, seq<Grade>>,
                           grades: map<string, Grade>)
    requires covered.Keys == grades.Keys == Connections(entries)
    requires forall c :: c in covered ==> covered[c] == Covered(entries, |entries|, c) && covered[c] != []
    requires forall c :: c in grades ==> grades[c] == if c in lowered then Unverified else Least(covered[c])
    ensures WeakestGrades(entries, lowered, grades)
  {
    forall c | c in grades && c !in lowered ensures IsWeakest(entries, c, grades[c]) {
      LeastIsWeakest(entries, c);
    }
  }

  /** What the two dictionaries hold after `n` entries. */
  ghost predicate Tracks(entries: seq<Entry>, n: nat, current: map<string, Grade>, covered: map<string, seq<Grade>>)
    requires n <= |entries|
  {
    && (forall c :: Standing(entries, n, c) == if c in current then current[c] else Unverified)
    && covered.Keys == Connections(entries[..n])
    && (forall c :: c in covered ==> covered[c] == Covered(entries, n, c) && covered[c] != [])
    && (forall c :: c !in covered ==> Covered(entries, n, c) == [])
  }

  function Raised(current: map<string, Grade>, e: Entry): map<string, Grade> {
    if e.body.GradeRecord? then current[e.connectionId := GradeNamed(e.body.grade)] else current
  }

  function Extended(covered: map<string, seq<Grade>>, c: string, standing: Grade): map<string, seq<Grade>> {
    covered[c := (if c in covered then covered[c] else []) + [standing]]
  }

  lemma OneMore(entries: seq<Entry>, n: nat, c: string)
    requires n < |entries|
    ensures var e := entries[n];
      Standing(entries, n + 1, c)
      == if e.connectionId == c && e.body.GradeRecord? then GradeNamed(e.body.grade) else Standing(entries, n, c)
    ensures Covered(entries, n + 1, c)
      == if entries[n].connectionId == c then Covered(entries, n, c) + [Standing(entries, n + 1, c)]
         else Covered(entries, n, c)
  {
    assert Covered(entries, n, c) + [] == Covered(entries, n, c);
  }

  lemma StandsOneMore(entries: seq<Entry>, n: nat, current: map<string, Grade>)
    requires n < |entries|
    requires forall c :: Standing(entries, n, c) == if c in current then current[c] else Unverified
    ensures var raised := Raised(current, entries[n]);
      forall c :: Standing(entries, n + 1, c) == if c in raised then raised[c] else Unverified
  {
    forall c {
      OneMore(entries, n, c);
    }
  }

  lemma ConnectedOneMore(entries: seq<Entry>, n: nat, covered: map<string, seq<Grade>>, standing: Grade)
    requires n < |entries| && covered.Keys == Connections(entries[..n])
    ensures Extended(covered, entries[n].connectionId, standing).Keys == Connections(entries[..n + 1])
  {
    assert entries[..n + 1] == entries[..n] + [entries[n]];
  }

  lemma CoveredOneMore(entries: seq<Entry>, n: nat, covered: map<string, seq<Grade>>, standing: Grade, c: string)
    requires n < |entries| && Covered(entries, n, c) == if c in covered then covered[c] else []
    requires standing == Standing(entries, n + 1, entries[n].connectionId)
    ensures var longer := Extended(covered, entries[n].connectionId, standing);
      Covered(entries, n + 1, c) == if c in longer then longer[c] else []
  {
    OneMore(entries, n, c);
  }

  /** One entry more moves the standing and the cover of its own connection only. */
  lemma TracksOneMore(entries: seq<Entry>, n: nat, current: map<string, Grade>, covered: map<string, seq<Grade>>)
    requires n < |entries| && Tracks(entries, n, current, covered)
    ensures var e := entries[n];
      var raised := Raised(current, e);
      var standing := if e.connectionId in raised then raised[e.connectionId] else Unverified;
      Tracks(entries, n + 1, raised, Extended(covered, e.connectionId, standing))
  {
    var e := entries[n];
    var raised := Raised(current, e);
    var standing := if e.connectionId in raised then raised[e.connectionId] else Unverified;
    var longer := Extended(covered, e.connectionId, standing);
    ConnectedOneMore(entries, n, covered, standing);
    StandsOneMore(entries, n, current);
    forall c ensures Covered(entries, n + 1, c) == if c in longer then longer[c] else [] {
      CoveredOneMore(entries, n, covered, standing, c);
    }
  }

  /** One pass over the range with two dictionaries finds exactly the weakest grades. */
  method Grades(entries: seq<Entry>, lowered: set<string>) returns (grades: map<string, Grade>)
    ensures WeakestGrades(entries, lowered, grades)
  {
    var current: map<string, Grade> := map[];
    var covered: map<string, seq<Grade>> := map[];
    for n := 0 to |entries|
      invariant Tracks(entries, n, current, covered)
    {
      var entry := entries[n];
      var connection := entry.connectionId;
      TracksOneMore(entries, n, current, covered);
      if entry.body.GradeRecord? {
        current := current[connection := GradeNamed(entry.body.grade)];
      }
      var standing := if connection in current then current[connection] else Unverified;
      covered := covered[connection := (if connection in covered then covered[connection] else []) + [standing]];
    }
    assert entries[..|entries|] == entries;
    grades := map c | c in covered :: if c in lowered then Unverified else Least(covered[c]);
    WeakestFromCovered(entries, lowered, covered, grades);
  }

  lemma {:induction false} StandingOfPrefix(entries: seq<Entry>, more: seq<Entry>, n: nat, c: string)
    requires n <= |entries|
    ensures Standing(entries + more, n, c) == Standing(entries, n, c)
  {
    if n > 0 {
      StandingOfPrefix(entries, more, n - 1, c);
    }
  }

  lemma WeakestOfLonger(entries: seq<Entry>, more: seq<Entry>, c: string, before: Grade, after: Grade)
    requires IsWeakest(entries, c, before) && IsWeakest(entries + more, c, after)
    ensures Rank(after) <= Rank(before)
  {
    var i :| 0 <= i < |entries| && entries[i].connectionId == c && before == Standing(entries, i + 1, c);
    assert (entries + more)[i] == entries[i];
    StandingOfPrefix(entries, more, i + 1, c);
  }

  lemma StillConnected(entries: seq<Entry>, more: seq<Entry>, c: string)
    requires c in Connections(entries)
    ensures c in Connections(entries + more)
  {
    var e :| e in entries && e.connectionId == c;
    assert e in entries + more;
  }

  /** A longer range never shows a higher grade for a connection it already showed, and
      lowering more connections never raises one. */
  lemma LongerNeverRaises(entries: seq<Entry>, more: seq<Entry>, lowered: set<string>, wider: set<string>,
                          before: map<string, Grade>, after: map<string, Grade>, c: string)
    requires lowered <= wider
    requires WeakestGrades(entries, lowered, before) && WeakestGrades(entries + more, wider, after)
    requires c in before
    ensures c in after && Rank(after[c]) <= Rank(before[c])
  {
    StillConnected(entries, more, c);
    if c !in wider {
      WeakestOfLonger(entries, more, c, before[c], after[c]);
    }
  }
}
