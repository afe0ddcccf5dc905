/** The directories a lookup reads a name in, found by a worklist of pending components:
    a second walker over the same names, which must agree with the first. */
module DirectoriesCrossed {
  import opened Outcomes
  import opened FileSystem
  import opened NamingPath

  /** Why the walk gives no list: `lstat` fails, or the start is refused. */
  datatype Refusal = Missing(name: Path) | TooManyLinks | UntrustedLink(name: Path)

  type Crossing = Result<seq<Path>, Refusal>

  /** Only root and the daemon may own a link on the way. */
  predicate Trusted(fs: FileSystem, daemon: int, link: Path) {
    link in fs ==> fs[link].uid == 0 || fs[link].uid == daemon
  }

  function Joined(before: seq<Path>, after: Crossing): Crossing {
    if after.Err? then after else Ok(before + after.value)
  }

  /** What the worklist meets from `current` on, repetitions included. */
  function Cross(fs: FileSystem, daemon: int, current: Path, pending: Path, followed: nat): Crossing
    decreases LinksLeft(followed), |pending|
  {
    if pending == [] then Ok([])
    else if pending[0] == UP then Cross(fs, daemon, Parent(current), pending[1..], followed)
    else
      var candidate := current + [pending[0]];
      if !IsDirectory(fs, current) || candidate !in fs then Err(Missing(candidate))
      else match fs[candidate].kind
        case Link(t) =>
          if followed + 1 > MAX_LINKS then Err(TooManyLinks)
          else if !Trusted(fs, daemon, candidate) then Err(UntrustedLink(candidate))
          else Joined([current], Cross(fs, daemon, From(current, t), t.parts + pending[1..], followed + 1))
        case _ => Joined([current], Cross(fs, daemon, candidate, pending[1..], followed))
  }

  // -- repetitions ----------------------------------------------------------------------------

  /** Each element once, where it first stands. */
  function Firsts(s: seq<Path>): seq<Path> {
    if s == [] then []
    else
      var before, last := Firsts(s[..|s| - 1]), s[|s| - 1];
      if last in before then before else before + [last]
  }

  /** `a` is met before `b` is. */
  ghost predicate MetBefore(s: seq<Path>, a: Path, b: Path) {
    exists i :: 0 <= i < |s| && s[i] == a && b !in s[..i + 1]
  }

  /** Nothing is lost, nothing is repeated, and the order of first meeting is kept. */
  lemma {:induction false} FirstsKeepsEachOnceInOrder(s: seq<Path>)
    ensures forall x :: x in Firsts(s) <==> x in s
    ensures forall i, j :: 0 <= i < j < |Firsts(s)| ==> Firsts(s)[i] != Firsts(s)[j]
    ensures forall i, j :: 0 <= i < j < |Firsts(s)| ==> MetBefore(s, Firsts(s)[i], Firsts(s)[j])
  {
    if s != [] {
      var init, last := s[..|s| - 1], s[|s| - 1];
      FirstsKeepsEachOnceInOrder(init);
      assert s == init + [last];
      forall i, j | 0 <= i < j < |Firsts(s)| ensures MetBefore(s, Firsts(s)[i], Firsts(s)[j]) {
        var a, b := Firsts(s)[i], Firsts(s)[j];
        if j < |Firsts(init)| {
          MetBeforeInLonger(init, last, a, b);
        } else {
          MetBeforeNew(init, a, b);
        }
      }
    }
  }

  lemma MetBeforeInLonger(s: seq<Path>, last: Path, a: Path, b: Path)
    requires MetBefore(s, a, b)
    ensures MetBefore(s + [last], a, b)
  {
    var i :| 0 <= i < |s| && s[i] == a && b !in s[..i + 1];
    assert (s + [last])[i] == a && (s + [last])[..i + 1] == s[..i + 1];
  }

  lemma MetBeforeNew(s: seq<Path>, a: Path, b: Path)
    requires a in s && b !in s
    ensures MetBefore(s + [b], a, b)
  {
    var i :| 0 <= i < |s| && s[i] == a;
    assert (s + [b])[i] == a && (s + [b])[..i + 1] == s[..i + 1];
  }

  // -- the worklist -----------------------------------------------------------------------------

  function Deduplicated(found: Crossing): Crossing {
    if found.Err? then found else Ok(Firsts(found.value))
  }

  /** The worklist itself: pending names are taken from the front, and a link puts its own
      in front of the rest. */
  method DirectoriesCrossed(fs: FileSystem, daemon: int, directory: Path) returns (crossing: Crossing)
    ensures crossing == Deduplicated(Cross(fs, daemon, [], directory, 0))
  {
    var pending := directory;
    var current: Path := [];
    var crossed: seq<Path> := [];
    var followed := 0;
    JoinedNothing(Cross(fs, daemon, [], directory, 0));
    while pending != []
      invariant followed <= MAX_LINKS
      invariant Cross(fs, daemon, [], directory, 0) == Joined(crossed, Cross(fs, daemon, current, pending, followed))
      decreases LinksLeft(followed), |pending|
    {
      ghost var rest := Cross(fs, daemon, current, pending, followed);
      var name := pending[0];
      pending := pending[1..];
      if name == UP {
        current := Parent(current);
        continue;
      }
      var candidate := current + [name];
      if !IsDirectory(fs, current) || candidate !in fs { return Err(Missing(candidate)); }
      JoinedTwice(crossed, current, if rest.Ok? then Ok(rest.value[1..]) else rest);
      crossed := crossed + [current];
      if !fs[candidate].kind.Link? {
        JoinedTwice(crossed[..|crossed| - 1], current, Cross(fs, daemon, candidate, pending, followed));
        current := candidate;
        continue;
      }
      followed := followed + 1;
      if followed > MAX_LINKS { return Err(TooManyLinks); }
      if fs[candidate].uid !in {0, daemon} { return Err(UntrustedLink(candidate)); }
      var target := fs[candidate].kind.target;
      JoinedTwice(crossed[..|crossed| - 1], current,
                  Cross(fs, daemon, From(current, target), target.parts + pending, followed));
      if target.absolute { current := []; }
      pending := target.parts + pending;
    }
    assert crossed + [] == crossed;
    crossing := Ok(Firsts(crossed));
  }

  lemma JoinedNothing(found: Crossing)
    ensures Joined([], found) == found
  {
    if found.Ok? {
      assert [] + found.value == found.value;
    }
  }

  lemma JoinedTwice(before: seq<Path>, d: Path, after: Crossing)
    ensures Joined(before, Joined([d], after)) == Joined(before + [d], after)
  {
    if after.Ok? {
      assert before + ([d] + after.value) == (before + [d]) + after.value;
    }
  }

  // -- it agrees with the naming chains ------------------------------------------------------------

  ghost predicate WellPlaced(fs: FileSystem, d: Path, heads: seq<Path>) {
    LinkFree(fs, d) && IsDirectory(fs, d) && OnSomeChain(d, heads)
  }

  lemma {:induction false} CrossedLieOnChains(fs: FileSystem, daemon: int, current: Path, pending: Path, followed: nat)
    requires followed <= MAX_LINKS && LinkFree(fs, current)
    requires Cross(fs, daemon, current, pending, followed).Ok?
    ensures Scan(fs, current, pending, followed).Some?
    ensures forall d :: d in Cross(fs, daemon, current, pending, followed).value ==>
      WellPlaced(fs, d, Scan(fs, current, pending, followed).value)
    decreases LinksLeft(followed), |pending|
  {
    if pending != [] {
      var rest := pending[1..];
      if pending[0] == UP {
        LinkFreeParent(fs, current);
        CrossedLieOnChains(fs, daemon, Parent(current), rest, followed);
        WellPlacedOnRest(fs, current, Scan(fs, Parent(current), rest, followed).value);
      } else {
        var candidate := current + [pending[0]];
        var heads := Scan(fs, current, pending, followed);
        match fs[candidate].kind {
          case Link(t) =>
            LinkContinues(fs, current, t, rest, followed + 1);
            CrossedLieOnChains(fs, daemon, From(current, t), t.parts + rest, followed + 1);
            WellPlacedOnRest(fs, candidate, Scan(fs, From(current, t), t.parts + rest, followed + 1).value);
            assert heads == Before(candidate, Heads(fs, From(current, t) + t.parts + rest, followed + 1));
            assert heads == Before(candidate, Scan(fs, From(current, t), t.parts + rest, followed + 1));
            OnFirst(current, heads.value);
          case _ =>
            LinkFreeStep(fs, current, pending[0]);
            CrossedLieOnChains(fs, daemon, candidate, rest, followed);
            ScanStartsBelow(fs, candidate, rest, followed);
            OnFirst(current, heads.value);
        }
      }
    }
  }

  lemma WellPlacedOnRest(fs: FileSystem, head: Path, heads: seq<Path>)
    ensures forall d :: WellPlaced(fs, d, heads) ==> WellPlaced(fs, d, [head] + heads)
  {
    forall d | WellPlaced(fs, d, heads) ensures WellPlaced(fs, d, [head] + heads) {
      assert ([head] + heads)[1..] == heads;
      OnRest(d, [head] + heads);
    }
  }

  /** Whenever the worklist returns, the naming chains of the same name exist and each
      directory listed is a real directory, free of links, on one of them. */
  lemma ListedDirectoriesLieOnChains(fs: FileSystem, daemon: int, path: Path, d: Path)
    requires Deduplicated(Cross(fs, daemon, [], path, 0)).Ok?
    requires d in Deduplicated(Cross(fs, daemon, [], path, 0)).value
    ensures Heads(fs, path, 0).Some?
    ensures LinkFree(fs, d) && IsDirectory(fs, d) && OnSomeChain(d, Heads(fs, path, 0).value)
  {
    CrossedLieOnChains(fs, daemon, [], path, 0);
    FirstsKeepsEachOnceInOrder(Cross(fs, daemon, [], path, 0).value);
    assert WellPlaced(fs, d, Heads(fs, path, 0).value);
  }

  lemma {:induction false} SameBound(fs: FileSystem, daemon: int, current: Path, pending: Path, followed: nat)
    requires followed <= MAX_LINKS && LinkFree(fs, current)
    requires Cross(fs, daemon, current, pending, followed) == Err(TooManyLinks)
    ensures Scan(fs, current, pending, followed) == None
    decreases LinksLeft(followed), |pending|
  {
    var rest := pending[1..];
    if pending[0] == UP {
      LinkFreeParent(fs, current);
      SameBound(fs, daemon, Parent(current), rest, followed);
    } else {
      var candidate := current + [pending[0]];
      match fs[candidate].kind {
        case Link(t) =>
          if followed + 1 <= MAX_LINKS {
            LinkContinues(fs, current, t, rest, followed + 1);
            SameBound(fs, daemon, From(current, t), t.parts + rest, followed + 1);
          }
        case _ =>
          LinkFreeStep(fs, current, pending[0]);
          SameBound(fs, daemon, candidate, rest, followed);
      }
    }
  }

  /** The two bounds cut at the same link. */
  lemma TooManyForOneIsTooManyForBoth(fs: FileSystem, daemon: int, path: Path)
    requires Cross(fs, daemon, [], path, 0) == Err(TooManyLinks)
    ensures Heads(fs, path, 0) == None
  {
    SameBound(fs, daemon, [], path, 0);
  }

  // -- it is the kernel's own lookup, links trusted -------------------------------------------------

  function Parents(names: seq<Path>): seq<Path> {
    if names == [] then [] else [Parent(names[0])] + Parents(names[1..])
  }

  /** Every link the kernel follows on the way has a trusted owner. */
  ghost predicate LinksTrusted(fs: FileSystem, daemon: int, names: seq<Path>) {
    forall n :: n in names && IsLink(fs, n) ==> Trusted(fs, daemon, n)
  }

  lemma {:induction false} CrossFollowsTheKernel(fs: FileSystem, daemon: int, current: Path, pending: Path, followed: nat)
    requires Reached(fs, current, pending, followed).Some?
    ensures var names := LookedUp(fs, current, pending, followed);
      Cross(fs, daemon, current, pending, followed).Ok? <==> LinksTrusted(fs, daemon, names)
    ensures Cross(fs, daemon, current, pending, followed).Ok? ==>
      Cross(fs, daemon, current, pending, followed).value == Parents(LookedUp(fs, current, pending, followed))
    decreases LinksLeft(followed), |pending|
  {
    if pending != [] {
      var rest := pending[1..];
      if pending[0] == UP {
        CrossFollowsTheKernel(fs, daemon, Parent(current), rest, followed);
      } else {
        var candidate := current + [pending[0]];
        assert Parent(candidate) == current;
        match fs[candidate].kind {
          case Link(t) =>
            var more := LookedUp(fs, From(current, t), t.parts + rest, followed + 1);
            assert LookedUp(fs, current, pending, followed) == [candidate] + more;
            CrossFollowsTheKernel(fs, daemon, From(current, t), t.parts + rest, followed + 1);
            TrustSplits(fs, daemon, candidate, more);
          case _ =>
            var more := LookedUp(fs, candidate, rest, followed);
            assert LookedUp(fs, current, pending, followed) == [candidate] + more;
            CrossFollowsTheKernel(fs, daemon, candidate, rest, followed);
            TrustSplits(fs, daemon, candidate, more);
        }
      }
    }
  }

  lemma TrustSplits(fs: FileSystem, daemon: int, first: Path, more: seq<Path>)
    ensures LinksTrusted(fs, daemon, [first] + more) <==>
      (IsLink(fs, first) ==> Trusted(fs, daemon, first)) && LinksTrusted(fs, daemon, more)
    ensures Parents([first] + more) == [Parent(first)] + Parents(more)
  {
    assert ([first] + more)[1..] == more;
    assert forall n :: n in [first] + more <==> n == first || n in more;
  }

  /** For a name the kernel can reach, the walk is refused exactly when some link looked up on
      the way belongs to a stranger; otherwise it lists exactly the directories in which the
      lookup reads a name, links' own directories included. */
  lemma CrossedAreTheDirectoriesReadIn(fs: FileSystem, daemon: int, path: Path)
    requires Reached(fs, [], path, 0).Some?
    ensures var crossing := Deduplicated(Cross(fs, daemon, [], path, 0));
      (crossing.Ok? <==> LinksTrusted(fs, daemon, LookedUp(fs, [], path, 0)))
      && (crossing.Ok? ==>
        forall d :: d in crossing.value <==> exists n :: n in LookedUp(fs, [], path, 0) && Parent(n) == d)
  {
    var names := LookedUp(fs, [], path, 0);
    CrossFollowsTheKernel(fs, daemon, [], path, 0);
    FirstsKeepsEachOnceInOrder(Parents(names));
    ParentsAreExactly(names);
  }

  lemma {:induction false} ParentsAreExactly(names: seq<Path>)
    ensures forall d :: d in Parents(names) <==> exists n :: n in names && Parent(n) == d
  {
    if names != [] {
      ParentsAreExactly(names[1..]);
      assert names == [names[0]] + names[1..];
      assert forall n :: n in names <==> n == names[0] || n in names[1..];
    }
  }

  // -- where it is cut for its links ------------------------------------------------------------------

  /** Every name the walk would ask for if it trusted every link: unlike the kernel, it steps back
      over a name without asking whether that is a directory. */
  function Asked(fs: FileSystem, current: Path, pending: Path, links: nat): seq<Path>
    decreases LinksLeft(links), |pending|
  {
    if links > MAX_LINKS || pending == [] then []
    else if pending[0] == UP then Asked(fs, Parent(current), pending[1..], links)
    else if !IsDirectory(fs, current) then []
    else
      var next := current + [pending[0]];
      [next] +
      if next !in fs then []
      else match fs[next].kind
        case Link(t) => Asked(fs, From(current, t), t.parts + pending[1..], links + 1)
        case _ => Asked(fs, next, pending[1..], links)
  }

  function LinksIn(fs: FileSystem, names: seq<Path>): nat {
    if names == [] then 0 else (if IsLink(fs, names[0]) then 1 else 0) + LinksIn(fs, names[1..])
  }

  /** As many links as are left and one more, all but the last trusted. */
  ghost predicate CutAtItsLast(fs: FileSystem, daemon: int, names: seq<Path>, left: nat) {
    LinksIn(fs, names) == left + 1 && LinksTrusted(fs, daemon, names[..|names| - 1])
  }

  lemma CutSplits(fs: FileSystem, daemon: int, first: Path, more: seq<Path>, left: nat)
    requires IsLink(fs, first) ==> left > 0
    ensures CutAtItsLast(fs, daemon, [first] + more, left) <==>
      (IsLink(fs, first) ==> Trusted(fs, daemon, first))
      && CutAtItsLast(fs, daemon, more, if IsLink(fs, first) then left - 1 else left)
  {
    var names := [first] + more;
    assert names[1..] == more;
    if more != [] {
      assert names[..|names| - 1] == [first] + more[..|more| - 1];
      TrustSplits(fs, daemon, first, more[..|more| - 1]);
    }
  }

  lemma {:induction false} CutExactly(fs: FileSystem, daemon: int, current: Path, pending: Path, followed: nat)
    requires followed <= MAX_LINKS
    ensures Cross(fs, daemon, current, pending, followed) == Err(TooManyLinks)
      <==> CutAtItsLast(fs, daemon, Asked(fs, current, pending, followed), MAX_LINKS - followed)
    decreases LinksLeft(followed), |pending|
  {
    if pending != [] {
      var rest := pending[1..];
      if pending[0] == UP {
        CutExactly(fs, daemon, Parent(current), rest, followed);
      } else if IsDirectory(fs, current) {
        var next := current + [pending[0]];
        if next !in fs {
          assert Asked(fs, current, pending, followed) == [next] && [next][1..] == [];
          assert LinksIn(fs, [next]) == 0;
        } else {
          match fs[next].kind {
            case Link(t) => CutAtALink(fs, daemon, current, pending, followed, next, t);
            case _ =>
              CutExactly(fs, daemon, next, rest, followed);
              CutSplits(fs, daemon, next, Asked(fs, next, rest, followed), MAX_LINKS - followed);
          }
        }
      }
    }
  }

  lemma {:induction false} CutAtALink(fs: FileSystem, daemon: int, current: Path, pending: Path, followed: nat,
                                      next: Path, t: Target)
    requires followed <= MAX_LINKS && pending != [] && pending[0] != UP && IsDirectory(fs, current)
    requires next == current + [pending[0]] && next in fs && fs[next].kind == Link(t)
    ensures Cross(fs, daemon, current, pending, followed) == Err(TooManyLinks)
      <==> CutAtItsLast(fs, daemon, Asked(fs, current, pending, followed), MAX_LINKS - followed)
    decreases LinksLeft(followed), |pending|, 0
  {
    var more := Asked(fs, From(current, t), t.parts + pending[1..], followed + 1);
    assert Asked(fs, current, pending, followed) == [next] + more;
    if followed == MAX_LINKS {
      assert [next] + more == [next] && [next][1..] == [] && [next][..0] == [];
      assert LinksIn(fs, [next]) == 1 && LinksTrusted(fs, daemon, [next][..0]);
    } else {
      CutExactly(fs, daemon, From(current, t), t.parts + pending[1..], followed + 1);
      CutSplits(fs, daemon, next, more, MAX_LINKS - followed);
    }
  }

  /** A list is given exactly when no name is missing, every link among the names is trusted and no
      more than `left` of them are; and the list is the directories those names were read in. */
  ghost predicate Answers(fs: FileSystem, daemon: int, crossing: Crossing, names: seq<Path>, nothingMissing: bool, left: int) {
    && (crossing.Ok? <==> nothingMissing && LinksTrusted(fs, daemon, names) && LinksIn(fs, names) <= left)
    && (crossing.Ok? ==> crossing.value == Parents(names))
  }

  lemma AnswersAfter(fs: FileSystem, daemon: int, next: Path, after: Crossing, more: seq<Path>, nothingMissing: bool, left: int)
    requires Answers(fs, daemon, after, more, nothingMissing, left) && (IsLink(fs, next) ==> Trusted(fs, daemon, next))
    ensures Answers(fs, daemon, Joined([Parent(next)], after), [next] + more, nothingMissing,
                    left + if IsLink(fs, next) then 1 else 0)
  {
    AskedSplits(fs, daemon, next, more);
  }

  lemma {:induction false} CrossesExactly(fs: FileSystem, daemon: int, current: Path, pending: Path, followed: nat)
    requires followed <= MAX_LINKS
    ensures Answers(fs, daemon, Cross(fs, daemon, current, pending, followed), Asked(fs, current, pending, followed),
                    NoneMissing(fs, current, pending, followed), MAX_LINKS - followed)
    decreases LinksLeft(followed), |pending|
  {
    if pending != [] {
      var rest := pending[1..];
      if pending[0] == UP {
        CrossesExactly(fs, daemon, Parent(current), rest, followed);
      } else if IsDirectory(fs, current) && current + [pending[0]] in fs {
        var next := current + [pending[0]];
        assert Parent(next) == current;
        match fs[next].kind {
          case Link(t) => CrossesALink(fs, daemon, current, pending, followed, next, t);
          case _ =>
            CrossesExactly(fs, daemon, next, rest, followed);
            AnswersAfter(fs, daemon, next, Cross(fs, daemon, next, rest, followed), Asked(fs, next, rest, followed),
                         NoneMissing(fs, next, rest, followed), MAX_LINKS - followed);
        }
      }
    }
  }

  lemma {:induction false} CrossesALink(fs: FileSystem, daemon: int, current: Path, pending: Path, followed: nat,
                                        next: Path, t: Target)
    requires followed <= MAX_LINKS && pending != [] && pending[0] != UP && IsDirectory(fs, current)
    requires next == current + [pending[0]] && Parent(next) == current && next in fs && fs[next].kind == Link(t)
    ensures Answers(fs, daemon, Cross(fs, daemon, current, pending, followed), Asked(fs, current, pending, followed),
                    NoneMissing(fs, current, pending, followed), MAX_LINKS - followed)
    decreases LinksLeft(followed), |pending|, 0
  {
    var start, parts, links := From(current, t), t.parts + pending[1..], followed + 1;
    var more := Asked(fs, start, parts, links);
    assert Asked(fs, current, pending, followed) == [next] + more;
    if followed == MAX_LINKS || !Trusted(fs, daemon, next) {
      AskedSplits(fs, daemon, next, more);
    } else {
      var after, nothingMissing := Cross(fs, daemon, start, parts, links), NoneMissing(fs, start, parts, links);
      CrossesExactly(fs, daemon, start, parts, links);
      AnswersAfter(fs, daemon, next, after, more, nothingMissing, MAX_LINKS - links);
      assert Cross(fs, daemon, current, pending, followed) == Joined([current], after);
    }
  }

  lemma AskedSplits(fs: FileSystem, daemon: int, first: Path, more: seq<Path>)
    ensures LinksTrusted(fs, daemon, [first] + more) <==>
      (IsLink(fs, first) ==> Trusted(fs, daemon, first)) && LinksTrusted(fs, daemon, more)
    ensures Parents([first] + more) == [Parent(first)] + Parents(more)
    ensures LinksIn(fs, [first] + more) == (if IsLink(fs, first) then 1 else 0) + LinksIn(fs, more)
  {
    TrustSplits(fs, daemon, first, more);
    assert ([first] + more)[1..] == more;
  }

  /** The first link among these names a stranger owns, with no more than `left` up to it. */
  ghost predicate FirstStranger(fs: FileSystem, daemon: int, names: seq<Path>, left: nat, i: int) {
    && 0 <= i < |names| && IsLink(fs, names[i]) && !Trusted(fs, daemon, names[i])
    && LinksTrusted(fs, daemon, names[..i]) && LinksIn(fs, names[..i]) < left
  }

  lemma StrangerMoves(fs: FileSystem, daemon: int, first: Path, more: seq<Path>, left: nat, i: nat)
    requires IsLink(fs, first) ==> left > 0 && Trusted(fs, daemon, first)
    ensures FirstStranger(fs, daemon, [first] + more, left, i + 1)
      <==> FirstStranger(fs, daemon, more, if IsLink(fs, first) then left - 1 else left, i)
  {
    if i < |more| {
      assert ([first] + more)[..i + 1] == [first] + more[..i];
      AskedSplits(fs, daemon, first, more[..i]);
    }
  }

  /** Among these names, that link is `n`. */
  ghost predicate MeetsStranger(fs: FileSystem, daemon: int, names: seq<Path>, left: nat, n: Path) {
    exists i :: FirstStranger(fs, daemon, names, left, i) && names[i] == n
  }

  lemma NotAtTheFirst(fs: FileSystem, daemon: int, first: Path, more: seq<Path>, left: nat, n: Path)
    requires IsLink(fs, first) ==> left > 0 && Trusted(fs, daemon, first)
    ensures MeetsStranger(fs, daemon, [first] + more, left, n)
      <==> MeetsStranger(fs, daemon, more, if IsLink(fs, first) then left - 1 else left, n)
  {
    var names := [first] + more;
    var fewer := if IsLink(fs, first) then left - 1 else left;
    if MeetsStranger(fs, daemon, names, left, n) {
      var i :| FirstStranger(fs, daemon, names, left, i) && names[i] == n;
      assert names[0] == first && i > 0;
      StrangerMoves(fs, daemon, first, more, left, i - 1);
      assert FirstStranger(fs, daemon, more, fewer, i - 1) && more[i - 1] == n;
    }
    if MeetsStranger(fs, daemon, more, fewer, n) {
      var i :| FirstStranger(fs, daemon, more, fewer, i) && more[i] == n;
      StrangerMoves(fs, daemon, first, more, left, i);
      assert FirstStranger(fs, daemon, names, left, i + 1) && names[i + 1] == n;
    }
  }

  /** It is refused for a stranger's link exactly at the first of them among the names it asks for,
      not past the bound. */
  lemma {:induction false} StrangersLinkIsRefusedExactly(fs: FileSystem, daemon: int, current: Path, pending: Path,
                                                         followed: nat, n: Path)
    requires followed <= MAX_LINKS
    ensures var names := Asked(fs, current, pending, followed);
      Cross(fs, daemon, current, pending, followed) == Err(UntrustedLink(n))
      <==> MeetsStranger(fs, daemon, names, MAX_LINKS - followed, n)
    decreases LinksLeft(followed), |pending|
  {
    if pending != [] {
      var rest := pending[1..];
      if pending[0] == UP {
        StrangersLinkIsRefusedExactly(fs, daemon, Parent(current), rest, followed, n);
      } else if IsDirectory(fs, current) && current + [pending[0]] in fs {
        var next := current + [pending[0]];
        match fs[next].kind {
          case Link(t) => StrangerAtALink(fs, daemon, current, pending, followed, next, t, n);
          case _ =>
            StrangersLinkIsRefusedExactly(fs, daemon, next, rest, followed, n);
            NotAtTheFirst(fs, daemon, next, Asked(fs, next, rest, followed), MAX_LINKS - followed, n);
        }
      }
    }
  }

  lemma {:induction false} StrangerAtALink(fs: FileSystem, daemon: int, current: Path, pending: Path, followed: nat,
                                           next: Path, t: Target, n: Path)
    requires followed <= MAX_LINKS && pending != [] && pending[0] != UP && IsDirectory(fs, current)
    requires next == current + [pending[0]] && next in fs && fs[next].kind == Link(t)
    ensures var names := Asked(fs, current, pending, followed);
      Cross(fs, daemon, current, pending, followed) == Err(UntrustedLink(n))
      <==> MeetsStranger(fs, daemon, names, MAX_LINKS - followed, n)
    decreases LinksLeft(followed), |pending|, 0
  {
    var more := Asked(fs, From(current, t), t.parts + pending[1..], followed + 1);
    var names := Asked(fs, current, pending, followed);
    assert names == [next] + more && names[0] == next;
    if followed == MAX_LINKS {
      assert more == [];
    } else if !Trusted(fs, daemon, next) {
      assert names[..0] == [] && FirstStranger(fs, daemon, names, MAX_LINKS - followed, 0);
      if MeetsStranger(fs, daemon, names, MAX_LINKS - followed, n) {
        var i :| FirstStranger(fs, daemon, names, MAX_LINKS - followed, i) && names[i] == n;
      }
    } else {
      StrangersLinkIsRefusedExactly(fs, daemon, From(current, t), t.parts + pending[1..], followed + 1, n);
      NotAtTheFirst(fs, daemon, next, more, MAX_LINKS - followed, n);
    }
  }

  /** The whole answer, by the names asked for: the directories they were read in, or the refusal. */
  lemma AnswerIsExact(fs: FileSystem, daemon: int, path: Path, n: Path)
    ensures var crossing, names := Cross(fs, daemon, [], path, 0), Asked(fs, [], path, 0);
      && (crossing.Ok? <==>
        NoneMissing(fs, [], path, 0) && LinksTrusted(fs, daemon, names) && LinksIn(fs, names) <= MAX_LINKS)
      && (crossing.Ok? ==> crossing.value == Parents(names))
      && (crossing == Err(UntrustedLink(n)) <==> MeetsStranger(fs, daemon, names, MAX_LINKS, n))
      && (crossing == Err(Missing(n)) ==> n !in fs || !IsDirectory(fs, Parent(n)))
  {
    CrossesExactly(fs, daemon, [], path, 0);
    StrangersLinkIsRefusedExactly(fs, daemon, [], path, 0, n);
    if Cross(fs, daemon, [], path, 0) == Err(Missing(n)) { MissingIsNotThere(fs, daemon, [], path, 0, n); }
  }

  lemma {:induction false} MissingIsNotThere(fs: FileSystem, daemon: int, current: Path, pending: Path, followed: nat, n: Path)
    requires Cross(fs, daemon, current, pending, followed) == Err(Missing(n))
    ensures n !in fs || !IsDirectory(fs, Parent(n))
    decreases LinksLeft(followed), |pending|
  {
    var rest := pending[1..];
    if pending[0] == UP {
      MissingIsNotThere(fs, daemon, Parent(current), rest, followed, n);
    } else {
      var next := current + [pending[0]];
      assert Parent(next) == current;
      if IsDirectory(fs, current) && next in fs {
        match fs[next].kind {
          case Link(t) => MissingIsNotThere(fs, daemon, From(current, t), t.parts + rest, followed + 1, n);
          case _ => MissingIsNotThere(fs, daemon, next, rest, followed, n);
        }
      }
    }
  }

  /** No `..` is met where the walk stands at something that is no directory. */
  predicate StepsBackFromDirectories(fs: FileSystem, current: Path, pending: Path, links: nat)
    decreases LinksLeft(links), |pending|
  {
    links > MAX_LINKS || pending == [] ||
    if pending[0] == UP then
      IsDirectory(fs, current) && StepsBackFromDirectories(fs, Parent(current), pending[1..], links)
    else
      var next := current + [pending[0]];
      IsDirectory(fs, current) && next in fs ==>
      match fs[next].kind
      case Link(t) => StepsBackFromDirectories(fs, From(current, t), t.parts + pending[1..], links + 1)
      case _ => StepsBackFromDirectories(fs, next, pending[1..], links)
  }

  lemma {:induction false} AskedIsLookedUp(fs: FileSystem, current: Path, pending: Path, links: nat)
    requires StepsBackFromDirectories(fs, current, pending, links)
    ensures Asked(fs, current, pending, links) == LookedUp(fs, current, pending, links)
    decreases LinksLeft(links), |pending|
  {
    if links <= MAX_LINKS && pending != [] {
      if pending[0] == UP {
        AskedIsLookedUp(fs, Parent(current), pending[1..], links);
      } else if IsDirectory(fs, current) && current + [pending[0]] in fs {
        match fs[current + [pending[0]]].kind {
          case Link(t) => AskedIsLookedUp(fs, From(current, t), t.parts + pending[1..], links + 1);
          case _ => AskedIsLookedUp(fs, current + [pending[0]], pending[1..], links);
        }
      }
    }
  }

  /** Every name asked for is there, in a directory. */
  predicate NoneMissing(fs: FileSystem, current: Path, pending: Path, links: nat)
    decreases LinksLeft(links), |pending|
  {
    links > MAX_LINKS || pending == [] ||
    if pending[0] == UP then NoneMissing(fs, Parent(current), pending[1..], links)
    else
      var next := current + [pending[0]];
      IsDirectory(fs, current) && next in fs &&
      match fs[next].kind
      case Link(t) => NoneMissing(fs, From(current, t), t.parts + pending[1..], links + 1)
      case _ => NoneMissing(fs, next, pending[1..], links)
  }

  /** The chains exceed their bound at that same link, trusted or not, when no name is missing. */
  lemma {:induction false} ChainsAreCutThere(fs: FileSystem, current: Path, pending: Path, links: nat)
    requires links <= MAX_LINKS && LinkFree(fs, current)
    ensures LinksIn(fs, Asked(fs, current, pending, links)) == MAX_LINKS - links + 1
      <==> NoneMissing(fs, current, pending, links) && Scan(fs, current, pending, links) == None
    decreases LinksLeft(links), |pending|
  {
    if pending != [] {
      var names, rest := Asked(fs, current, pending, links), pending[1..];
      if pending[0] == UP {
        LinkFreeParent(fs, current);
        ChainsAreCutThere(fs, Parent(current), rest, links);
      } else if IsDirectory(fs, current) {
        var next := current + [pending[0]];
        assert names[0] == next;
        if next !in fs {
          assert names[1..] == [];
        } else if IsLink(fs, next) {
          var t := fs[next].kind.target;
          assert names[1..] == Asked(fs, From(current, t), t.parts + rest, links + 1);
          if links < MAX_LINKS {
            LinkContinues(fs, current, t, rest, links + 1);
            ChainsAreCutThere(fs, From(current, t), t.parts + rest, links + 1);
          }
        } else {
          assert names[1..] == Asked(fs, next, rest, links);
          LinkFreeStep(fs, current, pending[0]);
          ChainsAreCutThere(fs, next, rest, links);
        }
      }
    }
  }

  /** The walk is refused for its links if and only if one more than the bound are among the names
      it asks for and every one before the last is trusted; these are the names the kernel looks
      up, unless a `..` steps back over something that is no directory. The naming chains exceed
      their bound at that same link, whoever owns those before it, when no name is missing. */
  lemma BothBoundsCutAtTheSameLink(fs: FileSystem, daemon: int, path: Path)
    ensures Cross(fs, daemon, [], path, 0) == Err(TooManyLinks)
      <==> CutAtItsLast(fs, daemon, Asked(fs, [], path, 0), MAX_LINKS)
    ensures StepsBackFromDirectories(fs, [], path, 0) ==>
      (Cross(fs, daemon, [], path, 0) == Err(TooManyLinks) <==> CutAtItsLast(fs, daemon, LookedUp(fs, [], path, 0), MAX_LINKS))
    ensures LinksIn(fs, Asked(fs, [], path, 0)) == MAX_LINKS + 1
      <==> NoneMissing(fs, [], path, 0) && Heads(fs, path, 0) == None
  {
    CutExactly(fs, daemon, [], path, 0);
    if StepsBackFromDirectories(fs, [], path, 0) { AskedIsLookedUp(fs, [], path, 0); }
    ChainsAreCutThere(fs, [], path, 0);
  }

  /** A file, and a link that leads to itself. */
  function Looped(link: Node, file: Node): FileSystem {
    map[["loop"] := link.(kind := Link(Target(true, ["loop"]))), ["file"] := file.(kind := File)]
  }

  lemma {:induction false} LoopIsCut(fs: FileSystem, daemon: int, links: nat)
    requires links <= MAX_LINKS && IsLink(fs, ["loop"]) && fs[["loop"]].kind.target == Target(true, ["loop"])
    requires Trusted(fs, daemon, ["loop"])
    ensures Cross(fs, daemon, [], ["loop"], links) == Err(TooManyLinks)
    decreases MAX_LINKS - links
  {
    assert [] + ["loop"] == ["loop"] && ["loop"] + ["loop"][1..] == ["loop"];
    if links < MAX_LINKS {
      LoopIsCut(fs, daemon, links + 1);
    }
  }

  /** There the two part: after `file/..` the kernel looks nothing up, and the walk goes on to be
      refused for its links. */
  lemma SteppingBackOverAFile(link: Node, file: Node, daemon: int)
    requires link.uid == 0
    ensures var fs, path := Looped(link, file), ["file", UP, "loop"];
      LookedUp(fs, [], path, 0) == [["file"]] && Cross(fs, daemon, [], path, 0) == Err(TooManyLinks)
  {
    var fs, path := Looped(link, file), ["file", UP, "loop"];
    assert path[1..] == [UP, "loop"] && [UP, "loop"][1..] == ["loop"] && [] + ["file"] == ["file"];
    assert ["file"] in fs && Parent(["file"]) == [];
    LoopIsCut(fs, daemon, 0);
    assert Cross(fs, daemon, ["file"], [UP, "loop"], 0) == Err(TooManyLinks);
    assert LookedUp(fs, ["file"], [UP, "loop"], 0) == [];
  }
}
