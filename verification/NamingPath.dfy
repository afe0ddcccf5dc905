/** The recursive walk over a path: at each link it starts again from the root, and each
    segment leaves a chain of the names it went through. */
module NamingPath {
  import opened Outcomes
  import opened FileSystem

  /** A chain: its head, and then each parent up to the root. */
  function ChainOf(head: Path): seq<Path> {
    if head == [] then [[]] else [head] + ChainOf(Parent(head))
  }

  /** `p` lies on the chain headed by `head`. */
  predicate Under(p: Path, head: Path) { p <= head }

  /** A chain goes from its head to the root by one name at a time: each is followed by the one it
      is in. So it holds every prefix of the head, and nothing else. */
  lemma {:induction false} ChainIsItsPrefixes(head: Path)
    ensures |ChainOf(head)| == |head| + 1
    ensures forall i :: 0 <= i <= |head| ==> ChainOf(head)[i] == head[..|head| - i]
    ensures forall p :: p in ChainOf(head) <==> Under(p, head)
  {
    if head != [] {
      ChainIsItsPrefixes(Parent(head));
      forall i | 0 <= i <= |head| ensures ChainOf(head)[i] == head[..|head| - i] {
        if i > 0 { assert Parent(head)[..|head| - 1 - (i - 1)] == head[..|head| - i]; }
      }
    }
    forall p ensures p in ChainOf(head) <==> Under(p, head) {
      if Under(p, head) {
        assert p == head[..|p|] && ChainOf(head)[|head| - |p|] == p;
      }
    }
  }

  /** The heads of the chains, in order, or nothing past the link bound. */
  function Heads(fs: FileSystem, absolute: Path, links: nat): Option<seq<Path>>
    decreases LinksLeft(links), |absolute| + 1
  {
    if links > MAX_LINKS then None else Scan(fs, [], absolute, links)
  }

  function Before(head: Path, rest: Option<seq<Path>>): Option<seq<Path>> {
    if rest == None then None else Some([head] + rest.value)
  }

  /** One segment: a chain for each name `..` steps back over, one for the link that ends
      the segment and restarts the walk from the root, or one for the name arrived at. */
  function Scan(fs: FileSystem, current: Path, parts: Path, links: nat): Option<seq<Path>>
    requires links <= MAX_LINKS
    decreases LinksLeft(links), |parts|
  {
    if parts == [] then Some([current])
    else if parts[0] == UP then Before(current, Scan(fs, Parent(current), parts[1..], links))
    else
      var next := current + [parts[0]];
      if IsLink(fs, next) then
        Before(next, Heads(fs, From(current, fs[next].kind.target) + fs[next].kind.target.parts + parts[1..], links + 1))
      else Scan(fs, next, parts[1..], links)
  }

  function ChainsOf(heads: seq<Path>): seq<seq<Path>> {
    if heads == [] then [] else [ChainOf(heads[0])] + ChainsOf(heads[1..])
  }

  lemma {:induction false} ChainsOfConcat(a: seq<Path>, b: seq<Path>)
    ensures ChainsOf(a + b) == ChainsOf(a) + ChainsOf(b)
  {
    if a == [] {
      assert a + b == b;
    } else {
      ChainsOfConcat(a[1..], b);
      assert (a + b)[1..] == a[1..] + b;
    }
  }

  /** The heads met so far, before what is left of the scan. */
  function Onto(heads: seq<Path>, rest: Option<seq<Path>>): Option<seq<Path>> {
    if rest == None then None else Some(heads + rest.value)
  }

  lemma OntoBefore(heads: seq<Path>, head: Path, rest: Option<seq<Path>>)
    ensures Onto(heads, Before(head, rest)) == Onto(heads + [head], rest)
  {
    if rest.Some? {
      assert heads + ([head] + rest.value) == (heads + [head]) + rest.value;
    }
  }

  lemma OntoNothing(rest: Option<seq<Path>>)
    ensures Onto([], rest) == rest
  {
    if rest.Some? {
      assert [] + rest.value == rest.value;
    }
  }

  lemma ChainsOnto(chains: seq<seq<Path>>, heads: seq<Path>, more: seq<Path>)
    ensures (chains + ChainsOf(heads)) + ChainsOf(more) == chains + ChainsOf(heads + more)
  {
    ChainsOfConcat(heads, more);
  }

  /** The walk itself: one shared list of chains, a loop over the parts, and a restart at
      each link. `ok` is false when the links are too many. */
  method Extend(fs: FileSystem, absolute: Path, chains: seq<seq<Path>>, links: nat)
    returns (extended: seq<seq<Path>>, ok: bool)
    ensures ok == Heads(fs, absolute, links).Some?
    ensures ok ==> extended == chains + ChainsOf(Heads(fs, absolute, links).value)
    decreases LinksLeft(links)
  {
    extended := chains;
    if links > MAX_LINKS { return extended, false; }
    var current: Path := [];
    ghost var heads: seq<Path> := [];
    var index := 0;
    assert absolute[0..] == absolute;
    OntoNothing(Heads(fs, absolute, links));
    while index < |absolute|
      invariant 0 <= index <= |absolute|
      invariant extended == chains + ChainsOf(heads)
      invariant Heads(fs, absolute, links) == Onto(heads, Scan(fs, current, absolute[index..], links))
    {
      var part := absolute[index];
      var after := absolute[index + 1..];
      assert absolute[index..] == [part] + after;
      index := index + 1;
      if part == UP {
        extended := Listed(chains, heads, current, extended);
        OntoBefore(heads, current, Scan(fs, Parent(current), after, links));
        heads := heads + [current];
        current := Parent(current);
        continue;
      }
      ghost var held := current;
      current := current + [part];
      assert Parent(current) == held;
      if IsLink(fs, current) {
        extended := Listed(chains, heads, current, extended);
        var target := fs[current].kind.target;
        var base := if target.absolute then target.parts else Parent(current) + target.parts;
        assert base == From(held, target) + target.parts;
        ghost var whole := Heads(fs, base + after, links + 1);
        OntoBefore(heads, current, whole);
        if whole.Some? { ChainsOnto(chains, heads + [current], whole.value); }
        extended, ok := Extend(fs, base + after, extended, links + 1);
        return;
      }
    }
    extended := Listed(chains, heads, current, extended);
    ok := true;
  }

  /** One more chain on the shared list. */
  method Listed(chains: seq<seq<Path>>, ghost heads: seq<Path>, current: Path, extended: seq<seq<Path>>)
    returns (longer: seq<seq<Path>>)
    requires extended == chains + ChainsOf(heads)
    ensures longer == chains + ChainsOf(heads + [current])
  {
    ChainsOnto(chains, heads, [current]);
    assert ChainsOf([current]) == [ChainOf(current)];
    longer := extended + [ChainOf(current)];
  }

  /** All the chains of an absolute name; nothing when its links exceed the bound. */
  method NamingChains(fs: FileSystem, absolute: Path) returns (chains: Option<seq<seq<Path>>>)
    ensures chains == match Heads(fs, absolute, 0) case None => None case Some(heads) => Some(ChainsOf(heads))
  {
    var extended, ok := Extend(fs, absolute, [], 0);
    if ok {
      assert [] + ChainsOf(Heads(fs, absolute, 0).value) == ChainsOf(Heads(fs, absolute, 0).value);
    }
    chains := if ok then Some(extended) else None;
  }

  // -- the restart arrives where it left --------------------------------------------------------

  /** Walking a link-free directory again from the root adds no chain and counts no link. */
  lemma {:induction false} RewalkIsSilent(fs: FileSystem, done: Path, again: Path, rest: Path, links: nat)
    requires links <= MAX_LINKS && LinkFree(fs, done + again)
    ensures Scan(fs, done, again + rest, links) == Scan(fs, done + again, rest, links)
    decreases |again|
  {
    if again == [] {
      assert again + rest == rest && done + again == done;
    } else {
      var next := done + [again[0]];
      assert again[0] in done + again;
      assert next == (done + again)[..|done| + 1];
      assert next + again[1..] == done + again;
      assert (again + rest)[1..] == again[1..] + rest;
      RewalkIsSilent(fs, next, again[1..], rest, links);
    }
  }

  /** So a link continues the walk as the kernel does: from its own directory, or the root. */
  lemma LinkContinues(fs: FileSystem, current: Path, t: Target, rest: Path, links: nat)
    requires LinkFree(fs, current) && links <= MAX_LINKS
    ensures Scan(fs, [], From(current, t) + t.parts + rest, links) == Scan(fs, From(current, t), t.parts + rest, links)
  {
    assert From(current, t) + t.parts + rest == From(current, t) + (t.parts + rest);
    assert [] + From(current, t) == From(current, t);
    RewalkIsSilent(fs, [], From(current, t), t.parts + rest, links);
  }

  // -- the last chain is headed by the file reached -------------------------------------------------

  lemma {:induction false} ScanEndsWhereTheKernelDoes(fs: FileSystem, current: Path, parts: Path, links: nat)
    requires links <= MAX_LINKS && LinkFree(fs, current)
    requires Reached(fs, current, parts, links).Some?
    ensures var heads := Scan(fs, current, parts, links);
      heads.Some? && heads.value != [] && heads.value[|heads.value| - 1] == Reached(fs, current, parts, links).value
    ensures LinkFree(fs, Reached(fs, current, parts, links).value)
    decreases LinksLeft(links), |parts|
  {
    if parts == [] {
    } else if parts[0] == UP {
      LinkFreeParent(fs, current);
      ScanEndsWhereTheKernelDoes(fs, Parent(current), parts[1..], links);
    } else {
      var next := current + [parts[0]];
      match fs[next].kind {
        case Link(t) =>
          LinkContinues(fs, current, t, parts[1..], links + 1);
          ScanEndsWhereTheKernelDoes(fs, From(current, t), t.parts + parts[1..], links + 1);
        case _ =>
          LinkFreeStep(fs, current, parts[0]);
          ScanEndsWhereTheKernelDoes(fs, next, parts[1..], links);
      }
    }
  }

  /** When the kernel reaches a file, the walk succeeds and its last chain starts at it. */
  lemma LastChainIsTheFileReached(fs: FileSystem, path: Path)
    requires Reached(fs, [], path, 0).Some?
    ensures var heads := Heads(fs, path, 0);
      heads.Some? && heads.value != [] && heads.value[|heads.value| - 1] == Reached(fs, [], path, 0).value
  {
    ScanEndsWhereTheKernelDoes(fs, [], path, 0);
  }

  // -- the heads are names looked up ----------------------------------------------------------------

  /** No chain starts elsewhere: each head is a name the kernel looks up on the way, or where it
      starts from; and each link it follows is one. */
  lemma {:induction false} HeadsAreLookedUp(fs: FileSystem, current: Path, parts: Path, links: nat, h: Path)
    requires links <= MAX_LINKS && LinkFree(fs, current)
    requires Reached(fs, current, parts, links).Some? && Scan(fs, current, parts, links).Some?
    ensures h in Scan(fs, current, parts, links).value ==> Under(h, current) || h in LookedUp(fs, current, parts, links)
    ensures h in LookedUp(fs, current, parts, links) && IsLink(fs, h) ==> h in Scan(fs, current, parts, links).value
    decreases LinksLeft(links), |parts|
  {
    var heads := Scan(fs, current, parts, links).value;
    if parts == [] {
    } else if parts[0] == UP {
      LinkFreeParent(fs, current);
      HeadsAreLookedUp(fs, Parent(current), parts[1..], links, h);
      assert heads == [current] + Scan(fs, Parent(current), parts[1..], links).value;
    } else {
      var next := current + [parts[0]];
      match fs[next].kind {
        case Link(t) =>
          LinkContinues(fs, current, t, parts[1..], links + 1);
          HeadsAreLookedUp(fs, From(current, t), t.parts + parts[1..], links + 1, h);
          assert heads == [next] + Scan(fs, From(current, t), t.parts + parts[1..], links + 1).value;
        case _ =>
          LinkFreeStep(fs, current, parts[0]);
          HeadsAreLookedUp(fs, next, parts[1..], links, h);
          assert Under(h, next) ==> h == next || Under(h, current);
      }
    }
  }

  /** Said of a whole path that leads to a file. */
  lemma EveryHeadIsLookedUp(fs: FileSystem, path: Path, h: Path)
    requires Reached(fs, [], path, 0).Some?
    ensures Heads(fs, path, 0).Some?
    ensures h in Heads(fs, path, 0).value ==> h == [] || h in LookedUp(fs, [], path, 0)
    ensures h in LookedUp(fs, [], path, 0) && IsLink(fs, h) ==> h in Heads(fs, path, 0).value
  {
    LastChainIsTheFileReached(fs, path);
    HeadsAreLookedUp(fs, [], path, 0, h);
  }

  // -- every name looked up lies on some chain ------------------------------------------------------

  ghost predicate OnSomeChain(p: Path, heads: seq<Path>) {
    exists h :: h in heads && Under(p, h)
  }

  lemma OnRest(p: Path, heads: seq<Path>)
    requires heads != [] && OnSomeChain(p, heads[1..])
    ensures OnSomeChain(p, heads)
  {
    var h :| h in heads[1..] && Under(p, h);
    assert h in heads;
  }

  lemma OnFirst(p: Path, heads: seq<Path>)
    requires heads != [] && Under(p, heads[0])
    ensures OnSomeChain(p, heads)
  {
    assert heads[0] in heads;
  }

  /** The first chain of a scan starts at or below where the scan stands. */
  lemma {:induction false} ScanStartsBelow(fs: FileSystem, current: Path, parts: Path, links: nat)
    requires links <= MAX_LINKS && Scan(fs, current, parts, links).Some?
    ensures Scan(fs, current, parts, links).value != []
    ensures Under(current, Scan(fs, current, parts, links).value[0])
    decreases LinksLeft(links), |parts|
  {
    if parts != [] && parts[0] != UP && !IsLink(fs, current + [parts[0]]) {
      ScanStartsBelow(fs, current + [parts[0]], parts[1..], links);
    }
  }

  lemma {:induction false} NamesLieOnChains(fs: FileSystem, current: Path, parts: Path, links: nat, n: Path)
    requires links <= MAX_LINKS && LinkFree(fs, current) && Scan(fs, current, parts, links).Some?
    requires n in LookedUp(fs, current, parts, links)
    ensures OnSomeChain(n, Scan(fs, current, parts, links).value)
    decreases LinksLeft(links), |parts|
  {
    var heads := Scan(fs, current, parts, links).value;
    if parts[0] == UP {
      LinkFreeParent(fs, current);
      NamesLieOnChains(fs, Parent(current), parts[1..], links, n);
      assert heads[1..] == Scan(fs, Parent(current), parts[1..], links).value;
      OnRest(n, heads);
    } else {
      var next := current + [parts[0]];
      if IsLink(fs, next) {
        var t := fs[next].kind.target;
        assert heads[0] == next;
        if n != next {
          LinkContinues(fs, current, t, parts[1..], links + 1);
          NamesLieOnChains(fs, From(current, t), t.parts + parts[1..], links + 1, n);
          assert heads[1..] == Scan(fs, From(current, t), t.parts + parts[1..], links + 1).value;
          OnRest(n, heads);
        } else {
          OnFirst(n, heads);
        }
      } else if n == next {
        ScanStartsBelow(fs, next, parts[1..], links);
        OnFirst(n, heads);
      } else {
        LinkFreeStep(fs, current, parts[0]);
        NamesLieOnChains(fs, next, parts[1..], links, n);
      }
    }
  }

  /** No name the kernel asks for on the way escapes the chains: not a link, and not a
      component a later `..` steps back over. */
  lemma EveryNameLookedUpIsOnAChain(fs: FileSystem, path: Path, n: Path)
    requires Heads(fs, path, 0).Some? && n in LookedUp(fs, [], path, 0)
    ensures OnSomeChain(n, Heads(fs, path, 0).value)
  {
    NamesLieOnChains(fs, [], path, 0, n);
  }

  // -- the frame ---------------------------------------------------------------------------------------

  /** Two file systems hold the same thing, or both nothing, at every name on the chains. */
  ghost predicate AgreeOn(fs: FileSystem, other: FileSystem, heads: seq<Path>) {
    forall p :: OnSomeChain(p, heads) ==> (p in fs <==> p in other) && (p in fs ==> fs[p] == other[p])
  }

  lemma {:induction false} ScanReadsItsChainsOnly(fs: FileSystem, other: FileSystem, current: Path, parts: Path, links: nat)
    requires links <= MAX_LINKS && Scan(fs, current, parts, links).Some?
    requires AgreeOn(fs, other, Scan(fs, current, parts, links).value)
    ensures Scan(other, current, parts, links) == Scan(fs, current, parts, links)
    decreases LinksLeft(links), |parts|
  {
    var heads := Scan(fs, current, parts, links).value;
    if parts != [] {
      if parts[0] == UP {
        assert heads[1..] == Scan(fs, Parent(current), parts[1..], links).value;
        AgreeOnRest(fs, other, heads);
        ScanReadsItsChainsOnly(fs, other, Parent(current), parts[1..], links);
      } else {
        var next := current + [parts[0]];
        if IsLink(fs, next) {
          var t := fs[next].kind.target;
          OnFirst(next, heads);
          assert heads[1..] == Scan(fs, [], From(current, t) + t.parts + parts[1..], links + 1).value;
          AgreeOnRest(fs, other, heads);
          ScanReadsItsChainsOnly(fs, other, [], From(current, t) + t.parts + parts[1..], links + 1);
        } else {
          ScanStartsBelow(fs, next, parts[1..], links);
          OnFirst(next, heads);
          ScanReadsItsChainsOnly(fs, other, next, parts[1..], links);
        }
      }
    }
  }

  lemma AgreeOnRest(fs: FileSystem, other: FileSystem, heads: seq<Path>)
    requires heads != [] && AgreeOn(fs, other, heads)
    ensures AgreeOn(fs, other, heads[1..])
  {
    forall p | OnSomeChain(p, heads[1..]) ensures OnSomeChain(p, heads) {
      OnRest(p, heads);
    }
  }

  lemma {:induction false} LookupReadsChainsOnly(fs: FileSystem, other: FileSystem, current: Path, parts: Path, links: nat)
    requires links <= MAX_LINKS && LinkFree(fs, current) && Scan(fs, current, parts, links).Some?
    requires AgreeOn(fs, other, Scan(fs, current, parts, links).value)
    ensures Reached(other, current, parts, links) == Reached(fs, current, parts, links)
    decreases LinksLeft(links), |parts|
  {
    var heads := Scan(fs, current, parts, links).value;
    ScanStartsBelow(fs, current, parts, links);
    OnFirst(current, heads);
    if parts != [] && IsDirectory(fs, current) {
      if parts[0] == UP {
        LinkFreeParent(fs, current);
        assert heads[1..] == Scan(fs, Parent(current), parts[1..], links).value;
        AgreeOnRest(fs, other, heads);
        LookupReadsChainsOnly(fs, other, Parent(current), parts[1..], links);
      } else {
        var next := current + [parts[0]];
        if IsLink(fs, next) {
          LookupReadsPastALink(fs, other, current, parts, links, next, fs[next].kind.target);
        } else {
          ScanStartsBelow(fs, next, parts[1..], links);
          OnFirst(next, heads);
          if next in fs {
            LinkFreeStep(fs, current, parts[0]);
            LookupReadsChainsOnly(fs, other, next, parts[1..], links);
          }
        }
      }
    }
  }

  lemma {:induction false} LookupReadsPastALink(fs: FileSystem, other: FileSystem, current: Path, parts: Path, links: nat,
                                                next: Path, t: Target)
    requires links <= MAX_LINKS && LinkFree(fs, current) && Scan(fs, current, parts, links).Some?
    requires AgreeOn(fs, other, Scan(fs, current, parts, links).value)
    requires parts != [] && parts[0] != UP && next == current + [parts[0]] && IsLink(fs, next) && fs[next].kind == Link(t)
    requires IsDirectory(fs, current) && IsDirectory(other, current)
    ensures Reached(other, current, parts, links) == Reached(fs, current, parts, links)
    decreases LinksLeft(links), |parts|, 0
  {
    var heads := Scan(fs, current, parts, links).value;
    OnFirst(next, heads);
    LinkContinues(fs, current, t, parts[1..], links + 1);
    assert heads[1..] == Scan(fs, From(current, t), t.parts + parts[1..], links + 1).value;
    AgreeOnRest(fs, other, heads);
    LookupReadsChainsOnly(fs, other, From(current, t), t.parts + parts[1..], links + 1);
  }

  /** The frame: a change that touches no name on these chains leaves the chains as they are,
      and leads to the same file. */
  lemma ChainsDecideTheFile(fs: FileSystem, other: FileSystem, path: Path)
    requires Heads(fs, path, 0).Some? && AgreeOn(fs, other, Heads(fs, path, 0).value)
    ensures Heads(other, path, 0) == Heads(fs, path, 0)
    ensures Reached(other, [], path, 0) == Reached(fs, [], path, 0)
  {
    ScanReadsItsChainsOnly(fs, other, [], path, 0);
    LookupReadsChainsOnly(fs, other, [], path, 0);
  }
}
