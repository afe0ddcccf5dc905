/** The two judgements said of names, and of what stands directly in each directory on the way: who
    can write, and when the judgements agree. */
module AccessByName {
  import opened Outcomes
  import opened FileSystem
  import opened NamingPath
  import opened EffectiveAccess

  /** What is known of the name `n` components down a chain's head, and of the entry directly in it on
      the way there: for the head itself the entry is what the caller says, or nothing. */
  predicate Readable(fs: FileSystem, p: Path) { p in fs && AclOf(fs[p]).Some? }

  ghost predicate ReadableDownTo(fs: FileSystem, head: Path, n: nat) {
    n <= |head| && forall m :: n <= m <= |head| ==> Readable(fs, head[..m])
  }

  function EntryOwner(fs: FileSystem, head: Path, n: nat, entry: Option<int>): Option<int>
    requires n <= |head|
    requires n < |head| ==> head[..n + 1] in fs
  {
    if n == |head| then entry else Some(fs[head[..n + 1]].uid)
  }

  // -- what one principal can do ------------------------------------------------------------------

  predicate NamedByAcl(node: Node, uid: int, gids: set<int>)
    requires AclOf(node).Some?
  {
    uid in AclWriters(AclOf(node).value, ACL_USER) || AclWriters(AclOf(node).value, ACL_GROUP) * gids != {}
  }

  /** The right to write one component, whoever gives it. */
  predicate MayWrite(node: Node, uid: int, gids: set<int>)
    requires AclOf(node).Some?
  {
    || uid == node.uid
    || NamedByAcl(node, uid, gids)
    || (node.gid in gids && node.groupWrite)
    || node.otherWrite
  }

  /** In a sticky directory only its owner and the entry's can replace an entry. */
  predicate MayReplace(node: Node, uid: int, entry: Option<int>) {
    entry.Some? && node.kind == Directory && node.sticky ==> uid == node.uid || uid == entry.value
  }

  /** All above it readable, a component that is no link, that this principal may write, and whose
      entry on the way it may replace. Root needs only that there is something to read. */
  ghost predicate WritesAt(fs: FileSystem, head: Path, n: nat, entry: Option<int>, uid: int, gids: set<int>) {
    ReadableDownTo(fs, head, n)
    && (uid == 0
        || (&& !IsLink(fs, head[..n])
            && MayWrite(fs[head[..n]], uid, gids)
            && MayReplace(fs[head[..n]], uid, EntryOwner(fs, head, n, entry))))
  }

  lemma GrantIsExact(node: Node, entry: Option<int>, uid: int, gids: set<int>)
    requires AclOf(node).Some?
    ensures GrantAt(node, AclOf(node).value, entry, uid, gids).Some?
      <==> !node.kind.Link? && MayWrite(node, uid, gids) && MayReplace(node, uid, entry)
    ensures var g := GrantAt(node, AclOf(node).value, entry, uid, gids);
      g.Some? ==>
        && (g.value == ByOwner <==> uid == node.uid)
        && (g.value == ByAcl <==> (uid != node.uid && NamedByAcl(node, uid, gids)))
        && (g.value == ByGroup <==> (uid != node.uid && !NamedByAcl(node, uid, gids) && node.gid in gids && node.groupWrite))
        && (g.value == ByOther ==> node.otherWrite)
        && g.value != ByRoot
  {
  }

  lemma ParentIsShorter(head: Path, n: nat)
    requires n < |head|
    ensures n <= |Parent(head)| && Parent(head)[..n] == head[..n]
    ensures n < |Parent(head)| ==> Parent(head)[..n + 1] == head[..n + 1]
    ensures n == |Parent(head)| ==> head[..n] == Parent(head) && head[..n + 1] == head
  {
  }

  /** Further up, a chain is its parent's, the head's owner being the entry's. */
  lemma WritesFurtherUp(fs: FileSystem, head: Path, n: nat, entry: Option<int>, uid: int, gids: set<int>)
    requires n < |head| && Readable(fs, head)
    ensures WritesAt(fs, head, n, entry, uid, gids) <==> WritesAt(fs, Parent(head), n, Some(fs[head].uid), uid, gids)
  {
    ReadableFurtherUp(fs, head, n);
    ParentIsShorter(head, n);
  }

  lemma ReadableFurtherUp(fs: FileSystem, head: Path, n: nat)
    requires n < |head| && Readable(fs, head)
    ensures ReadableDownTo(fs, head, n) <==> ReadableDownTo(fs, Parent(head), n)
  {
    assert head[..|head|] == head;
    forall m | n <= m <= |Parent(head)| ensures Parent(head)[..m] == head[..m] {
      ParentIsShorter(head, m);
    }
  }

  lemma {:induction false} AlongExactly(fs: FileSystem, head: Path, entry: Option<int>, uid: int, gids: set<int>)
    ensures AccessAlong(fs, ChainOf(head), entry, uid, gids).Writable? <==> exists n :: WritesAt(fs, head, n, entry, uid, gids)
  {
    assert head[..|head|] == head;
    if Readable(fs, head) {
      GrantIsExact(fs[head], entry, uid, gids);
      assert WritesAt(fs, head, |head|, entry, uid, gids)
        <==> uid == 0 || GrantAt(fs[head], AclOf(fs[head]).value, entry, uid, gids).Some?;
      if uid != 0 && GrantAt(fs[head], AclOf(fs[head]).value, entry, uid, gids) == None {
        if head == [] {
          assert ChainOf(head)[1..] == [];
        } else {
          assert ChainOf(head)[1..] == ChainOf(Parent(head));
          AlongExactly(fs, Parent(head), Some(fs[head].uid), uid, gids);
          AtTheHeadOrFurtherUp(fs, head, entry, uid, gids);
        }
      }
    } else {
      forall n ensures !WritesAt(fs, head, n, entry, uid, gids) {
      }
    }
  }

  lemma AtTheHeadOrFurtherUp(fs: FileSystem, head: Path, entry: Option<int>, uid: int, gids: set<int>)
    requires head != [] && Readable(fs, head)
    ensures (exists n :: WritesAt(fs, head, n, entry, uid, gids))
      <==> WritesAt(fs, head, |head|, entry, uid, gids)
           || exists n :: WritesAt(fs, Parent(head), n, Some(fs[head].uid), uid, gids)
  {
    forall n: nat | n < |head|
      ensures WritesAt(fs, head, n, entry, uid, gids) <==> WritesAt(fs, Parent(head), n, Some(fs[head].uid), uid, gids)
    {
      WritesFurtherUp(fs, head, n, entry, uid, gids);
    }
  }

  /** A chain is unknown exactly when it is not writable and something on it cannot be read. */
  lemma {:induction false} AlongUnknownExactly(fs: FileSystem, head: Path, entry: Option<int>, uid: int, gids: set<int>)
    ensures var v := AccessAlong(fs, ChainOf(head), entry, uid, gids);
      v.AccessUnknown? <==> !v.Writable? && exists n :: 0 <= n <= |head| && !Readable(fs, head[..n])
  {
    assert head[..|head|] == head;
    if Readable(fs, head) && head != [] {
      assert ChainOf(head)[1..] == ChainOf(Parent(head));
      AlongUnknownExactly(fs, Parent(head), Some(fs[head].uid), uid, gids);
      forall n | 0 <= n < |head| ensures Readable(fs, head[..n]) <==> Readable(fs, Parent(head)[..n]) {
        ParentIsShorter(head, n);
      }
      if n :| 0 <= n <= |Parent(head)| && !Readable(fs, Parent(head)[..n]) {
        assert n < |head| && !Readable(fs, head[..n]);
      }
    } else if Readable(fs, head) {
      assert ChainOf(head)[1..] == [];
    }
  }

  lemma {:induction false} ChainsAreOfHeads(heads: seq<Path>)
    ensures forall h :: h in heads ==> ChainOf(h) in ChainsOf(heads)
    ensures forall c :: c in ChainsOf(heads) ==> exists h :: h in heads && c == ChainOf(h)
  {
    if heads != [] {
      ChainsAreOfHeads(heads[1..]);
      assert heads == [heads[0]] + heads[1..];
      forall c | c in ChainsOf(heads) ensures exists h :: h in heads && c == ChainOf(h) {
        if c == ChainOf(heads[0]) {
          assert heads[0] in heads;
        } else {
          var h :| h in heads[1..] && c == ChainOf(h);
          assert h in heads;
        }
      }
    }
  }

  /** The names a judgement goes through, or none past the link bound. */
  function HeadsTo(fs: FileSystem, path: Path): seq<Path> {
    if Heads(fs, path, 0) == None then [] else Heads(fs, path, 0).value
  }

  /** A principal is answered able to write exactly when, on some name's way down from the root, a
      component that is no link, with everything between it and that name readable, may be written by
      it, and, if sticky, belongs to it or holds an entry of its own on that way. Root is whenever any
      of those names can be read. */
  lemma AccessExactly(fs: FileSystem, path: Path, uid: int, gids: set<int>)
    ensures AccessTo(fs, path, uid, gids).Writable?
      <==> exists h, n :: h in HeadsTo(fs, path) && WritesAt(fs, h, n, None, uid, gids)
    ensures AccessTo(fs, path, 0, gids).Writable? <==> exists h :: h in HeadsTo(fs, path) && Readable(fs, h)
  {
    var heads := HeadsTo(fs, path);
    WrittenSomewhere(fs, heads, uid, gids);
    WrittenSomewhere(fs, heads, 0, gids);
    forall h ensures (exists n :: WritesAt(fs, h, n, None, 0, gids)) <==> Readable(fs, h) {
      assert h[..|h|] == h;
      assert Readable(fs, h) ==> WritesAt(fs, h, |h|, None, 0, gids);
    }
  }

  /** What a grant is given by, the first that applies: owner, access list, group, anybody. */
  predicate GivenBy(node: Node, uid: int, gids: set<int>, g: Grant)
    requires AclOf(node).Some?
  {
    match g
    case ByRoot => uid == 0
    case ByOwner => uid != 0 && uid == node.uid
    case ByAcl => uid !in {0, node.uid} && NamedByAcl(node, uid, gids)
    case ByGroup => uid !in {0, node.uid} && !NamedByAcl(node, uid, gids) && node.gid in gids && node.groupWrite
    case ByOther => uid !in {0, node.uid} && !NamedByAcl(node, uid, gids) && !(node.gid in gids && node.groupWrite)
  }

  lemma {:induction false} AlongNames(fs: FileSystem, head: Path, entry: Option<int>, uid: int, gids: set<int>) returns (n: nat)
    requires AccessAlong(fs, ChainOf(head), entry, uid, gids).Writable?
    ensures WritesAt(fs, head, n, entry, uid, gids)
    ensures forall m :: n < m <= |head| ==> !WritesAt(fs, head, m, entry, uid, gids)
    ensures var v := AccessAlong(fs, ChainOf(head), entry, uid, gids);
      v.component == head[..n] && GivenBy(fs[head[..n]], uid, gids, v.through)
  {
    assert head[..|head|] == head;
    GrantIsExact(fs[head], entry, uid, gids);
    if uid == 0 || GrantAt(fs[head], AclOf(fs[head]).value, entry, uid, gids).Some? {
      n := |head|;
    } else {
      assert ChainOf(head)[1..] == ChainOf(Parent(head));
      n := AlongNames(fs, Parent(head), Some(fs[head].uid), uid, gids);
      forall m | n <= m < |head|
        ensures WritesAt(fs, head, m, entry, uid, gids) <==> WritesAt(fs, Parent(head), m, Some(fs[head].uid), uid, gids)
      {
        WritesFurtherUp(fs, head, m, entry, uid, gids);
      }
      ParentIsShorter(head, n);
    }
  }

  /** The component answered is the nearest to its name on the way up that gives the right, and the
      grant the first by which it does; the name is one no earlier one of which gives any. */
  lemma WritableNamesItsComponent(fs: FileSystem, path: Path, uid: int, gids: set<int>) returns (i: nat, n: nat)
    requires AccessTo(fs, path, uid, gids).Writable?
    ensures i < |HeadsTo(fs, path)|
    ensures var h := HeadsTo(fs, path)[i];
      && WritesAt(fs, h, n, None, uid, gids) && (forall m :: n < m <= |h| ==> !WritesAt(fs, h, m, None, uid, gids))
      && AccessTo(fs, path, uid, gids).component == h[..n]
      && GivenBy(fs[h[..n]], uid, gids, AccessTo(fs, path, uid, gids).through)
    ensures forall j, m :: 0 <= j < i ==> !WritesAt(fs, HeadsTo(fs, path)[j], m, None, uid, gids)
  {
    var heads := HeadsTo(fs, path);
    i := FirstWritable(fs, heads, NotWritable, uid, gids);
    n := AlongNames(fs, heads[i], None, uid, gids);
    forall j, m | 0 <= j < i ensures !WritesAt(fs, heads[j], m, None, uid, gids) {
      AlongExactly(fs, heads[j], None, uid, gids);
    }
  }

  lemma {:induction false} FirstWritable(fs: FileSystem, heads: seq<Path>, unknown: AccessVerdict, uid: int, gids: set<int>)
    returns (i: nat)
    requires AccessThrough(fs, ChainsOf(heads), unknown, uid, gids).Writable? && !unknown.Writable?
    ensures i < |heads|
    ensures AccessThrough(fs, ChainsOf(heads), unknown, uid, gids) == AccessAlong(fs, ChainOf(heads[i]), None, uid, gids)
    ensures forall j :: 0 <= j < i ==> !AccessAlong(fs, ChainOf(heads[j]), None, uid, gids).Writable?
  {
    var verdict := AccessAlong(fs, ChainOf(heads[0]), None, uid, gids);
    assert ChainsOf(heads)[1..] == ChainsOf(heads[1..]);
    if verdict.Writable? {
      i := 0;
    } else {
      var k := FirstWritable(fs, heads[1..], if unknown.NotWritable? then verdict else unknown, uid, gids);
      i := k + 1;
      forall j | 0 <= j < i ensures !AccessAlong(fs, ChainOf(heads[j]), None, uid, gids).Writable? {
        if j > 0 { assert heads[j] == heads[1..][j - 1]; }
      }
    }
  }

  /** Not knowing is answered exactly when nobody's right is found and something on the way to some
      name cannot be read, or there are too many links to name them. */
  lemma UnknownExactly(fs: FileSystem, path: Path, uid: int, gids: set<int>)
    ensures AccessTo(fs, path, uid, gids).AccessUnknown? <==>
      !AccessTo(fs, path, uid, gids).Writable?
      && (Heads(fs, path, 0) == None
          || exists h, n :: h in HeadsTo(fs, path) && 0 <= n <= |h| && !Readable(fs, h[..n]))
  {
    if Heads(fs, path, 0).Some? {
      UnknownThrough(fs, HeadsTo(fs, path), NotWritable, uid, gids);
    }
  }

  lemma {:induction false} UnknownThrough(fs: FileSystem, heads: seq<Path>, unknown: AccessVerdict, uid: int, gids: set<int>)
    requires !unknown.Writable?
    ensures var v := AccessThrough(fs, ChainsOf(heads), unknown, uid, gids);
      v.AccessUnknown? <==>
        !v.Writable?
        && (unknown.AccessUnknown? || exists h, n :: h in heads && 0 <= n <= |h| && !Readable(fs, h[..n]))
  {
    if heads != [] {
      var verdict := AccessAlong(fs, ChainOf(heads[0]), None, uid, gids);
      assert ChainsOf(heads)[1..] == ChainsOf(heads[1..]);
      AlongUnknownExactly(fs, heads[0], None, uid, gids);
      assert forall h :: h in heads <==> h == heads[0] || h in heads[1..];
      if !verdict.Writable? {
        UnknownThrough(fs, heads[1..], if unknown.NotWritable? then verdict else unknown, uid, gids);
      }
    }
  }

  lemma WrittenSomewhere(fs: FileSystem, heads: seq<Path>, uid: int, gids: set<int>)
    ensures AccessThrough(fs, ChainsOf(heads), NotWritable, uid, gids).Writable?
      <==> exists h, n :: h in heads && WritesAt(fs, h, n, None, uid, gids)
  {
    WritableThrough(fs, ChainsOf(heads), NotWritable, uid, gids);
    ChainsAreOfHeads(heads);
    forall h ensures AccessAlong(fs, ChainOf(h), None, uid, gids).Writable? <==> exists n :: WritesAt(fs, h, n, None, uid, gids) {
      AlongExactly(fs, h, None, uid, gids);
    }
  }

  // -- exactly when some outsider writes ------------------------------------------------------------------

  /** What one outsider in particular is granted, by name, through a group or as anybody. */
  predicate GrantedTo(node: Node, acl: seq<AclEntry>, uid: int, groups: set<int>) {
    || uid in AclWriters(acl, ACL_USER)
    || !(AclWriters(acl, ACL_GROUP) <= groups)
    || (node.groupWrite && node.gid !in groups)
    || node.otherWrite
  }

  /** What some outsider is granted. */
  predicate GrantedToSome(node: Node, acl: seq<AclEntry>, owners: set<int>, groups: set<int>) {
    || !(AclWriters(acl, ACL_USER) <= owners)
    || !(AclWriters(acl, ACL_GROUP) <= groups)
    || (node.groupWrite && node.gid !in groups)
    || node.otherWrite
  }

  /** A component some outsider can use, by its own facts and the owner of the entry below it:
      an outsider owns it; or it is replaceable and grants some outsider; or it is a sticky
      directory that grants the outsider who owns the entry. A link is never one. */
  predicate OpenAt(node: Node, acl: seq<AclEntry>, entry: Option<int>, owners: set<int>, groups: set<int>) {
    && !node.kind.Link?
    && (|| node.uid !in owners
        || (EntriesAreReplaceable(node, entry == None) && GrantedToSome(node, acl, owners, groups))
        || (entry.Some? && entry.value !in owners && GrantedTo(node, acl, entry.value, groups)))
  }

  /** One chain with such a component before the first that cannot be read. */
  predicate OpenAlong(fs: FileSystem, chain: seq<Path>, entry: Option<int>, owners: set<int>, groups: set<int>) {
    chain != [] && chain[0] in fs && AclOf(fs[chain[0]]).Some?
    && (OpenAt(fs[chain[0]], AclOf(fs[chain[0]]).value, entry, owners, groups)
        || OpenAlong(fs, chain[1..], Some(fs[chain[0]].uid), owners, groups))
  }

  /** A foreign link before the first component that cannot be read. */
  predicate ForeignLinkAlong(fs: FileSystem, chain: seq<Path>, owners: set<int>) {
    chain != [] && chain[0] in fs && AclOf(fs[chain[0]]).Some?
    && ((fs[chain[0]].kind.Link? && fs[chain[0]].uid !in owners) || ForeignLinkAlong(fs, chain[1..], owners))
  }

  lemma GrantsOnlyWhereOpen(node: Node, acl: seq<AclEntry>, entry: Option<int>, uid: int, gids: set<int>,
                            owners: set<int>, groups: set<int>)
    requires Outside(uid, gids, owners, groups) && GrantAt(node, acl, entry, uid, gids).Some?
    ensures OpenAt(node, acl, entry, owners, groups)
  {
    if AclWriters(acl, ACL_GROUP) * gids != {} {
      var g :| g in AclWriters(acl, ACL_GROUP) * gids;
      assert g !in groups;
    }
  }

  lemma OpenGrantsSomeOutsider(node: Node, acl: seq<AclEntry>, entry: Option<int>, owners: set<int>, groups: set<int>)
    returns (uid: int, gids: set<int>)
    requires 0 in owners && OpenAt(node, acl, entry, owners, groups)
    ensures Outside(uid, gids, owners, groups) && GrantAt(node, acl, entry, uid, gids).Some?
  {
    var users, groupsOf := AclWriters(acl, ACL_USER), AclWriters(acl, ACL_GROUP);
    gids := {};
    if node.uid !in owners {
      uid := node.uid;
    } else {
      uid := FreshIdentifier(owners);
      if EntriesAreReplaceable(node, entry == None) && GrantedToSome(node, acl, owners, groups) {
        if u :| u in users && u !in owners { uid := u; }
      } else {
        uid := entry.value;
      }
      if g :| g in groupsOf && g !in groups {
        gids := {g};
        assert g in groupsOf * gids;
      } else if node.groupWrite && node.gid !in groups {
        gids := {node.gid};
      }
    }
  }

  /** One principal's access along a chain needs an open component of it. */
  lemma {:induction false} WritableOnlyWhereOpen(fs: FileSystem, chain: seq<Path>, entry: Option<int>, uid: int, gids: set<int>,
                                                 owners: set<int>, groups: set<int>)
    requires Outside(uid, gids, owners, groups) && AccessAlong(fs, chain, entry, uid, gids).Writable?
    ensures OpenAlong(fs, chain, entry, owners, groups)
  {
    var node := fs[chain[0]];
    if GrantAt(node, AclOf(node).value, entry, uid, gids).Some? {
      GrantsOnlyWhereOpen(node, AclOf(node).value, entry, uid, gids, owners, groups);
    } else {
      WritableOnlyWhereOpen(fs, chain[1..], Some(node.uid), uid, gids, owners, groups);
    }
  }

  lemma {:induction false} OpenChainIsWritable(fs: FileSystem, chain: seq<Path>, entry: Option<int>, owners: set<int>, groups: set<int>)
    returns (uid: int, gids: set<int>)
    requires 0 in owners && OpenAlong(fs, chain, entry, owners, groups)
    ensures Outside(uid, gids, owners, groups) && AccessAlong(fs, chain, entry, uid, gids).Writable?
  {
    var node := fs[chain[0]];
    if OpenAt(node, AclOf(node).value, entry, owners, groups) {
      uid, gids := OpenGrantsSomeOutsider(node, AclOf(node).value, entry, owners, groups);
    } else {
      uid, gids := OpenChainIsWritable(fs, chain[1..], Some(node.uid), owners, groups);
    }
  }

  /** An exposed chain is one with an open component or a foreign link. */
  lemma {:induction false} ExposedExactlyAlong(fs: FileSystem, chain: seq<Path>, entry: Option<int>, owners: set<int>, groups: set<int>)
    requires entry.Some? ==> entry.value in owners
    ensures ProtectedAlong(fs, chain, entry == None, owners, groups).Exposed?
      <==> OpenAlong(fs, chain, entry, owners, groups) || ForeignLinkAlong(fs, chain, owners)
  {
    if chain != [] && chain[0] in fs && AclOf(fs[chain[0]]).Some? {
      var node := fs[chain[0]];
      if node.uid in owners {
        ExposedExactlyAlong(fs, chain[1..], Some(node.uid), owners, groups);
      }
    }
  }

  /** Such a component on the way down to a name, all between it and that name readable. */
  ghost predicate OpenBelow(fs: FileSystem, head: Path, n: nat, entry: Option<int>, owners: set<int>, groups: set<int>) {
    ReadableDownTo(fs, head, n)
    && OpenAt(fs[head[..n]], AclOf(fs[head[..n]]).value, EntryOwner(fs, head, n, entry), owners, groups)
  }

  ghost predicate ForeignLinkBelow(fs: FileSystem, head: Path, n: nat, owners: set<int>) {
    ReadableDownTo(fs, head, n) && IsLink(fs, head[..n]) && fs[head[..n]].uid !in owners
  }

  lemma {:induction false} OpenAlongExactly(fs: FileSystem, head: Path, entry: Option<int>, owners: set<int>, groups: set<int>)
    ensures OpenAlong(fs, ChainOf(head), entry, owners, groups) <==> exists n :: OpenBelow(fs, head, n, entry, owners, groups)
  {
    assert head[..|head|] == head;
    if Readable(fs, head) {
      assert OpenBelow(fs, head, |head|, entry, owners, groups) <==> OpenAt(fs[head], AclOf(fs[head]).value, entry, owners, groups);
      if head == [] {
        assert ChainOf(head)[1..] == [];
      } else {
        assert ChainOf(head)[1..] == ChainOf(Parent(head));
        OpenAlongExactly(fs, Parent(head), Some(fs[head].uid), owners, groups);
        forall n: nat | n < |head|
          ensures OpenBelow(fs, head, n, entry, owners, groups)
            <==> OpenBelow(fs, Parent(head), n, Some(fs[head].uid), owners, groups)
        {
          ReadableFurtherUp(fs, head, n);
          ParentIsShorter(head, n);
        }
      }
    } else {
      forall n ensures !OpenBelow(fs, head, n, entry, owners, groups) {
      }
    }
  }

  lemma {:induction false} ForeignLinkAlongExactly(fs: FileSystem, head: Path, owners: set<int>)
    ensures ForeignLinkAlong(fs, ChainOf(head), owners) <==> exists n :: ForeignLinkBelow(fs, head, n, owners)
  {
    assert head[..|head|] == head;
    if Readable(fs, head) {
      assert ForeignLinkBelow(fs, head, |head|, owners) <==> (fs[head].kind.Link? && fs[head].uid !in owners);
      if head == [] {
        assert ChainOf(head)[1..] == [];
      } else {
        assert ChainOf(head)[1..] == ChainOf(Parent(head));
        ForeignLinkAlongExactly(fs, Parent(head), owners);
        forall n: nat | n < |head|
          ensures ForeignLinkBelow(fs, head, n, owners) <==> ForeignLinkBelow(fs, Parent(head), n, owners)
        {
          ReadableFurtherUp(fs, head, n);
          ParentIsShorter(head, n);
        }
      }
    } else {
      forall n ensures !ForeignLinkBelow(fs, head, n, owners) {
      }
    }
  }

  ghost predicate SomeOpen(fs: FileSystem, heads: seq<Path>, owners: set<int>, groups: set<int>) {
    exists h, n :: h in heads && OpenBelow(fs, h, n, None, owners, groups)
  }

  ghost predicate SomeForeignLink(fs: FileSystem, heads: seq<Path>, owners: set<int>) {
    exists h, n :: h in heads && ForeignLinkBelow(fs, h, n, owners)
  }

  lemma SomeOpenChain(fs: FileSystem, heads: seq<Path>, owners: set<int>, groups: set<int>)
    ensures SomeOpen(fs, heads, owners, groups)
      <==> exists chain :: chain in ChainsOf(heads) && OpenAlong(fs, chain, None, owners, groups)
    ensures SomeForeignLink(fs, heads, owners)
      <==> exists chain :: chain in ChainsOf(heads) && ForeignLinkAlong(fs, chain, owners)
  {
    ChainsAreOfHeads(heads);
    forall h
      ensures OpenAlong(fs, ChainOf(h), None, owners, groups) <==> exists n :: OpenBelow(fs, h, n, None, owners, groups)
      ensures ForeignLinkAlong(fs, ChainOf(h), owners) <==> exists n :: ForeignLinkBelow(fs, h, n, owners)
    {
      OpenAlongExactly(fs, h, None, owners, groups);
      ForeignLinkAlongExactly(fs, h, owners);
    }
  }

  lemma {:induction false} WritableThrough(fs: FileSystem, chains: seq<seq<Path>>, unknown: AccessVerdict, uid: int, gids: set<int>)
    requires !unknown.Writable?
    ensures AccessThrough(fs, chains, unknown, uid, gids).Writable?
      <==> exists chain :: chain in chains && AccessAlong(fs, chain, None, uid, gids).Writable?
  {
    if chains != [] {
      var verdict := AccessAlong(fs, chains[0], None, uid, gids);
      assert chains[0] in chains && forall c :: c in chains <==> c == chains[0] || c in chains[1..];
      if !verdict.Writable? {
        WritableThrough(fs, chains[1..], if unknown.NotWritable? then verdict else unknown, uid, gids);
      }
    }
  }

  lemma {:induction false} ExposedThrough(fs: FileSystem, chains: seq<seq<Path>>, unknown: ProtectionVerdict, owners: set<int>, groups: set<int>)
    requires !unknown.Exposed?
    ensures ProtectedThrough(fs, chains, unknown, owners, groups).Exposed?
      <==> exists chain :: chain in chains && ProtectedAlong(fs, chain, true, owners, groups).Exposed?
  {
    if chains != [] {
      var verdict := ProtectedAlong(fs, chains[0], true, owners, groups);
      assert chains[0] in chains && forall c :: c in chains <==> c == chains[0] || c in chains[1..];
      if !verdict.Exposed? {
        ExposedThrough(fs, chains[1..], if unknown.Protected? then verdict else unknown, owners, groups);
      }
    }
  }

  /** Some outsider can write exactly when, on the way down to some name, some component is open to
      one: facts of the names alone, whatever either judgement answers. Root is nobody's outsider. */
  lemma OutsiderWritesExactlyWhereOpen(fs: FileSystem, path: Path, owners: set<int>, groups: set<int>)
    ensures !NoOutsiderWrites(fs, path, owners, groups) <==> SomeOpen(fs, HeadsTo(fs, path), owners + {0}, groups)
  {
    var chains, all := ChainsOf(HeadsTo(fs, path)), owners + {0};
    SomeOpenChain(fs, HeadsTo(fs, path), all, groups);
    if SomeOpen(fs, HeadsTo(fs, path), all, groups) {
      var chain :| chain in chains && OpenAlong(fs, chain, None, all, groups);
      var uid, gids := OpenChainIsWritable(fs, chain, None, all, groups);
      WritableThrough(fs, chains, NotWritable, uid, gids);
      assert Outside(uid, gids, owners, groups) && AccessTo(fs, path, uid, gids).Writable?;
    }
    if !NoOutsiderWrites(fs, path, owners, groups) {
      var uid: int, gids: set<int> :| Outside(uid, gids, owners, groups) && AccessTo(fs, path, uid, gids).Writable?;
      WritableThrough(fs, chains, NotWritable, uid, gids);
      var chain :| chain in chains && AccessAlong(fs, chain, None, uid, gids).Writable?;
      WritableOnlyWhereOpen(fs, chain, None, uid, gids, all, groups);
      ChainsAreOfHeads(HeadsTo(fs, path));
      var h :| h in HeadsTo(fs, path) && chain == ChainOf(h);
      OpenAlongExactly(fs, h, None, all, groups);
    }
  }

  /** And the name is judged exposed exactly when some name's way has an open component or a foreign
      link: a foreign link's exposure is real if and only if some component is open besides. */
  lemma ExposedExactlyWhereOpenOrForeignlyLinked(fs: FileSystem, path: Path, owners: set<int>, groups: set<int>)
    ensures ProtectionOf(fs, path, owners, groups).Exposed?
      <==> SomeOpen(fs, HeadsTo(fs, path), owners, groups) || SomeForeignLink(fs, HeadsTo(fs, path), owners)
  {
    var chains := ChainsOf(HeadsTo(fs, path));
    SomeOpenChain(fs, HeadsTo(fs, path), owners, groups);
    ExposedThrough(fs, chains, Protected, owners, groups);
    forall chain
      ensures ProtectedAlong(fs, chain, true, owners, groups).Exposed?
        <==> OpenAlong(fs, chain, None, owners, groups) || ForeignLinkAlong(fs, chain, owners)
    {
      ExposedExactlyAlong(fs, chain, None, owners, groups);
    }
  }

  /** So the two judgements say the same thing if and only if the name is not exposed by foreign
      links alone; in particular whenever there is none. */
  lemma ExposedExactlyWhenSomeOutsiderWrites(fs: FileSystem, path: Path, owners: set<int>, groups: set<int>)
    requires 0 in owners
    ensures (ProtectionOf(fs, path, owners, groups).Exposed? <==> !NoOutsiderWrites(fs, path, owners, groups))
      <==> !SomeForeignLink(fs, HeadsTo(fs, path), owners) || SomeOpen(fs, HeadsTo(fs, path), owners, groups)
  {
    assert owners + {0} == owners;
    OutsiderWritesExactlyWhereOpen(fs, path, owners, groups);
    ExposedExactlyWhereOpenOrForeignlyLinked(fs, path, owners, groups);
  }

  // -- a mask -------------------------------------------------------------------------------------

  /** The first mask of a list stands here. */
  predicate FirstMask(entries: seq<AclEntry>, i: nat) {
    i < |entries| && entries[i].tag == ACL_MASK && forall j :: 0 <= j < i ==> entries[j].tag != ACL_MASK
  }

  /** An access list names a writer exactly by an entry of its kind with the write bit, where no mask
      stands, or the first one has the write bit too. */
  lemma MaskIsHeeded(entries: seq<AclEntry>, tag: int, id: int)
    ensures id in AclWriters(entries, tag) <==>
      (exists e :: e in entries && e.tag == tag && e.identifier == id && HasWrite(e.permissions))
      && forall i: nat :: FirstMask(entries, i) ==> HasWrite(entries[i].permissions)
  {
    MaskIsTheFirst(entries);
  }

  lemma {:induction false} MaskIsTheFirst(entries: seq<AclEntry>)
    ensures (exists i: nat :: FirstMask(entries, i)) || Mask(entries) == 7
    ensures forall i: nat :: FirstMask(entries, i) ==> Mask(entries) == entries[i].permissions
  {
    if entries == [] {
    } else if entries[0].tag == ACL_MASK {
      assert FirstMask(entries, 0);
    } else {
      MaskIsTheFirst(entries[1..]);
      forall i: nat ensures FirstMask(entries[1..], i) <==> FirstMask(entries, i + 1) {
        FirstMaskMoves(entries, i);
      }
      forall i: nat | FirstMask(entries, i) ensures Mask(entries) == entries[i].permissions {
        assert FirstMask(entries[1..], i - 1);
      }
    }
  }

  lemma FirstMaskMoves(entries: seq<AclEntry>, i: nat)
    requires entries != [] && entries[0].tag != ACL_MASK
    ensures FirstMask(entries[1..], i) <==> FirstMask(entries, i + 1)
  {
    if FirstMask(entries, i + 1) {
      forall j | 0 <= j < i ensures entries[1..][j].tag != ACL_MASK {
        assert entries[j + 1].tag != ACL_MASK;
      }
    }
    if FirstMask(entries[1..], i) {
      forall j | 0 <= j < i + 1 ensures entries[j].tag != ACL_MASK {
        if j > 0 { assert entries[1..][j - 1].tag != ACL_MASK; }
      }
    }
  }

  // -- the exception is real ------------------------------------------------------------------------------

  function Plain(kind: Kind, uid: int): Node { Node(kind, uid, 0, false, false, false, Some([])) }

  /** `/l`, a stranger's link to `/f`; everything else belongs to root and nobody else writes it. */
  function ForeignLink(): FileSystem {
    map[[] := Plain(Directory, 0), ["l"] := Plain(Link(Target(true, ["f"])), 7), ["f"] := Plain(File, 0)]
  }

  lemma ForeignLinkHeads()
    ensures Heads(ForeignLink(), ["l"], 0) == Some([["l"], ["f"]])
    ensures ChainsOf([["l"], ["f"]]) == [[["l"], []], [["f"], []]]
  {
    var fs := ForeignLink();
    assert [] + ["l"] == ["l"] && [] + ["f"] == ["f"];
    assert From([], Target(true, ["f"])) + ["f"] + ["l"][1..] == ["f"];
    assert [["l"]] + [["f"]] == [["l"], ["f"]];
    assert Scan(fs, ["f"], [], 1) == Some([["f"]]);
    assert Scan(fs, [], ["f"], 1) == Some([["f"]]);
    assert Heads(fs, ["f"], 1) == Some([["f"]]);
    assert Scan(fs, [], ["l"], 0) == Before(["l"], Heads(fs, ["f"], 1));
    assert ChainOf([]) == [[]];
    assert ChainOf(["l"]) == [["l"], []] && ChainOf(["f"]) == [["f"], []];
    assert [["l"], ["f"]][1..] == [["f"]];
    assert ChainsOf([["f"]]) == [[["f"], []]];
  }

  /** A stranger who owns a link cannot point it elsewhere unless they write its directory, yet
      the link's owner alone is judged an exposure. */
  lemma ForeignLinkIsExposedThoughNoOutsiderWrites()
    ensures ProtectionOf(ForeignLink(), ["l"], {0}, {}) == Exposed(["l"], ByOwner)
    ensures NoOutsiderWrites(ForeignLink(), ["l"], {0}, {})
  {
    ForeignLinkHeads();
    var fs := ForeignLink();
    forall uid: int, gids: set<int> | Outside(uid, gids, {0}, {}) ensures !AccessTo(fs, ["l"], uid, gids).Writable? {
      var chains := [[["l"], []], [["f"], []]];
      assert AccessAlong(fs, [[]], Some(7), uid, gids) == NotWritable;
      assert AccessAlong(fs, [[]], Some(0), uid, gids) == NotWritable;
      assert AccessAlong(fs, chains[0], None, uid, gids) == NotWritable;
      assert AccessAlong(fs, chains[1], None, uid, gids) == NotWritable;
      assert AccessThrough(fs, chains[1..], NotWritable, uid, gids) == NotWritable;
    }
  }
}
