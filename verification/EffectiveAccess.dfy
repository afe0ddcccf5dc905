/** Two judgements of the chains of a name: whether one given principal can change or replace
    the file behind it, and whether anybody but an administrator can. They must agree. */
module EffectiveAccess {
  import opened Outcomes
  import opened FileSystem
  import opened NamingPath

  const ACL_USER := 0x02
  const ACL_GROUP := 0x08
  const ACL_MASK := 0x10

  datatype Grant = ByRoot | ByOwner | ByAcl | ByGroup | ByOther

  datatype Trouble = StatFailed | AclUnreadable

  datatype AccessVerdict =
    | Writable(component: Path, through: Grant)
    | NotWritable
    | AccessUnknown(component: Path, why: Trouble)

  datatype ProtectionVerdict =
    | Protected
    | Exposed(component: Path, through: Grant)
    | ProtectionUnknown(component: Path, why: Trouble)

  // -- access lists -------------------------------------------------------------------------

  /** The write bit, `0o2`. */
  predicate HasWrite(permissions: nat) { permissions / 2 % 2 == 1 }

  /** The first mask entry, or every right where there is none. */
  function Mask(entries: seq<AclEntry>): nat {
    if entries == [] then 7
    else if entries[0].tag == ACL_MASK then entries[0].permissions
    else Mask(entries[1..])
  }

  function AclWriters(entries: seq<AclEntry>, tag: int): set<int> {
    set e | e in entries && e.tag == tag && HasWrite(e.permissions) && HasWrite(Mask(entries)) :: e.identifier
  }

  /** The list consulted at a component: for a link, none. */
  function AclOf(node: Node): Option<seq<AclEntry>> { if node.kind.Link? then Some([]) else node.acl }

  // -- the exemption of a sticky directory -----------------------------------------------------

  predicate WriteReachesTheEntryBelow(node: Node, ownsTheDirectory: bool, ownsTheEntry: bool) {
    node.kind == Directory && node.sticky ==> ownsTheDirectory || ownsTheEntry
  }

  // -- what one principal can do -----------------------------------------------------------------

  /** What a component grants; `entry` is the owner of the one below, and absent at depth zero. */
  function GrantAt(node: Node, acl: seq<AclEntry>, entry: Option<int>, uid: int, gids: set<int>): Option<Grant> {
    var owns := uid == node.uid;
    if node.kind.Link? || !(entry == None || WriteReachesTheEntryBelow(node, owns, entry == Some(uid))) then None
    else if owns then Some(ByOwner)
    else if uid in AclWriters(acl, ACL_USER) || AclWriters(acl, ACL_GROUP) * gids != {} then Some(ByAcl)
    else if node.gid in gids && node.groupWrite then Some(ByGroup)
    else if node.otherWrite then Some(ByOther)
    else None
  }

  function AccessAlong(fs: FileSystem, chain: seq<Path>, entry: Option<int>, uid: int, gids: set<int>): AccessVerdict {
    if chain == [] then NotWritable
    else
      var c := chain[0];
      if c !in fs then AccessUnknown(c, StatFailed)
      else if AclOf(fs[c]) == None then AccessUnknown(c, AclUnreadable)
      else if uid == 0 then Writable(c, ByRoot)
      else match GrantAt(fs[c], AclOf(fs[c]).value, entry, uid, gids)
        case Some(grant) => Writable(c, grant)
        case None => AccessAlong(fs, chain[1..], Some(fs[c].uid), uid, gids)
  }

  /** The first chain that is writable decides; failing that, the first that is unknown. */
  function AccessThrough(fs: FileSystem, chains: seq<seq<Path>>, unknown: AccessVerdict, uid: int, gids: set<int>): AccessVerdict {
    if chains == [] then unknown
    else
      var verdict := AccessAlong(fs, chains[0], None, uid, gids);
      if verdict.Writable? then verdict
      else AccessThrough(fs, chains[1..], if unknown.NotWritable? then verdict else unknown, uid, gids)
  }

  function AccessTo(fs: FileSystem, path: Path, uid: int, gids: set<int>): AccessVerdict {
    match Heads(fs, path, 0)
    case None => AccessUnknown(path, StatFailed)
    case Some(heads) => AccessThrough(fs, ChainsOf(heads), NotWritable, uid, gids)
  }

  method WriteAccessAlong(fs: FileSystem, components: seq<Path>, uid: int, gids: set<int>) returns (verdict: AccessVerdict)
    ensures verdict == AccessAlong(fs, components, None, uid, gids)
  {
    var entryUid: Option<int> := None;
    var depth := 0;
    assert components[0..] == components;
    while depth < |components|
      invariant 0 <= depth <= |components|
      invariant (depth == 0) == (entryUid == None)
      invariant AccessAlong(fs, components, None, uid, gids) == AccessAlong(fs, components[depth..], entryUid, uid, gids)
    {
      var component := components[depth];
      assert components[depth..][1..] == components[depth + 1..];
      if component !in fs { return AccessUnknown(component, StatFailed); }
      var metadata := fs[component];
      var entries := AclOf(metadata);
      if entries == None { return AccessUnknown(component, AclUnreadable); }
      if uid == 0 { return Writable(component, ByRoot); }
      var owns := uid == metadata.uid;
      var reaches := depth == 0 || WriteReachesTheEntryBelow(metadata, owns, entryUid == Some(uid));
      if reaches && !metadata.kind.Link? {
        if owns { return Writable(component, ByOwner); }
        var aclUsers, aclGroups := AclWriters(entries.value, ACL_USER), AclWriters(entries.value, ACL_GROUP);
        if uid in aclUsers || aclGroups * gids != {} { return Writable(component, ByAcl); }
        if metadata.gid in gids && metadata.groupWrite { return Writable(component, ByGroup); }
        if metadata.otherWrite { return Writable(component, ByOther); }
      }
      entryUid := Some(metadata.uid);
      depth := depth + 1;
    }
    verdict := NotWritable;
  }

  method WriteAccess(fs: FileSystem, path: Path, uid: int, gids: set<int>) returns (verdict: AccessVerdict)
    ensures verdict == AccessTo(fs, path, uid, gids)
  {
    var chains := NamingChains(fs, path);
    if chains == None { return AccessUnknown(path, StatFailed); }
    var unknown := NotWritable;
    var i := 0;
    assert chains.value[0..] == chains.value;
    while i < |chains.value|
      invariant 0 <= i <= |chains.value|
      invariant AccessTo(fs, path, uid, gids) == AccessThrough(fs, chains.value[i..], unknown, uid, gids)
      invariant !unknown.Writable?
    {
      assert chains.value[i..][1..] == chains.value[i + 1..];
      verdict := WriteAccessAlong(fs, chains.value[i], uid, gids);
      if verdict.Writable? { return; }
      if verdict.AccessUnknown? && unknown.NotWritable? { unknown := verdict; }
      i := i + 1;
    }
    verdict := unknown;
  }

  // -- whether only administrators can ---------------------------------------------------------------

  predicate EntriesAreReplaceable(node: Node, first: bool) {
    first || WriteReachesTheEntryBelow(node, false, false)
  }

  function ExposureAt(node: Node, acl: seq<AclEntry>, first: bool, owners: set<int>, groups: set<int>): Option<Grant> {
    if node.uid !in owners then Some(ByOwner)
    else if node.kind.Link? || !EntriesAreReplaceable(node, first) then None
    else if !(AclWriters(acl, ACL_USER) <= owners) || !(AclWriters(acl, ACL_GROUP) <= groups) then Some(ByAcl)
    else if node.groupWrite && node.gid !in groups then Some(ByGroup)
    else if node.otherWrite then Some(ByOther)
    else None
  }

  function ProtectedAlong(fs: FileSystem, chain: seq<Path>, first: bool, owners: set<int>, groups: set<int>): ProtectionVerdict {
    if chain == [] then Protected
    else
      var c := chain[0];
      if c !in fs then ProtectionUnknown(c, StatFailed)
      else if AclOf(fs[c]) == None then ProtectionUnknown(c, AclUnreadable)
      else match ExposureAt(fs[c], AclOf(fs[c]).value, first, owners, groups)
        case Some(grant) => Exposed(c, grant)
        case None => ProtectedAlong(fs, chain[1..], false, owners, groups)
  }

  function ProtectedThrough(fs: FileSystem, chains: seq<seq<Path>>, unknown: ProtectionVerdict, owners: set<int>, groups: set<int>): ProtectionVerdict {
    if chains == [] then unknown
    else
      var verdict := ProtectedAlong(fs, chains[0], true, owners, groups);
      if verdict.Exposed? then verdict
      else ProtectedThrough(fs, chains[1..], if unknown.Protected? then verdict else unknown, owners, groups)
  }

  function ProtectionOf(fs: FileSystem, path: Path, owners: set<int>, groups: set<int>): ProtectionVerdict {
    match Heads(fs, path, 0)
    case None => ProtectionUnknown(path, StatFailed)
    case Some(heads) => ProtectedThrough(fs, ChainsOf(heads), Protected, owners, groups)
  }

  method ProtectionAlong(fs: FileSystem, components: seq<Path>, owners: set<int>, groups: set<int>)
    returns (verdict: ProtectionVerdict)
    ensures verdict == ProtectedAlong(fs, components, true, owners, groups)
  {
    var depth := 0;
    assert components[0..] == components;
    while depth < |components|
      invariant 0 <= depth <= |components|
      invariant ProtectedAlong(fs, components, true, owners, groups)
        == ProtectedAlong(fs, components[depth..], depth == 0, owners, groups)
    {
      var component := components[depth];
      assert components[depth..][1..] == components[depth + 1..];
      if component !in fs { return ProtectionUnknown(component, StatFailed); }
      var metadata := fs[component];
      var entries := AclOf(metadata);
      if entries == None { return ProtectionUnknown(component, AclUnreadable); }
      if metadata.uid !in owners { return Exposed(component, ByOwner); }
      if !metadata.kind.Link? && EntriesAreReplaceable(metadata, depth == 0) {
        var aclUsers, aclGroups := AclWriters(entries.value, ACL_USER), AclWriters(entries.value, ACL_GROUP);
        if !(aclUsers <= owners) || !(aclGroups <= groups) { return Exposed(component, ByAcl); }
        if metadata.groupWrite && metadata.gid !in groups { return Exposed(component, ByGroup); }
        if metadata.otherWrite { return Exposed(component, ByOther); }
      }
      depth := depth + 1;
    }
    verdict := Protected;
  }

  method Protection(fs: FileSystem, path: Path, owners: set<int>, groups: set<int>) returns (verdict: ProtectionVerdict)
    ensures verdict == ProtectionOf(fs, path, owners, groups)
  {
    var chains := NamingChains(fs, path);
    if chains == None { return ProtectionUnknown(path, StatFailed); }
    var unknown := Protected;
    var i := 0;
    assert chains.value[0..] == chains.value;
    while i < |chains.value|
      invariant 0 <= i <= |chains.value|
      invariant ProtectionOf(fs, path, owners, groups) == ProtectedThrough(fs, chains.value[i..], unknown, owners, groups)
      invariant !unknown.Exposed?
    {
      assert chains.value[i..][1..] == chains.value[i + 1..];
      verdict := ProtectionAlong(fs, chains.value[i], owners, groups);
      if verdict.Exposed? { return; }
      if verdict.ProtectionUnknown? && unknown.Protected? { unknown := verdict; }
      i := i + 1;
    }
    verdict := unknown;
  }

  // -- the two judgements agree --------------------------------------------------------------------

  /** A principal who is not root, owns nothing allowed, and is in no allowed group. */
  ghost predicate Outside(uid: int, gids: set<int>, owners: set<int>, groups: set<int>) {
    uid != 0 && uid !in owners && gids !! groups
  }

  /** What an unexposed name must answer every such principal. */
  function AsAccess(p: ProtectionVerdict): AccessVerdict
    requires !p.Exposed?
  {
    if p.Protected? then NotWritable else AccessUnknown(p.component, p.why)
  }

  lemma {:induction false} UnexposedChainIsNotWritable(fs: FileSystem, chain: seq<Path>, entry: Option<int>,
                                                       uid: int, gids: set<int>, owners: set<int>, groups: set<int>)
    requires Outside(uid, gids, owners, groups)
    requires entry.Some? ==> entry.value in owners
    requires !ProtectedAlong(fs, chain, entry == None, owners, groups).Exposed?
    ensures AccessAlong(fs, chain, entry, uid, gids) == AsAccess(ProtectedAlong(fs, chain, entry == None, owners, groups))
  {
    if chain != [] && chain[0] in fs && AclOf(fs[chain[0]]).Some? {
      var node := fs[chain[0]];
      assert GrantAt(node, AclOf(node).value, entry, uid, gids) == None;
      UnexposedChainIsNotWritable(fs, chain[1..], Some(node.uid), uid, gids, owners, groups);
    }
  }

  lemma {:induction false} UnexposedChainsAgree(fs: FileSystem, chains: seq<seq<Path>>, unknown: ProtectionVerdict,
                                                uid: int, gids: set<int>, owners: set<int>, groups: set<int>)
    requires Outside(uid, gids, owners, groups) && !unknown.Exposed?
    requires !ProtectedThrough(fs, chains, unknown, owners, groups).Exposed?
    ensures AccessThrough(fs, chains, AsAccess(unknown), uid, gids)
         == AsAccess(ProtectedThrough(fs, chains, unknown, owners, groups))
  {
    if chains != [] {
      UnexposedChainIsNotWritable(fs, chains[0], None, uid, gids, owners, groups);
      var verdict := ProtectedAlong(fs, chains[0], true, owners, groups);
      UnexposedChainsAgree(fs, chains[1..], if unknown.Protected? then verdict else unknown, uid, gids, owners, groups);
    }
  }

  /** A name judged protected is not writable by any outsider, through any chain and any access
      list; and one that cannot be judged is answered unknown, for the same component. */
  lemma UnexposedMeansNoOutsiderWrites(fs: FileSystem, path: Path, uid: int, gids: set<int>, owners: set<int>, groups: set<int>)
    requires Outside(uid, gids, owners, groups)
    requires !ProtectionOf(fs, path, owners, groups).Exposed?
    ensures AccessTo(fs, path, uid, gids) == AsAccess(ProtectionOf(fs, path, owners, groups))
  {
    if Heads(fs, path, 0).Some? {
      UnexposedChainsAgree(fs, ChainsOf(Heads(fs, path, 0).value), Protected, uid, gids, owners, groups);
    }
  }

  // -- and an exposure names a real writer --------------------------------------------------------------

  /** A principal who holds the grant an exposure names. */
  ghost predicate Holds(node: Node, grant: Grant, uid: int, gids: set<int>) {
    match grant
    case ByRoot => uid == 0
    case ByOwner => uid == node.uid
    case ByAcl => AclOf(node).Some? && (uid in AclWriters(AclOf(node).value, ACL_USER)
                                        || AclWriters(AclOf(node).value, ACL_GROUP) * gids != {})
    case ByGroup => node.gid in gids
    case ByOther => true
  }

  lemma {:induction false} HolderWritesAlong(fs: FileSystem, chain: seq<Path>, entry: Option<int>, uid: int, gids: set<int>,
                                             owners: set<int>, groups: set<int>)
    requires ProtectedAlong(fs, chain, entry == None, owners, groups).Exposed?
    requires var e := ProtectedAlong(fs, chain, entry == None, owners, groups);
      e.component in fs && !IsLink(fs, e.component) && Holds(fs[e.component], e.through, uid, gids)
    ensures AccessAlong(fs, chain, entry, uid, gids).Writable?
  {
    var node := fs[chain[0]];
    if ExposureAt(node, AclOf(node).value, entry == None, owners, groups) == None {
      HolderWritesAlong(fs, chain[1..], Some(node.uid), uid, gids, owners, groups);
    }
  }

  lemma {:induction false} HolderWritesThrough(fs: FileSystem, chains: seq<seq<Path>>, unknown: ProtectionVerdict, sofar: AccessVerdict,
                                               uid: int, gids: set<int>, owners: set<int>, groups: set<int>)
    requires ProtectedThrough(fs, chains, unknown, owners, groups).Exposed? && !unknown.Exposed?
    requires var e := ProtectedThrough(fs, chains, unknown, owners, groups);
      e.component in fs && !IsLink(fs, e.component) && Holds(fs[e.component], e.through, uid, gids)
    ensures AccessThrough(fs, chains, sofar, uid, gids).Writable?
  {
    var verdict := ProtectedAlong(fs, chains[0], true, owners, groups);
    if verdict.Exposed? {
      HolderWritesAlong(fs, chains[0], None, uid, gids, owners, groups);
    } else {
      var access := AccessAlong(fs, chains[0], None, uid, gids);
      HolderWritesThrough(fs, chains[1..], if unknown.Protected? then verdict else unknown,
                          if sofar.NotWritable? then access else sofar, uid, gids, owners, groups);
    }
  }

  lemma {:induction false} ExposureIsAt(fs: FileSystem, chain: seq<Path>, first: bool, owners: set<int>, groups: set<int>)
    requires ProtectedAlong(fs, chain, first, owners, groups).Exposed?
    ensures var e := ProtectedAlong(fs, chain, first, owners, groups);
      e.component in fs && AclOf(fs[e.component]).Some?
      && exists at: bool :: ExposureAt(fs[e.component], AclOf(fs[e.component]).value, at, owners, groups) == Some(e.through)
  {
    var node := fs[chain[0]];
    if ExposureAt(node, AclOf(node).value, first, owners, groups) == None {
      ExposureIsAt(fs, chain[1..], false, owners, groups);
    }
  }

  lemma {:induction false} ExposureIsAtSome(fs: FileSystem, chains: seq<seq<Path>>, unknown: ProtectionVerdict, owners: set<int>, groups: set<int>)
    requires ProtectedThrough(fs, chains, unknown, owners, groups).Exposed? && !unknown.Exposed?
    ensures var e := ProtectedThrough(fs, chains, unknown, owners, groups);
      e.component in fs && AclOf(fs[e.component]).Some?
      && exists at: bool :: ExposureAt(fs[e.component], AclOf(fs[e.component]).value, at, owners, groups) == Some(e.through)
  {
    var verdict := ProtectedAlong(fs, chains[0], true, owners, groups);
    if verdict.Exposed? {
      ExposureIsAt(fs, chains[0], true, owners, groups);
    } else {
      ExposureIsAtSome(fs, chains[1..], if unknown.Protected? then verdict else unknown, owners, groups);
    }
  }

  lemma {:induction false} FreshIdentifier(taken: set<int>) returns (unused: int)
    ensures unused > 0 && forall t :: t in taken ==> t < unused
  {
    if t :| t in taken {
      var above := FreshIdentifier(taken - {t});
      unused := if t < above then above else t + 1;
      assert forall u :: u in taken ==> u == t || u in taken - {t};
    } else {
      unused := 1;
    }
  }

  /** Whatever is exposed, some outsider holds the grant it is exposed by. */
  lemma SomeOutsiderHolds(node: Node, at: bool, grant: Grant, owners: set<int>, groups: set<int>)
    returns (uid: int, gids: set<int>)
    requires 0 in owners && AclOf(node).Some?
    requires ExposureAt(node, AclOf(node).value, at, owners, groups) == Some(grant)
    ensures Outside(uid, gids, owners, groups) && Holds(node, grant, uid, gids)
  {
    var users, groupsOf := AclWriters(AclOf(node).value, ACL_USER), AclWriters(AclOf(node).value, ACL_GROUP);
    uid := FreshIdentifier(owners);
    gids := {};
    match grant {
      case ByOwner => uid := node.uid;
      case ByAcl =>
        if u :| u in users && u !in owners {
          uid := u;
        } else {
          var g :| g in groupsOf && g !in groups;
          gids := {g};
          assert g in groupsOf * gids;
        }
      case ByGroup => gids := {node.gid};
      case ByOther =>
    }
  }

  /** When root is one of the administrators, an exposure is never a false alarm, a foreign
      owner of a link excepted: some outsider can write. */
  lemma ExposedMeansSomeOutsiderWrites(fs: FileSystem, path: Path, owners: set<int>, groups: set<int>)
    returns (uid: int, gids: set<int>)
    requires 0 in owners && ProtectionOf(fs, path, owners, groups).Exposed?
    requires !IsLink(fs, ProtectionOf(fs, path, owners, groups).component)
    ensures Outside(uid, gids, owners, groups)
    ensures AccessTo(fs, path, uid, gids).Writable?
  {
    var chains := ChainsOf(Heads(fs, path, 0).value);
    var e := ProtectionOf(fs, path, owners, groups);
    ExposureIsAtSome(fs, chains, Protected, owners, groups);
    var node := fs[e.component];
    var at: bool :| ExposureAt(node, AclOf(node).value, at, owners, groups) == Some(e.through);
    uid, gids := SomeOutsiderHolds(node, at, e.through, owners, groups);
    HolderWritesThrough(fs, chains, Protected, NotWritable, uid, gids, owners, groups);
  }

  ghost predicate NoOutsiderWrites(fs: FileSystem, path: Path, owners: set<int>, groups: set<int>) {
    forall uid: int, gids: set<int> :: Outside(uid, gids, owners, groups) ==> !AccessTo(fs, path, uid, gids).Writable?
  }
}
