/** One file system as the path walkers see it: a node at each absolute name, a name being
    the list of its components below the root. */
module FileSystem {
  import opened Outcomes

  type Path = seq<string>

  /** What a link names, as a path library splits it: no empty and no `.` component. */
  datatype Target = Target(absolute: bool, parts: Path)

  datatype Kind = Directory | File | Link(target: Target)

  /** One entry of a POSIX access list: tag, permission bits, identifier. */
  datatype AclEntry = AclEntry(tag: int, permissions: nat, identifier: int)

  /** What `lstat` and the access list say of one name; `acl` is `None` when unreadable. */
  datatype Node = Node(
    kind: Kind,
    uid: int,
    gid: int,
    sticky: bool,
    groupWrite: bool,
    otherWrite: bool,
    acl: Option<seq<AclEntry>>)

  type FileSystem = map<Path, Node>

  const MAX_LINKS := 40

  const UP := ".."

  function Parent(p: Path): Path { if p == [] then [] else p[..|p| - 1] }

  predicate IsLink(fs: FileSystem, p: Path) { p in fs && fs[p].kind.Link? }

  /** The root is a directory whatever the map says of it. */
  predicate IsDirectory(fs: FileSystem, p: Path) { p == [] || (p in fs && fs[p].kind == Directory) }

  /** Every name on the way to `p`, and `p`, is spelled out and none is a link. */
  ghost predicate LinkFree(fs: FileSystem, p: Path) {
    (forall c :: c in p ==> c != UP) && forall i :: 1 <= i <= |p| ==> !IsLink(fs, p[..i])
  }

  lemma LinkFreeStep(fs: FileSystem, p: Path, name: string)
    requires LinkFree(fs, p) && name != UP && !IsLink(fs, p + [name])
    ensures LinkFree(fs, p + [name])
  {
    var q := p + [name];
    forall i | 1 <= i <= |q| ensures !IsLink(fs, q[..i]) {
      if i <= |p| {
        assert q[..i] == p[..i];
      } else {
        assert q[..i] == q;
      }
    }
  }

  lemma LinkFreeParent(fs: FileSystem, p: Path)
    requires LinkFree(fs, p)
    ensures LinkFree(fs, Parent(p))
  {
    if p != [] {
      assert forall c :: c in Parent(p) ==> c in p;
      forall i | 1 <= i <= |p| - 1 ensures !IsLink(fs, Parent(p)[..i]) {
        assert Parent(p)[..i] == p[..i];
      }
    }
  }

  // -- the kernel's own lookup -------------------------------------------------------------

  /** Where a link sends the walk from, and what it puts before the rest of the name. */
  function From(current: Path, t: Target): Path { if t.absolute then [] else current }

  function LinksLeft(links: nat): nat { if links > MAX_LINKS then 0 else MAX_LINKS + 1 - links }

  /** The file the kernel reaches from `current` by `pending`, or nothing: a missing name, a
      name looked up below something that is no directory, or too many links. */
  function Reached(fs: FileSystem, current: Path, pending: Path, links: nat): Option<Path>
    decreases LinksLeft(links), |pending|
  {
    if links > MAX_LINKS then None
    else if pending == [] then Some(current)
    else if !IsDirectory(fs, current) then None
    else if pending[0] == UP then Reached(fs, Parent(current), pending[1..], links)
    else
      var next := current + [pending[0]];
      if next !in fs then None
      else match fs[next].kind
        case Link(t) => Reached(fs, From(current, t), t.parts + pending[1..], links + 1)
        case _ => Reached(fs, next, pending[1..], links)
  }

  /** Every name that lookup asks for, in order, up to the one it fails on. */
  function LookedUp(fs: FileSystem, current: Path, pending: Path, links: nat): seq<Path>
    decreases LinksLeft(links), |pending|
  {
    if links > MAX_LINKS || pending == [] || !IsDirectory(fs, current) then []
    else if pending[0] == UP then LookedUp(fs, Parent(current), pending[1..], links)
    else
      var next := current + [pending[0]];
      [next] +
      if next !in fs then []
      else match fs[next].kind
        case Link(t) => LookedUp(fs, From(current, t), t.parts + pending[1..], links + 1)
        case _ => LookedUp(fs, next, pending[1..], links)
  }
}
