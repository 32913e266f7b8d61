/** What a staged writer holds, what each staging call makes of it, and what it
    means for the tree hashes it stores to be up to date. */
module StagedTree {
  import opened GitTypes
  import opened TreeOrder

  datatype Kind = BlobObject | TreeObject | CommitObject

  /** A flat-tree entry; its path is the key it is stored under. */
  datatype Entry = Entry(kind: Kind, mode: nat, hash: Hash)

  type Entries = map<Path, Entry>

  /** `tree` holds files and directories, `links` the cached gitlinks, `dirty`
      the directories to rebuild, `root` the last root tree, and `pack` the
      objects collected for the next push. */
  datatype Stage = Stage(tree: Entries, links: Entries, dirty: set<Path>, root: Hash, pack: set<Hash>)

  const NEW_DIRECTORY := Entry(TreeObject, MODE_TREE, Zero)
  const EMPTY_TREE := TreeId([])

  predicate IsDir(tree: Entries, d: Path) {
    d in tree && tree[d].kind.TreeObject?
  }

  // ----- what a directory contains

  function LinkOf(e: Entry): Link<Hash> { Link(e.mode, e.hash) }

  /** A staged entry shadows a gitlink at the same path. */
  function Lookup(s: Stage, p: Path): Option<Link<Hash>> {
    if p in s.tree then Some(LinkOf(s.tree[p]))
    else if p in s.links then Some(LinkOf(s.links[p]))
    else None
  }

  predicate IsChild(d: Path, p: Path) {
    |p| == |d| + 1 && p[..|d|] == d
  }

  function ChildNames(s: Stage, d: Path): set<Name> {
    set p | p in s.tree.Keys + s.links.Keys && IsChild(d, p) :: p[|d|]
  }

  lemma ChildName(s: Stage, d: Path, n: Name)
    ensures n in ChildNames(s, d) <==> Lookup(s, d + [n]).Some?
  {
    var p := d + [n];
    if Lookup(s, p).Some? { assert IsChild(d, p) && p[|d|] == n; }
    if n in ChildNames(s, d) {
      var q :| q in s.tree.Keys + s.links.Keys && IsChild(d, q) && q[|d|] == n;
      assert q == p;
    }
  }

  function Children(s: Stage, d: Path): (m: map<Name, Link<Hash>>)
    ensures forall n :: n in m <==> Lookup(s, d + [n]).Some?
    ensures forall n :: n in m ==> Lookup(s, d + [n]) == Some(m[n])
  {
    assert forall n :: n in ChildNames(s, d) <==> Lookup(s, d + [n]).Some? by {
      forall n: Name { ChildName(s, d, n); }
    }
    map n | n in ChildNames(s, d) :: Lookup(s, d + [n]).value
  }

  /** The hash a rebuild of `d` would store, from its children's stored hashes. */
  ghost function NodeHash(s: Stage, d: Path): Hash {
    TreeId(Canon(Children(s, d)))
  }

  lemma SameChildren(s: Stage, d: Path, t: Stage, e: Path)
    requires forall n: Name :: Lookup(s, d + [n]) == Lookup(t, e + [n])
    ensures NodeHash(s, d) == NodeHash(t, e)
  {
    var a, b := Children(s, d), Children(t, e);
    forall n ensures n in a <==> n in b { assert Lookup(s, d + [n]) == Lookup(t, e + [n]); }
    forall n | n in a ensures a[n] == b[n] { assert Lookup(s, d + [n]) == Lookup(t, e + [n]); }
    assert a == b;
  }

  // ----- staging calls

  /** Every proper prefix of `p`, the root included. */
  function Above(p: Path): set<Path> {
    set i | 0 <= i < |p| :: p[..i]
  }

  /** `d` is one of the first `k` proper prefixes of `p` below the root. */
  predicate IsAbove(p: Path, k: nat, d: Path) {
    1 <= |d| < k <= |p| && p[..|d|] == d
  }

  function AddDir(s: Stage, d: Path): Stage {
    s.(tree := if d in s.tree then s.tree else s.tree[d := NEW_DIRECTORY], dirty := s.dirty + {d})
  }

  /** Marks the first directories above `p` dirty, creating the missing ones. */
  function AddDirs(s: Stage, p: Path, k: nat): (t: Stage)
    requires 1 <= k <= |p|
    ensures t.links == s.links && t.root == s.root && t.pack == s.pack
  {
    if k == 1 then s else AddDir(AddDirs(s, p, k - 1), p[..k - 1])
  }

  function MarkDirs(s: Stage, p: Path, k: nat): (t: Stage)
    requires 1 <= k <= |p|
    ensures t == s.(dirty := t.dirty)
  {
    if k == 1 then s
    else
      var t := MarkDirs(s, p, k - 1);
      t.(dirty := t.dirty + {p[..k - 1]})
  }

  lemma {:induction false} AddDirsAt(s: Stage, p: Path, k: nat, q: Path)
    requires 1 <= k <= |p|
    ensures q in AddDirs(s, p, k).tree <==> q in s.tree || IsAbove(p, k, q)
    ensures q in AddDirs(s, p, k).tree ==>
              AddDirs(s, p, k).tree[q] == if q in s.tree then s.tree[q] else NEW_DIRECTORY
    ensures q in AddDirs(s, p, k).dirty <==> q in s.dirty || IsAbove(p, k, q)
  {
    if k > 1 { AddDirsAt(s, p, k - 1, q); }
  }

  lemma {:induction false} MarkDirsAt(s: Stage, p: Path, k: nat, q: Path)
    requires 1 <= k <= |p|
    ensures q in MarkDirs(s, p, k).dirty <==> q in s.dirty || IsAbove(p, k, q)
  {
    if k > 1 { MarkDirsAt(s, p, k - 1, q); }
  }

  function AddParents(s: Stage, p: Path): Stage
    requires p != []
  {
    var t := AddDirs(s, p, |p|);
    t.(dirty := t.dirty + {[]})
  }

  function MarkParents(s: Stage, p: Path): Stage
    requires p != []
  {
    var t := MarkDirs(s, p, |p|);
    t.(dirty := t.dirty + {[]})
  }

  /** No entry above `p` is something other than a directory. */
  predicate Unblocked(tree: Entries, p: Path) {
    forall i :: 1 <= i < |p| && p[..i] in tree ==> tree[p[..i]].kind.TreeObject?
  }

  /** Every entry above `p` is there and is a directory. */
  predicate HasParents(tree: Entries, p: Path) {
    forall i :: 1 <= i < |p| ==> IsDir(tree, p[..i])
  }

  function PlaceBlob(s: Stage, p: Path, mode: nat, h: Hash): Stage {
    s.(tree := s.tree[p := Entry(BlobObject, mode, h)])
  }

  function Collect(s: Stage, h: Hash): Stage {
    s.(pack := s.pack + {h})
  }

  /** Creating and updating a blob store the same new entry. */
  function WriteBlob(s: Stage, p: Path, data: Bytes): Stage
    requires p != []
  {
    AddParents(PlaceBlob(Collect(s, BlobId(data)), p, MODE_FILE, BlobId(data)), p)
  }

  function DropBlob(s: Stage, p: Path): Stage {
    s.(tree := s.tree - {p})
  }

  function RemoveBlob(s: Stage, p: Path): Stage
    requires p != []
  {
    MarkParents(DropBlob(s, p), p)
  }

  function RenameBlob(s: Stage, src: Path, dst: Path): Stage
    requires src in s.tree && src != [] && dst != []
  {
    RemoveBlob(AddParents(PlaceBlob(s, dst, s.tree[src].mode, s.tree[src].hash), dst), src)
  }

  function Outside(m: Entries, d: Path): Entries {
    map p | p in m && !Under(d, p) :: m[p]
  }

  function DropTree(s: Stage, d: Path): Stage {
    s.(tree := Outside(s.tree, d), links := Outside(s.links, d))
  }

  function RemoveTree(s: Stage, d: Path): Stage
    requires d != []
  {
    MarkParents(DropTree(s, d), d)
  }

  /** Removing the root installs the empty tree and forgets everything staged. */
  function WipeTree(s: Stage): Stage {
    Stage(map[[] := Entry(TreeObject, MODE_TREE, EMPTY_TREE)], map[], {}, EMPTY_TREE, s.pack + {EMPTY_TREE})
  }

  /** Where `p`, at or below `src`, goes when `src` becomes `dst`. */
  function Moved(src: Path, dst: Path, p: Path): Path
    requires Under(src, p)
  {
    dst + p[|src|..]
  }

  function Relocated(m: Entries, src: Path, dst: Path): Entries {
    map q | q in (set p | p in m && Under(src, p) :: Moved(src, dst, p)) && Under(dst, q) && Moved(dst, src, q) in m ::
      m[Moved(dst, src, q)]
  }

  lemma MovedBack(src: Path, dst: Path, p: Path)
    requires Under(src, p)
    ensures Under(dst, Moved(src, dst, p))
    ensures Moved(dst, src, Moved(src, dst, p)) == p
  {
  }

  /** Relocation is a bijection between what is under `src` and its image. */
  lemma RelocatedAt(m: Entries, src: Path, dst: Path, q: Path)
    ensures q in Relocated(m, src, dst) <==> Under(dst, q) && Moved(dst, src, q) in m
    ensures q in Relocated(m, src, dst) ==> Relocated(m, src, dst)[q] == m[Moved(dst, src, q)]
  {
    if Under(dst, q) && Moved(dst, src, q) in m {
      MovedBack(dst, src, q);
      assert Under(src, Moved(dst, src, q));
    }
  }

  /** No entry below `src` is in the way of another one's new place. */
  predicate NoOverlap(m: Entries, src: Path, dst: Path) {
    forall p :: p in m && Under(src, p) && Under(src, Moved(src, dst, p)) ==> Moved(src, dst, p) !in m
  }

  /** What a subtree move does to the two maps before parents are marked. */
  function ShiftTree(s: Stage, src: Path, dst: Path): Stage {
    s.(tree := Outside(s.tree, src) + Relocated(s.tree, src, dst),
       links := Outside(s.links, src) + Relocated(s.links, src, dst))
  }

  function RenameTree(s: Stage, src: Path, dst: Path): Stage
    requires src != [] && dst != []
  {
    MarkParents(AddParents(ShiftTree(s, src, dst), dst), src)
  }

  // ----- rebuilding

  /** Rebuilds one dirty directory; one that is no longer staged is skipped. */
  ghost function BuildOne(s: Stage, d: Path): Stage {
    var h := NodeHash(s, d);
    if d == [] then Collect(s.(root := h), h)
    else if d in s.tree then Collect(s.(tree := s.tree[d := s.tree[d].(hash := h)]), h)
    else s
  }

  ghost function BuildAll(s: Stage, order: seq<Path>): Stage
    decreases |order|
  {
    if order == [] then s else BuildAll(BuildOne(s, order[0]), order[1..])
  }
}
