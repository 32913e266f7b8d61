/** Each staging call keeps the invariant of the staged writer. */
module StagedSteps {
  import opened GitTypes
  import opened TreeOrder
  import opened StagedTree
  import opened StagedInvariant

  // ----- what each call changes, path by path

  /** Apart from `changed`, every path holds what it held, and the missing ones among
      `above` are new directories. */
  ghost predicate OthersKept(s: Stage, t: Stage, changed: set<Path>, above: set<Path>) {
    forall q :: q !in changed ==>
      && (q in t.tree <==> q in s.tree || (q in above && q != []))
      && (q in t.tree ==> t.tree[q] == if q in s.tree then s.tree[q] else Entry(TreeObject, 0x4000, Zero))
  }

  /** The file at `p` is new or replaced; nothing else happened but in the directories above. */
  ghost predicate FileWritten(s: Stage, p: Path, data: Bytes, t: Stage) {
    && p in t.tree && t.tree[p] == Entry(BlobObject, 0x81A4, BlobId(data))
    && OthersKept(s, t, {p}, Above(p))
    && t.links == s.links && t.root == s.root
    && t.dirty == s.dirty + Above(p) && t.pack == s.pack + {BlobId(data)}
  }

  /** The file has moved with its mode and content. */
  ghost predicate FileMoved(s: Stage, src: Path, dst: Path, t: Stage) {
    && src !in t.tree
    && src in s.tree && dst in t.tree && t.tree[dst] == Entry(BlobObject, s.tree[src].mode, s.tree[src].hash)
    && OthersKept(s, t, {src, dst}, Above(dst))
    && t.links == s.links && t.root == s.root
    && t.dirty == s.dirty + Above(src) + Above(dst) && t.pack == s.pack
  }

  /** Only the file at `p` is gone. */
  ghost predicate FileRemoved(s: Stage, p: Path, t: Stage) {
    && p !in t.tree && OthersKept(s, t, {p}, {})
    && t.links == s.links && t.root == s.root
    && t.dirty == s.dirty + Above(p) && t.pack == s.pack
  }

  /** Exactly the entries and gitlinks at or below `d` are gone. */
  ghost predicate SubtreeRemoved(s: Stage, d: Path, t: Stage) {
    && (forall q :: q in t.tree <==> q in s.tree && !Under(d, q))
    && (forall q :: q in t.tree ==> t.tree[q] == s.tree[q])
    && (forall q :: q in t.links <==> q in s.links && !Under(d, q))
    && (forall q :: q in t.links ==> t.links[q] == s.links[q])
    && t.root == s.root && t.dirty == s.dirty + Above(d) && t.pack == s.pack
  }

  lemma AddParentsKeepOthers(s: Stage, p: Path)
    requires p != []
    ensures OthersKept(s, AddParents(s, p), {}, Above(p))
    ensures p in s.tree ==> p in AddParents(s, p).tree && AddParents(s, p).tree[p] == s.tree[p]
    ensures AddParents(s, p).dirty == s.dirty + Above(p)
  {
    ParentsDirty(s, p);
    forall q ensures q in AddParents(s, p).tree <==> q in s.tree || (q in Above(p) && q != [])
             ensures q in AddParents(s, p).tree ==>
                       AddParents(s, p).tree[q] == if q in s.tree then s.tree[q] else Entry(TreeObject, 0x4000, Zero)
    {
      NewDirAt(s, p, q);
      AboveIff(p, q);
    }
  }

  lemma WritesFile(s: Stage, p: Path, data: Bytes)
    requires p != []
    ensures FileWritten(s, p, data, WriteBlob(s, p, data))
  {
    AddParentsKeepOthers(PlaceBlob(Collect(s, BlobId(data)), p, MODE_FILE, BlobId(data)), p);
  }

  lemma RemovesFile(s: Stage, p: Path)
    requires p != []
    ensures FileRemoved(s, p, RemoveBlob(s, p))
  {
    ParentsDirty(DropBlob(s, p), p);
  }

  lemma MovesFile(s: Stage, src: Path, dst: Path)
    requires src != [] && dst != [] && src in s.tree && dst != src
    ensures FileMoved(s, src, dst, RenameBlob(s, src, dst))
  {
    var u := PlaceBlob(s, dst, s.tree[src].mode, s.tree[src].hash);
    AddParentsKeepOthers(u, dst);
    RemovesFile(AddParents(u, dst), src);
  }

  lemma RemovesSubtree(s: Stage, d: Path)
    requires d != []
    ensures SubtreeRemoved(s, d, RemoveTree(s, d))
  {
    ParentsDirty(DropTree(s, d), d);
  }

  // ----- each call keeps the invariant

  lemma PlaceBlobShape(s: Stage, p: Path, mode: nat, h: Hash)
    requires Typed(s) && Rooted(s) && DirtyClosed(s) && p != [] && Unblocked(s.tree, p)
    requires NothingBelow(s, p) && p !in s.dirty
    requires mode != MODE_TREE && mode != MODE_GITLINK
    ensures var t := AddParents(PlaceBlob(s, p, mode, h), p); Typed(t) && Rooted(t) && DirtyClosed(t)
  {
    var u := PlaceBlob(s, p, mode, h);
    forall q, i | (q in u.tree || q in u.links) && 1 <= i < |q| && (Under(p, q) ==> |p| <= i)
      ensures IsDir(u.tree, q[..i])
    {
      assert q != p;
      assert HasParents(s.tree, q);
    }
    AddParentsRoots(u, p);
    AddParentsTyped(u, p);
    AddedDirtyClosed(u, p);
  }

  lemma PlaceBlobLocal(s: Stage, p: Path, mode: nat, h: Hash)
    requires p != []
    ensures ChangesOnlyBelowDirty(s, AddParents(PlaceBlob(s, p, mode, h), p))
  {
    var u := PlaceBlob(s, p, mode, h);
    var t := AddParents(u, p);
    ParentsDirty(u, p);
    forall d, n: Name | d !in t.dirty ensures Lookup(s, d + [n]) == Lookup(t, d + [n]) {
      assert (d + [n])[..|d|] == d;
      AboveIff(p, d);
      NewDirAt(u, p, d + [n]);
    }
    forall d | d !in t.dirty && d != [] && IsDir(t.tree, d) ensures d in s.tree && s.tree[d] == t.tree[d] {
      NewDirAt(u, p, d);
      AboveIff(p, d);
    }
  }

  /** A new or replaced file at `p`, which is not dirty and has nothing below it. */
  lemma PlaceBlobKeeps(s: Stage, p: Path, mode: nat, h: Hash)
    requires Consistent(s) && p != [] && Unblocked(s.tree, p)
    requires NothingBelow(s, p) && p !in s.dirty
    requires mode != MODE_TREE && mode != MODE_GITLINK
    ensures Consistent(AddParents(PlaceBlob(s, p, mode, h), p))
  {
    PlaceBlobShape(s, p, mode, h);
    PlaceBlobLocal(s, p, mode, h);
    FreshnessKept(s, AddParents(PlaceBlob(s, p, mode, h), p));
  }

  lemma CollectKeeps(s: Stage, h: Hash)
    requires Consistent(s)
    ensures Consistent(Collect(s, h))
  {
    var t := Collect(s, h);
    forall d: Path, n: Name ensures Lookup(s, d + [n]) == Lookup(t, d + [n]) {}
    assert ChangesOnlyBelowDirty(s, t);
    FreshnessKept(s, t);
    forall p | p in t.tree || p in t.links ensures HasParents(t.tree, p) { assert HasParents(s.tree, p); }
  }

  lemma WriteBlobKeeps(s: Stage, p: Path, data: Bytes)
    requires Consistent(s) && p != [] && Unblocked(s.tree, p)
    requires NothingBelow(s, p) && p !in s.dirty
    ensures Consistent(WriteBlob(s, p, data))
  {
    CollectKeeps(s, BlobId(data));
    PlaceBlobKeeps(Collect(s, BlobId(data)), p, MODE_FILE, BlobId(data));
  }

  lemma RemoveBlobShape(s: Stage, p: Path)
    requires Typed(s) && Rooted(s) && DirtyClosed(s) && p != []
    requires p in s.tree && s.tree[p].kind.BlobObject?
    ensures var t := RemoveBlob(s, p); Typed(t) && Rooted(t) && DirtyClosed(t)
  {
    var u := DropBlob(s, p);
    assert HasParents(s.tree, p);
    forall q, i | (q in u.tree || q in u.links) && 1 <= i < |q| ensures IsDir(u.tree, q[..i]) {
      assert HasParents(s.tree, q);
      assert q[..i] != p;
    }
    MarkedDirtyClosed(u, p);
  }

  lemma RemoveBlobLocal(s: Stage, p: Path)
    requires p != [] && !IsDir(s.tree, p)
    ensures ChangesOnlyBelowDirty(s, RemoveBlob(s, p))
  {
    var t := RemoveBlob(s, p);
    ParentsDirty(DropBlob(s, p), p);
    forall d, n: Name | d !in t.dirty ensures Lookup(s, d + [n]) == Lookup(t, d + [n]) {
      AboveIff(p, d);
      assert (d + [n])[..|d|] == d;
    }
  }

  lemma RemoveBlobKeeps(s: Stage, p: Path)
    requires Consistent(s) && p != []
    requires p in s.tree && s.tree[p].kind.BlobObject?
    ensures Consistent(RemoveBlob(s, p))
  {
    RemoveBlobShape(s, p);
    RemoveBlobLocal(s, p);
    FreshnessKept(s, RemoveBlob(s, p));
  }

  /** A file moves to a free path that is not still dirty. */
  lemma RenameBlobKeeps(s: Stage, src: Path, dst: Path)
    requires Consistent(s) && src != [] && dst != []
    requires src in s.tree && s.tree[src].kind.BlobObject?
    requires dst !in s.tree && Unblocked(s.tree, dst)
    requires dst !in s.dirty
    ensures Consistent(RenameBlob(s, src, dst))
  {
    var e := s.tree[src];
    var u := PlaceBlob(s, dst, e.mode, e.hash);
    NothingBelowFile(s, dst);
    PlaceBlobKeeps(s, dst, e.mode, e.hash);
    NewDirAt(u, dst, src);
    RemoveBlobKeeps(AddParents(u, dst), src);
  }

  lemma RemoveTreeShape(s: Stage, d: Path)
    requires Typed(s) && Rooted(s) && DirtyClosed(s) && d != [] && IsDir(s.tree, d)
    ensures var t := RemoveTree(s, d); Typed(t) && Rooted(t) && DirtyClosed(t)
  {
    var u := DropTree(s, d);
    assert HasParents(s.tree, d);
    forall q, i | (q in u.tree || q in u.links) && 1 <= i < |q| ensures IsDir(u.tree, q[..i]) {
      assert HasParents(s.tree, q);
    }
    forall i | 1 <= i < |d| ensures IsDir(u.tree, d[..i]) { assert IsDir(s.tree, d[..i]); }
    MarkedDirtyClosed(u, d);
  }

  lemma RemoveTreeLocal(s: Stage, d: Path)
    requires d != []
    ensures ChangesOnlyBelowDirty(s, RemoveTree(s, d))
  {
    var t := RemoveTree(s, d);
    ParentsDirty(DropTree(s, d), d);
    forall e, n: Name | e !in t.dirty && (e == [] || IsDir(t.tree, e))
      ensures Lookup(s, e + [n]) == Lookup(t, e + [n])
    {
      AboveIff(d, e);
      assert (e + [n])[..|e|] == e;
      UnderChild(d, e, n);
    }
  }

  lemma RemoveTreeKeeps(s: Stage, d: Path)
    requires Consistent(s) && d != [] && IsDir(s.tree, d)
    ensures Consistent(RemoveTree(s, d))
  {
    RemoveTreeShape(s, d);
    RemoveTreeLocal(s, d);
    FreshnessKept(s, RemoveTree(s, d));
  }

  lemma WipeTreeKeeps(s: Stage)
    ensures Consistent(WipeTree(s))
  {
    var t := WipeTree(s);
    assert Children(t, []) == map[] by {
      forall n: Name ensures n !in Children(t, []) { assert [] + [n] !in t.tree; }
    }
    CanonicalIsCanon<Hash>([], map[]);
    assert Fresh(t, []);
    forall d: Path ensures Fresh(t, d) {}
  }
}
