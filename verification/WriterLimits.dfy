/** Calls the writer accepts although they break what it promises, and the exact
    conditions under which they do not. */
module WriterLimits {
  import opened GitTypes
  import opened TreeOrder
  import opened StagedTree
  import opened StagedInvariant
  import opened StagedSteps
  import opened StagedMove
  import opened StagedRebuild
  import opened WriterRuns

  lemma {:induction false} BuildAllLeaves(s: Stage, order: seq<Path>, p: Path)
    requires p in s.tree && p !in order
    ensures p in BuildAll(s, order).tree && BuildAll(s, order).tree[p] == s.tree[p]
    decreases |order|
  {
    if order != [] { BuildAllLeaves(BuildOne(s, order[0]), order[1..], p); }
  }

  lemma {:induction false} BuildAllRebuilds(s: Stage, order: seq<Path>, p: Path)
    requires p in s.tree && p != [] && (p in order || s.tree[p].hash.TreeId?)
    ensures p in BuildAll(s, order).tree && BuildAll(s, order).tree[p].hash.TreeId?
    ensures BuildAll(s, order).tree[p].mode == s.tree[p].mode
    decreases |order|
  {
    if order != [] { BuildAllRebuilds(BuildOne(s, order[0]), order[1..], p); }
  }

  // ----- what a commit lists

  /** The root is rebuilt last. */
  lemma RootLast(order: seq<Path>, dirty: set<Path>)
    requires RebuildOrder(order, dirty) && [] in dirty
    ensures order != [] && order[|order| - 1] == []
  {
    var j :| 0 <= j < |order| && order[j] == [];
    var z := order[|order| - 1];
    assert !RebuiltBefore(z, []);
  }

  lemma {:induction false} BuildAllLast(s: Stage, order: seq<Path>)
    requires order != []
    ensures BuildAll(s, order) == BuildOne(BuildAll(s, order[..|order| - 1]), order[|order| - 1])
    decreases |order|
  {
    if |order| > 1 {
      BuildAllLast(BuildOne(s, order[0]), order[1..]);
      assert order[1..][..|order| - 2] == order[..|order| - 1][1..];
    }
  }

  /** In any state with a dirty root, consistent or not, a commit's tree lists the
      top-level entries as the rebuild leaves them. */
  lemma CommitListsTop(w: Writer, text: CommitText, v: Writer, n: Name)
    requires Step(w, Commit(text), v) && [] in w.stage.dirty && [n] in v.stage.tree
    ensures v.lastCommit.CommitId? && v.lastCommit.tree.TreeId?
    ensures var e := v.stage.tree[[n]]; TreeEntry(e.mode, n, e.hash) in v.lastCommit.tree.entries
  {
    var s := w.stage;
    var order :| RebuildOrder(order, s.dirty) && BuildAll(s, order).pack != {} &&
      v == Committed(w.(stage := BuildAll(s, order).(dirty := {})), text);
    RootIsRebuiltLast(s, order, n);
  }

  lemma RootIsRebuiltLast(s: Stage, order: seq<Path>, n: Name)
    requires RebuildOrder(order, s.dirty) && [] in s.dirty && [n] in BuildAll(s, order).tree
    ensures var t := BuildAll(s, order); var e := t.tree[[n]];
            t.root.TreeId? && TreeEntry(e.mode, n, e.hash) in t.root.entries
  {
    RootLast(order, s.dirty);
    BuildAllLast(s, order);
    RootListsTop(BuildAll(s, order[..|order| - 1]), n);
  }

  lemma RootListsTop(s: Stage, n: Name)
    ensures var t := BuildOne(s, []);
            t.root.TreeId? && t.tree == s.tree &&
            ([n] in t.tree ==> TreeEntry(t.tree[[n]].mode, n, t.tree[[n]].hash) in t.root.entries)
  {
    assert [] + [n] == [n];
    if [n] in s.tree { ListedChild(s, [], n); }
  }

  lemma ListedChild(s: Stage, d: Path, n: Name)
    requires d + [n] in s.tree
    ensures var e := s.tree[d + [n]]; TreeEntry(e.mode, n, e.hash) in NodeHash(s, d).entries
  {
    var m := Children(s, d);
    assert Lookup(s, d + [n]) == Some(m[n]);
    assert TreeEntry(m[n].mode, n, m[n].hash) in NodeHash(s, d).entries;
  }

  /** A file whose path is still dirty is committed under a tree's hash. */
  lemma DirtyFileIsCommittedAsTree(w: Writer, text: CommitText, v: Writer, n: Name)
    requires Step(w, Commit(text), v) && [] in w.stage.dirty && [n] in w.stage.dirty && [n] in w.stage.tree
    requires w.stage.tree[[n]].mode == MODE_FILE
    ensures v.lastCommit.CommitId? && v.lastCommit.tree.TreeId?
    ensures exists h: Hash :: h.TreeId? && TreeEntry(MODE_FILE, n, h) in v.lastCommit.tree.entries
  {
    var s := w.stage;
    var order :| RebuildOrder(order, s.dirty) && BuildAll(s, order).pack != {} &&
      v == Committed(w.(stage := BuildAll(s, order).(dirty := {})), text);
    BuildAllRebuilds(s, order, [n]);
    CommitListsTop(w, text, v, n);
  }

  /** An entry whose path is not dirty is committed as it is staged. */
  lemma CleanEntryIsCommitted(w: Writer, text: CommitText, v: Writer, n: Name)
    requires Step(w, Commit(text), v) && [] in w.stage.dirty && [n] !in w.stage.dirty && [n] in w.stage.tree
    ensures v.lastCommit.CommitId? && v.lastCommit.tree.TreeId?
    ensures var e := w.stage.tree[[n]]; TreeEntry(e.mode, n, e.hash) in v.lastCommit.tree.entries
  {
    var s := w.stage;
    var order :| RebuildOrder(order, s.dirty) && BuildAll(s, order).pack != {} &&
      v == Committed(w.(stage := BuildAll(s, order).(dirty := {})), text);
    BuildAllLeaves(s, order, [n]);
    CommitListsTop(w, text, v, n);
  }

  // ----- writing a file

  /** A file survives the next rebuild exactly when its path is not still marked
      dirty from a directory that was staged there before. */
  lemma WrittenFileSurvivesIff(s: Stage, p: Path, data: Bytes, order: seq<Path>)
    requires Consistent(s) && p != [] && Unblocked(s.tree, p)
    requires RebuildOrder(order, WriteBlob(s, p, data).dirty)
    ensures var t := BuildAll(WriteBlob(s, p, data), order);
            p in t.tree && (t.tree[p] == Entry(BlobObject, MODE_FILE, BlobId(data)) <==> p !in s.dirty)
  {
    var t := WriteBlob(s, p, data);
    ParentsDirty(PlaceBlob(Collect(s, BlobId(data)), p, MODE_FILE, BlobId(data)), p);
    AboveIff(p, p);
    NewDirAt(PlaceBlob(Collect(s, BlobId(data)), p, MODE_FILE, BlobId(data)), p, p);
    if p in s.dirty { BuildAllRebuilds(t, order, p); } else { BuildAllLeaves(t, order, p); }
  }

  /** Writing keeps the invariant exactly when the path is not dirty and nothing
      is staged below it: an update does not check that it replaces a file. */
  lemma WriteBlobKeepsIff(s: Stage, p: Path, data: Bytes)
    requires Consistent(s) && p != [] && Unblocked(s.tree, p)
    ensures Consistent(WriteBlob(s, p, data)) <==> p !in s.dirty && NothingBelow(s, p)
  {
    var t := WriteBlob(s, p, data);
    var u := PlaceBlob(Collect(s, BlobId(data)), p, MODE_FILE, BlobId(data));
    ParentsDirty(u, p);
    forall q ensures q in u.tree ==> q in t.tree && t.tree[q] == u.tree[q] { NewDirAt(u, p, q); }
    assert p in t.tree && t.tree[p].kind.BlobObject?;
    if p !in s.dirty && NothingBelow(s, p) { WriteBlobKeeps(s, p, data); }
    if Consistent(t) {
      NothingBelowFile(t, p);
      assert forall q :: q in s.tree || q in s.links ==> q in t.tree || q in t.links;
    }
  }

  /** Renaming a file keeps the invariant exactly when its new path is not dirty. */
  lemma RenameBlobKeepsIff(s: Stage, src: Path, dst: Path)
    requires Consistent(s) && src != [] && dst != []
    requires src in s.tree && s.tree[src].kind.BlobObject?
    requires dst !in s.tree && Unblocked(s.tree, dst)
    ensures Consistent(RenameBlob(s, src, dst)) <==> dst !in s.dirty
  {
    var t := RenameBlob(s, src, dst);
    var u := PlaceBlob(s, dst, s.tree[src].mode, s.tree[src].hash);
    ParentsDirty(u, dst);
    ParentsDirty(DropBlob(AddParents(u, dst), src), src);
    NewDirAt(u, dst, dst);
    assert t.tree[dst].kind.BlobObject?;
    if dst !in s.dirty { RenameBlobKeeps(s, src, dst); }
  }

  // ----- moving a directory

  /** A directory staged since the last commit has no hash yet. Moved to a path
      that is not dirty, it is committed under the zero hash. */
  lemma MovedNewDirectoryStaysZero(s: Stage, src: Path, dst: Path, order: seq<Path>)
    requires Consistent(s) && MoveStarts(s, src, dst) && s.tree[src].hash == Zero
    requires RebuildOrder(order, RenameTree(s, src, dst).dirty)
    ensures dst !in s.dirty ==>
              var t := BuildAll(RenameTree(s, src, dst), order);
              IsDir(t.tree, dst) && t.tree[dst].hash == Zero && Scratch(t, dst) != Zero
  {
    var t := RenameTree(s, src, dst);
    MoveDirty(s, src, dst, dst);
    RenameTreeInside(s, src, dst, dst);
    assert Moved(dst, src, dst) == src;
    if dst !in s.dirty { BuildAllLeaves(t, order, dst); }
  }

  /** Without dirty directories or files on dirty paths the move is always covered. */
  lemma CleanMoveIsCovered(s: Stage, src: Path, dst: Path)
    requires Typed(s) && FreshExcept(s, s.dirty) && MoveStarts(s, src, dst)
    requires forall p :: p in s.tree && Under(src, p) && s.tree[p].kind.TreeObject? ==> p !in s.dirty
    requires forall p :: p in s.tree && Under(src, p) && s.tree[p].kind.BlobObject? ==> Moved(src, dst, p) !in s.dirty
    ensures MoveCovered(s, src, dst)
  {
  }

  // ----- the root entry

  /** Wiping the root leaves an entry for the root itself, which no rebuild
      updates: it is right only while the root stays empty. */
  lemma RootEntryRightIff(s: Stage, order: seq<Path>)
    requires Consistent(s) && RebuildOrder(order, s.dirty)
    requires [] in s.tree && s.tree[[]].hash == EMPTY_TREE
    ensures [] in BuildAll(s, order).tree
    ensures BuildAll(s, order).tree[[]].hash == BuildAll(s, order).root <==> Children(s, []) == map[]
  {
    RebuildIsFromScratch(s, order);
    RootEntryUntouched(s, order);
    ScratchEmptyIff(s, []);
  }

  lemma ScratchEmptyIff(s: Stage, d: Path)
    ensures Scratch(s, d) == EMPTY_TREE <==> Children(s, d) == map[]
  {
    var m := ScratchChildren(s, d);
    assert m.Keys == Children(s, d).Keys;
    if m == map[] {
      CanonicalIsCanon<Hash>([], m);
    } else {
      var n :| n in m;
      assert TreeEntry(m[n].mode, n, m[n].hash) in Canon(m);
    }
  }

  // ----- empty directories

  /** The hash stored for a directory. */
  function StoredHash(s: Stage, d: Path): Hash
    requires d == [] || d in s.tree
  {
    if d == [] then s.root else s.tree[d].hash
  }

  lemma CommittedEmptyIff(w: Writer, text: CommitText, v: Writer, d: Path)
    requires Consistent(w.stage) && Step(w, Commit(text), v) && (d == [] || IsDir(w.stage.tree, d))
    ensures d == [] || IsDir(v.stage.tree, d)
    ensures StoredHash(v.stage, d) == EMPTY_TREE <==> Children(w.stage, d) == map[]
  {
    var order :| RebuildOrder(order, w.stage.dirty) && BuildAll(w.stage, order).pack != {} &&
      v == Committed(w.(stage := BuildAll(w.stage, order).(dirty := {})), text);
    CommittedIsFaithful(w, order, text);
    ScratchEmptyIff(w.stage, d);
  }

  /** Without what is staged at `p`, its directory is empty exactly when that was its
      only child and hid no gitlink that is still cached. */
  lemma LeftEmptyIff(s: Stage, t: Stage, p: Path)
    requires p != [] && p in s.tree && p !in t.tree
    requires forall q :: q != p && IsChild(Parent(p), q) ==> Lookup(t, q) == Lookup(s, q)
    ensures Children(t, Parent(p)) == map[] <==>
            Children(s, Parent(p)).Keys == {p[|p| - 1]} && p !in t.links
  {
    var d, n := Parent(p), p[|p| - 1];
    assert p == d + [n];
    assert Lookup(s, d + [n]).Some?;
    var a, b := Children(s, d), Children(t, d);
    forall k: Name | k != n ensures k in a <==> k in b {
      assert (d + [k])[|d|] != p[|d|];
      assert IsChild(d, d + [k]);
      assert Lookup(t, d + [k]) == Lookup(s, d + [k]);
    }
    assert n in b <==> p in t.links;
    assert b == map[] <==> forall k :: k !in b;
    assert a.Keys == {n} <==> forall k :: k in a ==> k == n;
  }

  lemma RemoveBlobEmptyIff(s: Stage, p: Path)
    requires p != [] && p in s.tree
    ensures Children(RemoveBlob(s, p), Parent(p)) == map[] <==>
            Children(s, Parent(p)).Keys == {p[|p| - 1]} && p !in s.links
    ensures forall d :: d in s.tree && |d| < |p| ==> d in RemoveBlob(s, p).tree && RemoveBlob(s, p).tree[d] == s.tree[d]
  {
    var t := RemoveBlob(s, p);
    assert t.tree == s.tree - {p} && t.links == s.links;
    forall q | q != p && IsChild(Parent(p), q) ensures Lookup(t, q) == Lookup(s, q) {}
    LeftEmptyIff(s, t, p);
  }

  /** A directory from which a file is deleted stays, and is committed as the empty
      tree exactly when the file was its only child and hid no gitlink. */
  lemma DeleteBlobLeavesEmptyIff(w: Writer, p: Path, u: Writer, text: CommitText, v: Writer)
    requires Consistent(w.stage) && Step(w, DeleteBlob(p), u) && Step(u, Commit(text), v)
    ensures Parent(p) == [] || IsDir(v.stage.tree, Parent(p))
    ensures StoredHash(v.stage, Parent(p)) == EMPTY_TREE <==>
            Children(w.stage, Parent(p)).Keys == {p[|p| - 1]} && p !in w.stage.links
  {
    RemoveBlobKeeps(w.stage, p);
    RemoveBlobEmptyIff(w.stage, p);
    assert HasParents(w.stage.tree, p);
    CommittedEmptyIff(u, text, v, Parent(p));
  }

  lemma RemoveTreeEmptyIff(s: Stage, p: Path)
    requires p != [] && p in s.tree
    ensures Children(RemoveTree(s, p), Parent(p)) == map[] <==> Children(s, Parent(p)).Keys == {p[|p| - 1]}
    ensures forall d :: d in s.tree && |d| < |p| ==> d in RemoveTree(s, p).tree && RemoveTree(s, p).tree[d] == s.tree[d]
  {
    var t := RemoveTree(s, p);
    forall q | q != p && IsChild(Parent(p), q) ensures Lookup(t, q) == Lookup(s, q) {
      assert |q| == |p| && !Under(p, q);
    }
    LeftEmptyIff(s, t, p);
  }

  /** The same for a deleted directory, which takes the gitlinks it hid with it. */
  lemma DeleteTreeLeavesEmptyIff(w: Writer, p: Path, u: Writer, text: CommitText, v: Writer)
    requires Consistent(w.stage) && p != [] && Step(w, DeleteTree(p), u) && Step(u, Commit(text), v)
    ensures Parent(p) == [] || IsDir(v.stage.tree, Parent(p))
    ensures StoredHash(v.stage, Parent(p)) == EMPTY_TREE <==> Children(w.stage, Parent(p)).Keys == {p[|p| - 1]}
  {
    RemoveTreeKeeps(w.stage, p);
    RemoveTreeEmptyIff(w.stage, p);
    assert HasParents(w.stage.tree, p);
    CommittedEmptyIff(u, text, v, Parent(p));
  }

  lemma {:induction false} RootEntryUntouched(s: Stage, order: seq<Path>)
    requires [] in s.tree
    ensures [] in BuildAll(s, order).tree && BuildAll(s, order).tree[[]] == s.tree[[]]
    decreases |order|
  {
    if order != [] { RootEntryUntouched(BuildOne(s, order[0]), order[1..]); }
  }

  // ----- pushing

  /** The objects that would be lost with the pack. */
  function OnlyPacked(w: Writer): set<Hash> {
    w.stage.pack - w.remote
  }

  /** A push the remote accepts keeps the writer sound exactly when the pack holds
      a commit, or neither the root nor anything staged is only in the pack. */
  lemma PushKeepsSoundIff(w: Writer, v: Writer, accepted: bool)
    requires Sound(w) && Step(w, Push(accepted), v)
    ensures Sound(v) <==>
            w.hasCommit ||
            (w.stage.root !in OnlyPacked(w) &&
             forall p :: p in w.stage.tree ==> w.stage.tree[p].hash !in OnlyPacked(w))
  {
    PruningChangesNothing(w.stage);
    if w.hasCommit {
      PushKeepsSound(w, v, accepted);
    } else {
      assert v.Available() == v.remote == w.remote;
      assert forall h :: AllStored(h, w.Available()) ==> h in OnlyPacked(w) || AllStored(h, w.remote);
    }
  }

  /** A stored root tree stores every staged file, at any depth. */
  lemma {:induction false} RootStoresEveryFile(s: Stage, objects: set<Hash>, p: Path)
    requires Typed(s) && Rooted(s) && FreshExcept(s, {}) && AllStored(s.root, objects)
    requires p in s.tree && p != []
    ensures AllStored(s.tree[p].hash, objects)
    decreases |p|
  {
    var d, n := Parent(p), p[|p| - 1];
    assert p == d + [n];
    if d != [] {
      assert HasParents(s.tree, p);
      assert IsDir(s.tree, p[..|d|]);
      RootStoresEveryFile(s, objects, d);
    }
    assert Fresh(s, d);
    ListedChild(s, d, n);
  }

  /** Once a staged file's content is lost, the next commit is not self-contained. */
  lemma LostFileBreaksNextCommit(w: Writer, text: CommitText, v: Writer, p: Path)
    requires Consistent(w.stage) && Step(w, Commit(text), v)
    requires p in w.stage.tree && p != [] && w.stage.tree[p].kind.BlobObject?
    requires w.stage.tree[p].hash.BlobId? && w.stage.tree[p].hash !in w.Available()
    ensures v.lastCommit.CommitId? && !AllStored(v.lastCommit.tree, v.Available())
  {
    var s := w.stage;
    var order :| RebuildOrder(order, s.dirty) && BuildAll(s, order).pack != {} &&
      v == Committed(w.(stage := BuildAll(s, order).(dirty := {})), text);
    var t := BuildAll(s, order).(dirty := {});
    LostAfterRebuild(s, order, p, w.remote);
    assert v.lastCommit.tree == t.root && v.Available() <= (w.remote + t.pack) + {v.lastCommit};
    if AllStored(t.root, v.Available()) { RootStoresEveryFile(t, v.Available(), p); }
  }

  lemma LostAfterRebuild(s: Stage, order: seq<Path>, p: Path, remote: set<Hash>)
    requires Consistent(s) && RebuildOrder(order, s.dirty)
    requires p in s.tree && s.tree[p].kind.BlobObject? && s.tree[p].hash.BlobId? && s.tree[p].hash !in remote + s.pack
    ensures var t := BuildAll(s, order).(dirty := {});
            Typed(t) && Rooted(t) && FreshExcept(t, {}) && p in t.tree && t.tree[p] == s.tree[p] &&
            s.tree[p].hash !in remote + t.pack
  {
    RebuildIsFromScratch(s, order);
    BuildAllLeaves(s, order, p);
    BuildAllPacksNoBlob(s, order);
  }

  lemma {:induction false} BuildAllPacksNoBlob(s: Stage, order: seq<Path>)
    ensures forall h :: h in BuildAll(s, order).pack && h !in s.pack ==> h.TreeId?
    decreases |order|
  {
    if order != [] { BuildAllPacksNoBlob(BuildOne(s, order[0]), order[1..]); }
  }
}
