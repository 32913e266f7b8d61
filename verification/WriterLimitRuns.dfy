/** Runs from a sound writer that reach the limits: calls that all succeed, and
    what they commit. */
module WriterLimitRuns {
  import opened GitTypes
  import opened Sorting
  import opened TreeOrder
  import opened StagedTree
  import opened StagedInvariant
  import opened StagedMaps
  import opened StagedSteps
  import opened StagedMove
  import opened StagedRebuild
  import opened WriterRuns
  import opened WriterLimits

  /** Once something is packed, a commit succeeds. */
  lemma CommitPossible(w: Writer, text: CommitText) returns (v: Writer)
    requires w.stage.pack != {}
    ensures Step(w, Commit(text), v)
  {
    var s := w.stage;
    var order := SomeRebuildOrder(s.dirty);
    BuildAllPacksTrees(s, order);
    v := Committed(w.(stage := BuildAll(s, order).(dirty := {})), text);
  }

  lemma SomeRebuildOrder(dirty: set<Path>) returns (order: seq<Path>)
    ensures RebuildOrder(order, dirty)
  {
    var listed := SomeListing(dirty);
    order := Sort(RebuiltBefore, listed);
    RebuiltBeforeIsOrder();
    SortOrders(RebuiltBefore, listed);
    forall p ensures p in order <==> p in dirty { SameElements(order, listed, p); }
  }

  // ----- where the runs start

  /** A new repository: one commit of the empty tree. */
  function Start(text: CommitText): Writer {
    var c := CommitId(EMPTY_TREE, Zero, text);
    Writer(Stage(map[], map[], {}, EMPTY_TREE, {}), c, false, Zero, c, c, {EMPTY_TREE, c})
  }

  lemma StartIsSound(text: CommitText)
    ensures Sound(Start(text))
  {
    var s := Start(text).stage;
    assert Children(s, []) == map[] by {
      forall n: Name ensures n !in Children(s, []) { assert [] + [n] !in s.tree; }
    }
    CanonicalIsCanon<Hash>([], map[]);
    assert Fresh(s, []);
    assert Start(text).Available() == Start(text).remote;
  }

  /** Nothing is, or recently was, staged at a top-level name. */
  ghost predicate Unused(s: Stage, n: Name) {
    [n] !in s.tree && [n] !in s.dirty
  }

  // ----- steps of the runs

  lemma ParentsAtTop(n: Name)
    ensures Above([n]) == {[]}
  {
    assert [n][..0] == [];
  }

  /** What creating `a/b` makes of a stage with nothing at `a`. */
  lemma WriteInNewDirectory(s: Stage, a: Name, b: Name, x: Bytes)
    requires Rooted(s) && [a] !in s.tree
    ensures [a, b] !in s.tree && Unblocked(s.tree, [a, b])
    ensures var t := WriteBlob(s, [a, b], x);
            t.tree == s.tree[[a] := NEW_DIRECTORY][[a, b] := Entry(BlobObject, MODE_FILE, BlobId(x))] &&
            t.dirty == s.dirty + {[], [a]}
  {
    var p := [a, b];
    assert p[..0] == [] && p[..1] == [a];
    NothingBelowFile(s, [a]);
    assert Under([a], p);
    var u := PlaceBlob(Collect(s, BlobId(x)), p, MODE_FILE, BlobId(x));
    ParentsDirty(u, p);
    assert Above(p) == {[], [a]};
    var t := WriteBlob(s, p, x);
    var want := s.tree[[a] := NEW_DIRECTORY][p := Entry(BlobObject, MODE_FILE, BlobId(x))];
    forall q ensures At(t.tree, q) == At(want, q) {
      NewDirAt(u, p, q);
      if |q| == 1 && p[..1] == q { assert q == [a]; }
    }
    SameAt(t.tree, want);
  }

  /** What creating a top-level file makes of any stage. */
  lemma WriteAtTop(s: Stage, a: Name, x: Bytes)
    ensures Unblocked(s.tree, [a])
    ensures var t := WriteBlob(s, [a], x);
            t.tree == s.tree[[a] := Entry(BlobObject, MODE_FILE, BlobId(x))] && t.dirty == s.dirty + {[]}
  {
    ParentsAtTop(a);
    ParentsDirty(PlaceBlob(Collect(s, BlobId(x)), [a], MODE_FILE, BlobId(x)), [a]);
  }

  /** What deleting a top-level directory makes of any stage. */
  lemma DeleteAtTop(s: Stage, a: Name)
    ensures HasParents(s.tree, [a])
    ensures RemoveTree(s, [a]).tree == Outside(s.tree, [a]) && RemoveTree(s, [a]).dirty == s.dirty + {[]}
  {
    ParentsAtTop(a);
    ParentsDirty(DropTree(s, [a]), [a]);
  }

  /** What moving a top-level directory to a free top-level name makes of a stage. */
  lemma MoveAtTop(s: Stage, a: Name, c: Name)
    requires Rooted(s) && IsDir(s.tree, [a]) && [c] !in s.tree && a != c
    ensures MoveStarts(s, [a], [c]) && NoOverlap(s.links, [a], [c])
    ensures var t := RenameTree(s, [a], [c]);
            [c] in t.tree && t.tree[[c]] == s.tree[[a]] && t.dirty == s.dirty + {[]}
  {
    forall p | Under([a], p) ensures !Under([a], Moved([a], [c], p)) { assert Moved([a], [c], p)[0] == c; }
    assert Moved([c], [a], [c]) == [a];
    RenameTreeInside(s, [a], [c], [c]);
    MoveDirties(s, [a], [c]);
    ParentsAtTop(a);
    ParentsAtTop(c);
  }

  /** Creating `a/b` in a new directory keeps the writer sound. */
  lemma CreateInNewDirectory(w: Writer, a: Name, b: Name, x: Bytes) returns (v: Writer)
    requires Sound(w) && Unused(w.stage, a)
    ensures Step(w, CreateBlob([a, b], x), v) && Sound(v) && v == w.(stage := WriteBlob(w.stage, [a, b], x))
  {
    v := w.(stage := WriteBlob(w.stage, [a, b], x));
    WriteInNewDirectory(w.stage, a, b, x);
    assert [a, b][..1] == [a];
    StepKeepsSound(w, CreateBlob([a, b], x), v);
  }

  // ----- the runs

  ghost predicate CommitsTreeAsFile(c: Hash, n: Name) {
    c.CommitId? && c.tree.TreeId? && exists h: Hash :: h.TreeId? && TreeEntry(MODE_FILE, n, h) in c.tree.entries
  }

  /** A directory is created and deleted, and a file takes its place: the commit
      lists that file under a tree's hash. */
  lemma RecreatedPathIsCorrupted(w: Writer, a: Name, b: Name, x: Bytes, y: Bytes, text: CommitText)
    returns (w1: Writer, w2: Writer, w3: Writer, w4: Writer)
    requires Sound(w) && Unused(w.stage, a)
    ensures Step(w, CreateBlob([a, b], x), w1) && Step(w1, DeleteTree([a]), w2)
    ensures Step(w2, CreateBlob([a], y), w3) && Step(w3, Commit(text), w4)
    ensures CommitsTreeAsFile(w4.lastCommit, a)
  {
    w1, w2, w3 := Recreate(w, a, b, x, y);
    w4 := CommitPossible(w3, text);
    DirtyFileIsCommittedAsTree(w3, text, w4, a);
  }

  lemma Recreate(w: Writer, a: Name, b: Name, x: Bytes, y: Bytes) returns (w1: Writer, w2: Writer, w3: Writer)
    requires Rooted(w.stage) && [a] !in w.stage.tree
    ensures Step(w, CreateBlob([a, b], x), w1) && Step(w1, DeleteTree([a]), w2) && Step(w2, CreateBlob([a], y), w3)
    ensures w3.stage.dirty >= {[], [a]} && w3.stage.pack != {}
    ensures [a] in w3.stage.tree && w3.stage.tree[[a]].mode == MODE_FILE
  {
    var s := w.stage;
    var s1 := WriteBlob(s, [a, b], x);
    var s2 := RemoveTree(s1, [a]);
    var s3 := WriteBlob(s2, [a], y);
    WriteInNewDirectory(s, a, b, x);
    DeleteAtTop(s1, a);
    WriteAtTop(s2, a, y);
    assert BlobId(y) in s3.pack;
    w1, w2, w3 := w.(stage := s1), w.(stage := s2), w.(stage := s3);
  }

  /** The same with a file that is moved there. */
  lemma MovedFileIsCorrupted(w: Writer, a: Name, b: Name, c: Name, x: Bytes, y: Bytes, text: CommitText)
    returns (w1: Writer, w2: Writer, w3: Writer, w4: Writer, w5: Writer)
    requires Sound(w) && Unused(w.stage, a) && Unused(w.stage, c) && a != c
    ensures Step(w, CreateBlob([a, b], x), w1) && Step(w1, CreateBlob([c], y), w2)
    ensures Step(w2, DeleteTree([a]), w3) && Step(w3, MoveBlob([c], [a]), w4) && Step(w4, Commit(text), w5)
    ensures CommitsTreeAsFile(w5.lastCommit, a)
  {
    w1, w2, w3, w4 := MoveOverDeleted(w, a, b, c, x, y);
    w5 := CommitPossible(w4, text);
    DirtyFileIsCommittedAsTree(w4, text, w5, a);
  }

  lemma MoveOverDeleted(w: Writer, a: Name, b: Name, c: Name, x: Bytes, y: Bytes)
    returns (w1: Writer, w2: Writer, w3: Writer, w4: Writer)
    requires Rooted(w.stage) && [a] !in w.stage.tree && [c] !in w.stage.tree && a != c
    ensures Step(w, CreateBlob([a, b], x), w1) && Step(w1, CreateBlob([c], y), w2)
    ensures Step(w2, DeleteTree([a]), w3) && Step(w3, MoveBlob([c], [a]), w4)
    ensures w4.stage.dirty >= {[], [a]} && w4.stage.pack != {}
    ensures [a] in w4.stage.tree && w4.stage.tree[[a]].mode == MODE_FILE
  {
    w1 := w.(stage := WriteBlob(w.stage, [a, b], x));
    w2 := w.(stage := WriteBlob(w1.stage, [c], y));
    WriteInNewDirectory(w.stage, a, b, x);
    WriteAtTop(w1.stage, c, y);
    assert [c][0] != [a][0];
    assert BlobId(y) in w2.stage.pack;
    w3, w4 := DeleteAndMove(w2, a, c);
  }

  lemma DeleteAndMove(w: Writer, a: Name, c: Name) returns (w1: Writer, w2: Writer)
    requires IsDir(w.stage.tree, [a]) && [c] in w.stage.tree && a != c
    requires w.stage.tree[[c]].kind.BlobObject? && w.stage.tree[[c]].mode == MODE_FILE
    ensures Step(w, DeleteTree([a]), w1) && Step(w1, MoveBlob([c], [a]), w2)
    ensures w2.stage.dirty >= w.stage.dirty && w2.stage.pack == w.stage.pack
    ensures [a] in w2.stage.tree && w2.stage.tree[[a]].mode == MODE_FILE
  {
    w1 := w.(stage := RemoveTree(w.stage, [a]));
    DeleteAtTop(w.stage, a);
    assert [c][0] != [a][0];
    w2 := w.(stage := RenameBlob(w1.stage, [c], [a]));
    MoveFileAtTop(w1.stage, c, a);
  }

  lemma MoveFileAtTop(s: Stage, c: Name, a: Name)
    requires [c] in s.tree && a != c
    ensures Unblocked(s.tree, [a])
    ensures var t := RenameBlob(s, [c], [a]);
            t.dirty == s.dirty + {[]} && t.pack == s.pack &&
            [a] in t.tree && t.tree[[a]] == Entry(BlobObject, s.tree[[c]].mode, s.tree[[c]].hash)
  {
    var u := PlaceBlob(s, [a], s.tree[[c]].mode, s.tree[[c]].hash);
    ParentsAtTop(a);
    ParentsAtTop(c);
    ParentsDirty(u, [a]);
    ParentsDirty(DropBlob(AddParents(u, [a]), [c]), [c]);
    NewDirAt(u, [a], [a]);
  }

  /** A new directory is moved before it was committed: it is committed as zero. */
  lemma MovedNewDirectoryIsZero(w: Writer, a: Name, b: Name, c: Name, x: Bytes, text: CommitText)
    returns (w1: Writer, w2: Writer, w3: Writer)
    requires Sound(w) && Unused(w.stage, a) && Unused(w.stage, c) && a != c
    ensures Step(w, CreateBlob([a, b], x), w1) && Step(w1, MoveTree([a], [c]), w2) && Step(w2, Commit(text), w3)
    ensures var h := w3.lastCommit;
            h.CommitId? && h.tree.TreeId? && TreeEntry(MODE_TREE, c, Zero) in h.tree.entries
  {
    w1 := CreateInNewDirectory(w, a, b, x);
    WriteInNewDirectory(w.stage, a, b, x);
    w2 := MoveNewDirectory(w1, a, c);
    w3 := CommitPossible(w2, text);
    CleanEntryIsCommitted(w2, text, w3, c);
  }

  lemma MoveNewDirectory(w: Writer, a: Name, c: Name) returns (v: Writer)
    requires Rooted(w.stage) && IsDir(w.stage.tree, [a]) && [c] !in w.stage.tree && a != c
    ensures Step(w, MoveTree([a], [c]), v) && v.stage.pack == w.stage.pack
    ensures [c] in v.stage.tree && v.stage.tree[[c]] == w.stage.tree[[a]] && v.stage.dirty == w.stage.dirty + {[]}
  {
    MoveAtTop(w.stage, a, c);
    RenameIsMoveStep(w, [a], [c]);
    v := w.(stage := RenameTree(w.stage, [a], [c]));
  }

  /** Without gitlinks in each other's way, the relocation is a successful move. */
  lemma RenameIsMoveStep(w: Writer, src: Path, dst: Path)
    requires Rooted(w.stage) && MoveStarts(w.stage, src, dst) && NoOverlap(w.stage.links, src, dst)
    ensures Step(w, MoveTree(src, dst), w.(stage := RenameTree(w.stage, src, dst)))
  {
    var s := w.stage;
    var entries := SomeListing(set p | p in s.tree && Under(src, p));
    var links := SomeListing(set p | p in s.links && Under(src, p));
    var u := s.(tree := MovedOver(s.tree, src, dst, entries), links := Reparented(s.links, src, dst, links));
    assert ShiftedBy(s, src, dst, entries, links, u);
    NothingBelowFile(s, dst);
    ShiftedIsShiftTree(s, src, dst, u);
  }

  /** The root is wiped and a file created: the entry kept for the root is stale. */
  lemma WipedRootEntryIsStale(w: Writer, a: Name, x: Bytes, text: CommitText)
    returns (w1: Writer, w2: Writer, w3: Writer)
    requires Sound(w)
    ensures Step(w, DeleteTree([]), w1) && Step(w1, CreateBlob([a], x), w2) && Step(w2, Commit(text), w3)
    ensures [] in w3.stage.tree && w3.stage.tree[[]].hash == EMPTY_TREE
    ensures w3.lastCommit.CommitId? && w3.lastCommit.tree != EMPTY_TREE
  {
    w1 := w.(stage := WipeTree(w.stage));
    w2 := w.(stage := WriteBlob(w1.stage, [a], x));
    WriteAtTop(w1.stage, a, x);
    assert BlobId(x) in w2.stage.pack;
    w3 := CommitPossible(w2, text);
    CommitLeavesRootEntry(w2, text, w3);
    CleanEntryIsCommitted(w2, text, w3, a);
  }

  lemma CommitLeavesRootEntry(w: Writer, text: CommitText, v: Writer)
    requires Step(w, Commit(text), v) && [] in w.stage.tree
    ensures [] in v.stage.tree && v.stage.tree[[]] == w.stage.tree[[]]
  {
    var order :| RebuildOrder(order, w.stage.dirty) && BuildAll(w.stage, order).pack != {} &&
      v == Committed(w.(stage := BuildAll(w.stage, order).(dirty := {})), text);
    RootEntryUntouched(w.stage, order);
  }

  /** A committed directory is updated as if it were a file: the file below it stays
      staged, under a path whose parent is no directory. */
  lemma UpdatedDirectoryKeepsItsFiles(w: Writer, a: Name, b: Name, x: Bytes, y: Bytes, text: CommitText)
    returns (w1: Writer, w2: Writer, w3: Writer)
    requires Sound(w) && Unused(w.stage, a)
    ensures Step(w, CreateBlob([a, b], x), w1) && Step(w1, Commit(text), w2) && Step(w2, UpdateBlob([a], y), w3)
    ensures [a] !in w2.stage.dirty && !Consistent(w3.stage)
    ensures [a, b] in w3.stage.tree && !IsDir(w3.stage.tree, [a])
  {
    w1, w2 := CommitNewDirectory(w, a, b, x, text);
    w3 := UpdateDirectory(w2, a, b, y);
  }

  lemma CommitNewDirectory(w: Writer, a: Name, b: Name, x: Bytes, text: CommitText) returns (w1: Writer, w2: Writer)
    requires Sound(w) && Unused(w.stage, a)
    ensures Step(w, CreateBlob([a, b], x), w1) && Step(w1, Commit(text), w2)
    ensures w2.stage.dirty == {} && [a] in w2.stage.tree && [a, b] in w2.stage.tree
  {
    w1 := CreateInNewDirectory(w, a, b, x);
    WriteInNewDirectory(w.stage, a, b, x);
    assert BlobId(x) in w1.stage.pack;
    w2 := CommitPossible(w1, text);
    CommitKeepsSound(w1, text, w2);
  }

  lemma UpdateDirectory(w: Writer, a: Name, b: Name, y: Bytes) returns (v: Writer)
    requires [a] in w.stage.tree && [a, b] in w.stage.tree
    ensures Step(w, UpdateBlob([a], y), v)
    ensures [a, b] in v.stage.tree && !IsDir(v.stage.tree, [a]) && !Consistent(v.stage)
  {
    v := w.(stage := WriteBlob(w.stage, [a], y));
    WriteAtTop(w.stage, a, y);
    assert [a, b][..1] == [a];
    assert !HasParents(v.stage.tree, [a, b]);
  }

  /** A file is created and pushed without a commit, the remote accepts the empty
      request, another file is created and committed: the commit's tree is not stored. */
  lemma CommitlessPushLosesFile(w: Writer, a: Name, b: Name, x: Bytes, y: Bytes, text: CommitText)
    returns (w1: Writer, w2: Writer, w3: Writer, w4: Writer)
    requires Sound(w) && !w.hasCommit && BlobId(x) !in w.remote && a != b && x != y
    requires Unused(w.stage, a) && Unused(w.stage, b)
    ensures Step(w, CreateBlob([a], x), w1) && Step(w1, Push(true), w2)
    ensures Step(w2, CreateBlob([b], y), w3) && Step(w3, Commit(text), w4)
    ensures w4.lastCommit.CommitId? && !AllStored(w4.lastCommit.tree, w4.Available())
  {
    w1, w2, w3 := LoseFile(w, a, b, x, y);
    w4 := CommitPossible(w3, text);
    LostFileBreaksNextCommit(w3, text, w4, [a]);
  }

  lemma LoseFile(w: Writer, a: Name, b: Name, x: Bytes, y: Bytes) returns (w1: Writer, w2: Writer, w3: Writer)
    requires Consistent(w.stage) && !w.hasCommit && BlobId(x) !in w.remote && a != b && x != y
    requires Unused(w.stage, a) && Unused(w.stage, b)
    ensures Step(w, CreateBlob([a], x), w1) && Step(w1, Push(true), w2) && Step(w2, CreateBlob([b], y), w3)
    ensures Consistent(w3.stage) && w3.stage.pack != {}
    ensures [a] in w3.stage.tree && w3.stage.tree[[a]].kind.BlobObject? && w3.stage.tree[[a]].hash == BlobId(x)
    ensures BlobId(x) !in w3.Available()
  {
    w1 := w.(stage := WriteBlob(w.stage, [a], x));
    WriteAtTop(w.stage, a, x);
    NothingBelowFile(w.stage, [a]);
    WriteBlobKeeps(w.stage, [a], x);
    assert BlobId(x) in w1.stage.pack;
    w2 := Pushed(w1);
    PruningChangesNothing(w1.stage);
    w3 := w2.(stage := WriteBlob(w2.stage, [b], y));
    WriteAtTop(w2.stage, b, y);
    NothingBelowFile(w2.stage, [b]);
    WriteBlobKeeps(w2.stage, [b], y);
    assert w3.stage.pack == {BlobId(y)};
  }

  // ----- gitlinks in each other's way

  /** The cached gitlinks `a`, shadowed by a directory, and `c/b`, below the directory `c`. */
  ghost predicate TwoGitlinks(s: Stage, a: Name, b: Name, c: Name, g: Entry, h: Entry) {
    && s.links == map[[a] := g, [c, b] := h] && s.dirty == {}
    && [a] !in s.tree && IsDir(s.tree, [c]) && [c, b] !in s.tree && a != c
  }

  /** There is a sound writer with such gitlinks: a commit of them. */
  lemma StartWithGitlinks(a: Name, b: Name, c: Name, g: Hash, h: Hash, text: CommitText) returns (w: Writer)
    requires a != c
    ensures Sound(w) && TwoGitlinks(w.stage, a, b, c, Gitlink(g), Gitlink(h))
  {
    var s := Unbuilt(a, b, c, g, h);
    var first := Start(text).(stage := s);
    StartUnbuilt(a, b, c, g, h, text);
    var order := SomeRebuildOrder(s.dirty);
    RebuildKeepsSound(first, order);
    BuildKeepsGitlinks(s, order, a, b, c, g, h);
    w := first.(stage := BuildAll(s, order).(dirty := {}));
  }

  function Gitlink(h: Hash): Entry { Entry(CommitObject, MODE_GITLINK, h) }

  /** Such gitlinks before anything is built. */
  function Unbuilt(a: Name, b: Name, c: Name, g: Hash, h: Hash): Stage {
    Stage(map[[c] := NEW_DIRECTORY], map[[a] := Gitlink(g), [c, b] := Gitlink(h)], {[], [c]}, EMPTY_TREE, {})
  }

  lemma UnbuiltIsConsistent(a: Name, b: Name, c: Name, g: Hash, h: Hash)
    ensures Consistent(Unbuilt(a, b, c, g, h))
  {
    assert [c, b][..1] == [c] && [c][..0] == [] && [c][..1] == [c];
  }

  lemma StartUnbuilt(a: Name, b: Name, c: Name, g: Hash, h: Hash, text: CommitText)
    ensures Sound(Start(text).(stage := Unbuilt(a, b, c, g, h)))
  {
    StartIsSound(text);
    UnbuiltIsConsistent(a, b, c, g, h);
    var first := Start(text).(stage := Unbuilt(a, b, c, g, h));
    assert first.Available() == Start(text).Available();
  }

  lemma BuildKeepsGitlinks(s: Stage, order: seq<Path>, a: Name, b: Name, c: Name, g: Hash, h: Hash)
    requires s == Unbuilt(a, b, c, g, h) && RebuildOrder(order, s.dirty) && a != c
    ensures TwoGitlinks(BuildAll(s, order).(dirty := {}), a, b, c, Gitlink(g), Gitlink(h))
  {
    UnbuiltIsConsistent(a, b, c, g, h);
    RebuildIsFromScratch(s, order);
    assert [c] in s.tree;
  }

  /** Creating `a/n`, moving `c` to `a/c` and committing leaves a cache in which
      moving `a` to `a/c/b` gives one result or another, as the map's order has it: a
      submodule at `a/c/b/c/b` that names one commit or the other. */
  lemma MapOrderShowsInTree(w: Writer, a: Name, b: Name, c: Name, n: Name, g: Entry, h: Entry, x: Bytes,
                            text: CommitText)
    returns (w1: Writer, w2: Writer, w3: Writer, v: Writer, v': Writer)
    requires Sound(w) && TwoGitlinks(w.stage, a, b, c, g, h) && n != c
    ensures Step(w, CreateBlob([a, n], x), w1) && Step(w1, MoveTree([c], [a, c]), w2) && Step(w2, Commit(text), w3)
    ensures Step(w3, MoveTree([a], [a, c, b]), v) && Step(w3, MoveTree([a], [a, c, b]), v')
    ensures Sound(w3) && Lookup(v.stage, [a, c, b, c, b]) == Some(LinkOf(g))
    ensures Lookup(v'.stage, [a, c, b, c, b]) == Some(LinkOf(h))
  {
    w1, w2, w3 := CommitMovedGitlinks(w, a, b, c, n, g, h, x, text);
    MovedIntoItself(a, b, c);
    v, v' := GitlinkOrderShows(w3, [a], [a, c, b], g, h);
  }

  lemma MovedIntoItself(a: Name, b: Name, c: Name)
    ensures Under([a], [a, c, b]) && Moved([a], [a, c, b], [a, c, b]) == [a, c, b, c, b]
  {
    assert [a, c, b][..1] == [a];
  }

  lemma CommitMovedGitlinks(w: Writer, a: Name, b: Name, c: Name, n: Name, g: Entry, h: Entry, x: Bytes,
                            text: CommitText)
    returns (w1: Writer, w2: Writer, w3: Writer)
    requires Sound(w) && TwoGitlinks(w.stage, a, b, c, g, h) && n != c
    ensures Step(w, CreateBlob([a, n], x), w1) && Step(w1, MoveTree([c], [a, c]), w2) && Step(w2, Commit(text), w3)
    ensures Sound(w3) && MoveStarts(w3.stage, [a], [a, c, b]) && w3.stage.links == map[[a] := g, [a, c, b] := h]
  {
    w1 := CreateBesideGitlinks(w, a, b, c, n, g, h, x);
    w2 := MoveIntoNew(w1, a, b, c, g, h);
    w3 := CommitPossible(w2, text);
    CommitKeepsSound(w2, text, w3);
    GitlinksKept(w2.stage, w3.stage, a, b, c);
  }

  lemma CreateBesideGitlinks(w: Writer, a: Name, b: Name, c: Name, n: Name, g: Entry, h: Entry, x: Bytes)
    returns (v: Writer)
    requires Sound(w) && TwoGitlinks(w.stage, a, b, c, g, h) && n != c
    ensures Step(w, CreateBlob([a, n], x), v) && Sound(v)
    ensures v.stage.links == map[[a] := g, [c, b] := h] && v.stage.dirty == {[], [a]} && v.stage.pack != {}
    ensures IsDir(v.stage.tree, [a]) && IsDir(v.stage.tree, [c]) && [c, b] !in v.stage.tree && [a, c] !in v.stage.tree
  {
    v := CreateInNewDirectory(w, a, n, x);
    WriteBesideGitlinks(w.stage, a, b, c, n, g, h, x);
  }

  lemma WriteBesideGitlinks(s: Stage, a: Name, b: Name, c: Name, n: Name, g: Entry, h: Entry, x: Bytes)
    requires Rooted(s) && TwoGitlinks(s, a, b, c, g, h) && n != c
    ensures var t := WriteBlob(s, [a, n], x);
            t.links == s.links && t.dirty == {[], [a]} && t.pack != {} &&
            IsDir(t.tree, [a]) && IsDir(t.tree, [c]) && [c, b] !in t.tree && [a, c] !in t.tree
  {
    WriteInNewDirectory(s, a, n, x);
    WriteInNewDirectory(s, a, c, x);
    assert BlobId(x) in WriteBlob(s, [a, n], x).pack;
    assert [a, n][1] != [a, c][1] && [a, n][0] != [c, b][0];
  }

  lemma MoveIntoNew(w: Writer, a: Name, b: Name, c: Name, g: Entry, h: Entry) returns (v: Writer)
    requires Sound(w) && w.stage.links == map[[a] := g, [c, b] := h] && w.stage.dirty == {[], [a]} && w.stage.pack != {}
    requires IsDir(w.stage.tree, [a]) && IsDir(w.stage.tree, [c]) && [c, b] !in w.stage.tree
    requires [a, c] !in w.stage.tree && a != c
    ensures Step(w, MoveTree([c], [a, c]), v) && Sound(v) && v.stage.pack != {}
    ensures v.stage.links == map[[a] := g, [a, c, b] := h]
    ensures IsDir(v.stage.tree, [a]) && [a, c, b] !in v.stage.tree
  {
    MoveUnder(w.stage, a, c);
    RenameIsMoveStep(w, [c], [a, c]);
    v := w.(stage := RenameTree(w.stage, [c], [a, c]));
    StepKeepsSound(w, MoveTree([c], [a, c]), v);
    AfterMoveUnder(w.stage, a, b, c, g, h);
  }

  lemma AfterMoveUnder(s: Stage, a: Name, b: Name, c: Name, g: Entry, h: Entry)
    requires Rooted(s) && MoveStarts(s, [c], [a, c]) && s.links == map[[a] := g, [c, b] := h]
    requires IsDir(s.tree, [a]) && [c, b] !in s.tree && a != c
    ensures var t := RenameTree(s, [c], [a, c]);
            t.links == map[[a] := g, [a, c, b] := h] && t.pack == s.pack && IsDir(t.tree, [a]) && [a, c, b] !in t.tree
  {
    MovedGitlinks(s.links, a, b, c, g, h);
    assert Moved([a, c], [c], [a, c, b]) == [c, b] && [a, c, b][..2] == [a, c] && [a][0] != [c][0];
    RenameTreeInside(s, [c], [a, c], [a, c, b]);
    RenameTreeOutside(s, [c], [a, c], [a]);
  }

  lemma MoveUnder(s: Stage, a: Name, c: Name)
    requires Typed(s) && FreshExcept(s, s.dirty) && s.dirty == {[], [a]} && a != c
    requires IsDir(s.tree, [a]) && IsDir(s.tree, [c]) && [a, c] !in s.tree
    ensures MoveStarts(s, [c], [a, c]) && NoOverlap(s.links, [c], [a, c]) && MoveCovered(s, [c], [a, c])
  {
    MoveUnderStarts(s, a, c);
    MovedUnder(a, c);
    MoveUnderCovered(s, a, c);
  }

  lemma MoveUnderCovered(s: Stage, a: Name, c: Name)
    requires Typed(s) && FreshExcept(s, s.dirty) && s.dirty == {[], [a]} && a != c && MoveStarts(s, [c], [a, c])
    ensures MoveCovered(s, [c], [a, c])
  {
    MovedUnder(a, c);
    forall p | p in s.tree && Under([c], p) ensures p !in s.dirty && Moved([c], [a, c], p) !in s.dirty {
      assert p[0] == c;
    }
    CleanMoveIsCovered(s, [c], [a, c]);
  }

  lemma MoveUnderStarts(s: Stage, a: Name, c: Name)
    requires IsDir(s.tree, [a]) && IsDir(s.tree, [c]) && [a, c] !in s.tree && a != c
    ensures MoveStarts(s, [c], [a, c])
  {
    var t := ShiftTree(s, [c], [a, c]).tree;
    assert [a, c][..1] == [a] && [a][0] != [c][0];
    RelocatedAt(s.tree, [c], [a, c], [a]);
    assert [a] in t && t[[a]] == s.tree[[a]];
  }

  /** What moves from `c` to `a/c` ends up two levels deep, below `a`. */
  lemma MovedUnder(a: Name, c: Name)
    requires a != c
    ensures forall p :: Under([c], p) ==>
              Moved([c], [a, c], p) !in {[], [a]} && !Under([c], Moved([c], [a, c], p))
  {
    forall p | Under([c], p)
      ensures Moved([c], [a, c], p) !in {[], [a]} && !Under([c], Moved([c], [a, c], p))
    {
      assert Moved([c], [a, c], p)[0] == a;
    }
  }

  lemma MovedGitlinks(m: Entries, a: Name, b: Name, c: Name, g: Entry, h: Entry)
    requires m == map[[a] := g, [c, b] := h] && a != c
    ensures Outside(m, [c]) + Relocated(m, [c], [a, c]) == map[[a] := g, [a, c, b] := h]
  {
    var want := map[[a] := g, [a, c, b] := h];
    forall q ensures At(Outside(m, [c]) + Relocated(m, [c], [a, c]), q) == At(want, q) {
      ShiftedIs(m, [c], [a, c], q);
      MovedGitlinkAt(m, a, b, c, g, h, q);
    }
    SameAt(Outside(m, [c]) + Relocated(m, [c], [a, c]), want);
  }

  lemma MovedGitlinkAt(m: Entries, a: Name, b: Name, c: Name, g: Entry, h: Entry, q: Path)
    requires m == map[[a] := g, [c, b] := h] && a != c
    ensures ShiftedAt(m, [c], [a, c], q) == if q == [a] then Some(g) else if q == [a, c, b] then Some(h) else None
  {
    if Under([a, c], q) {
      var back := Moved([a, c], [c], q);
      MovedBack([a, c], [c], q);
      assert back[0] == c && q[0] == [a, c][0] == a;
      assert back != [a] by { assert [a][0] != c; }
      assert back == [c, b] ==> q == [a, c] + [b] == [a, c, b] by { assert [c, b][1..] == [b]; }
      assert q == [a, c, b] ==> back == [c] + [b] == [c, b] by { assert [a, c, b][2..] == [b]; }
      assert !Under([c], q) && q != [c, b] by { assert [c][0] != a && [c, b][0] != a; }
    } else {
      assert q != [a, c, b] by { assert [a, c, b][..2] == [a, c]; }
      assert Under([c], [c, b]) && !Under([c], [a]) by { assert [c, b][..1] == [c] && [a][0] != [c][0]; }
    }
  }

  lemma GitlinksKept(s: Stage, t: Stage, a: Name, b: Name, c: Name)
    requires SameButDirHashes(s, t) && IsDir(s.tree, [a]) && [a, c, b] !in s.tree && Rooted(t)
    ensures MoveStarts(t, [a], [a, c, b]) && t.links == s.links
  {
    var u := ShiftTree(t, [a], [a, c, b]).tree;
    forall i | 1 <= i < 3 ensures [a, c, b][..i] !in u { RelocatedAt(t.tree, [a], [a, c, b], [a, c, b][..i]); }
  }

  /** Moving a directory into itself, onto a gitlink, when the directory is a shadowed
      gitlink as well: two map orders, two results. */
  lemma GitlinkOrderShows(w: Writer, src: Path, dst: Path, g: Entry, h: Entry) returns (v: Writer, v': Writer)
    requires Rooted(w.stage) && MoveStarts(w.stage, src, dst) && Under(src, dst)
    requires w.stage.links == map[src := g, dst := h]
    ensures Step(w, MoveTree(src, dst), v) && Step(w, MoveTree(src, dst), v')
    ensures var far := Moved(src, dst, dst);
            Lookup(v.stage, far) == Some(LinkOf(g)) && Lookup(v'.stage, far) == Some(LinkOf(h))
  {
    TwoOrders(w.stage.links, src, dst, g, h);
    v := MoveInOrder(w, src, dst, [src, dst], g);
    v' := MoveInOrder(w, src, dst, [dst, src], h);
  }

  lemma MoveInOrder(w: Writer, src: Path, dst: Path, links: seq<Path>, e: Entry) returns (v: Writer)
    requires Rooted(w.stage) && MoveStarts(w.stage, src, dst) && Under(src, dst)
    requires IsListing(links, w.stage.links, src)
    requires At(Reparented(w.stage.links, src, dst, links), Moved(src, dst, dst)) == Some(e)
    ensures Step(w, MoveTree(src, dst), v)
    ensures Lookup(v.stage, Moved(src, dst, dst)) == Some(LinkOf(e))
  {
    var s, far := w.stage, Moved(src, dst, dst);
    var entries := SomeListing(set p | p in s.tree && Under(src, p));
    var u := s.(tree := MovedOver(s.tree, src, dst, entries), links := Reparented(s.links, src, dst, links));
    assert ShiftedBy(s, src, dst, entries, links, u);
    NothingBelowFile(s, dst);
    ShiftedIsShiftTree(s, src, dst, u);
    v := w.(stage := MarkBoth(u, src, dst));
    MovedBack(src, dst, dst);
    RelocatedAt(s.tree, src, dst, far);
    NewDirAt(u, dst, far);
  }

  lemma TwoOrders(m: Entries, src: Path, dst: Path, g: Entry, h: Entry)
    requires Under(src, dst) && src != dst && m == map[src := g, dst := h]
    ensures IsListing([src, dst], m, src) && IsListing([dst, src], m, src)
    ensures At(Reparented(m, src, dst, [src, dst]), Moved(src, dst, dst)) == Some(g)
    ensures At(Reparented(m, src, dst, [dst, src]), Moved(src, dst, dst)) == Some(h)
  {
    assert Moved(src, dst, src) == dst;
    assert |Moved(src, dst, dst)| > |dst| > |src|;
    FirstThenSecond(m, src, dst, src, dst);
    FirstThenSecond(m, src, dst, dst, src);
  }

  lemma FirstThenSecond(m: Entries, src: Path, dst: Path, p: Path, q: Path)
    requires Under(src, p) && Under(src, q) && p in m && q in m && p != q
    ensures var x := (m - {p})[Moved(src, dst, p) := m[p]];
            q in x && Reparented(m, src, dst, [p, q]) == (x - {q})[Moved(src, dst, q) := x[q]]
  {
    assert Reparented(m, src, dst, []) == m;
    assert [] + [p] == [p] && [p] + [q] == [p, q];
    ReparentStep(m, src, dst, [], p);
    ReparentStep(m, src, dst, [p], q);
  }
}
