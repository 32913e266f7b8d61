/** A staged writer over whole runs: staging, committing and pushing. Every
    commit records the tree built from scratch, and every push is self-contained. */
module WriterRuns {
  import opened GitTypes
  import opened Sequences
  import opened Sorting
  import opened TreeOrder
  import opened StagedTree
  import opened StagedInvariant
  import opened StagedMaps
  import opened StagedSteps
  import opened StagedMove
  import opened StagedRebuild

  /** The writer's stage and last commit, whether its pack holds a commit and
      which one it will announce, and the reference it believes the remote has;
      then the remote's reference and objects. */
  datatype Writer = Writer(stage: Stage, lastCommit: Hash, hasCommit: bool, tip: Hash, ref: Hash,
                           remoteRef: Hash, remote: set<Hash>)
  {
    function Available(): set<Hash> { remote + stage.pack }
  }

  datatype Call =
    | CreateBlob(path: Path, data: Bytes)
    | UpdateBlob(path: Path, data: Bytes)
    | DeleteBlob(path: Path)
    | MoveBlob(src: Path, dst: Path)
    | DeleteTree(path: Path)
    | MoveTree(src: Path, dst: Path)
    | Commit(text: CommitText)
    | Push(accepted: bool)

  /** The gitlinks a push keeps: unshadowed, with staged directories above them. */
  function Pruned(s: Stage): Entries {
    map p | p in s.links && p !in s.tree && HasParents(s.tree, p) :: s.links[p]
  }

  /** The end of a subtree move: the parents of both paths are marked. */
  function MarkBoth(s: Stage, src: Path, dst: Path): Stage
    requires src != [] && dst != []
  {
    MarkParents(AddParents(s, dst), src)
  }

  /** One successful call. A subtree move depends on the order of both maps. A push
      without a commit sends no pack; the remote may still answer with success. */
  ghost predicate Step(w: Writer, c: Call, v: Writer) {
    var s := w.stage;
    match c
    case CreateBlob(p, data) =>
      p != [] && p !in s.tree && Unblocked(s.tree, p) && v == w.(stage := WriteBlob(s, p, data))
    case UpdateBlob(p, data) =>
      p != [] && p in s.tree && Unblocked(s.tree, p) && v == w.(stage := WriteBlob(s, p, data))
    case DeleteBlob(p) =>
      p != [] && p in s.tree && s.tree[p].kind.BlobObject? && HasParents(s.tree, p) &&
      v == w.(stage := RemoveBlob(s, p))
    case MoveBlob(src, dst) =>
      src != [] && dst != [] && src in s.tree && s.tree[src].kind.BlobObject? &&
      dst !in s.tree && Unblocked(s.tree, dst) && v == w.(stage := RenameBlob(s, src, dst))
    case DeleteTree(p) =>
      if p == [] then v == w.(stage := WipeTree(s))
      else IsDir(s.tree, p) && HasParents(s.tree, p) && v == w.(stage := RemoveTree(s, p))
    case MoveTree(src, dst) =>
      src != [] && dst != [] && src != dst && IsDir(s.tree, src) && dst !in s.tree &&
      exists u :: Shifted(s, src, dst, u) && Unblocked(u.tree, dst) && v == w.(stage := MarkBoth(u, src, dst))
    case Commit(text) =>
      exists order :: RebuildOrder(order, s.dirty) && BuildAll(s, order).pack != {} &&
        v == Committed(w.(stage := BuildAll(s, order).(dirty := {})), text)
    case Push(accepted) =>
      s.pack != {} && accepted && v == Pushed(w)
  }

  /** A commit of the current root; one already packed is not packed again. */
  function Committed(w: Writer, text: CommitText): Writer {
    var c := CommitId(w.stage.root, w.lastCommit, text);
    if c in w.stage.pack then w.(lastCommit := c)
    else w.(stage := Collect(w.stage, c), lastCommit := c, hasCommit := true, tip := c)
  }

  /** An accepted push. Without a commit no pack is written, so nothing arrives. */
  function Pushed(w: Writer): Writer {
    Writer(w.stage.(pack := {}, links := Pruned(w.stage)), w.lastCommit, false, Zero, w.lastCommit,
           if w.hasCommit then w.tip else w.remoteRef,
           if w.hasCommit then w.remote + w.stage.pack else w.remote)
  }

  /** When a call keeps the writer sound; each condition can be checked before the call. */
  ghost predicate Covered(w: Writer, c: Call) {
    var s := w.stage;
    match c
    case CreateBlob(p, _) => p !in s.dirty
    case UpdateBlob(p, _) => p !in s.dirty && NothingBelow(s, p)
    case MoveBlob(_, dst) => dst !in s.dirty
    case MoveTree(src, dst) => MoveCovered(s, src, dst) && NoOverlap(s.links, src, dst)
    case Push(_) => w.hasCommit
    case _ => true
  }

  // ----- what is stored

  /** `h` and everything reachable from it is among `objects`; a gitlink names a
      commit of another repository and is not followed. */
  ghost predicate AllStored(h: Hash, objects: set<Hash>) {
    h in objects &&
    (h.TreeId? ==> forall e :: e in h.entries && e.mode != MODE_GITLINK ==> AllStored(e.hash, objects))
  }

  lemma {:induction false} StoredMonotone(h: Hash, a: set<Hash>, b: set<Hash>)
    requires AllStored(h, a) && a <= b
    ensures AllStored(h, b)
  {
    if h.TreeId? {
      forall e | e in h.entries && e.mode != MODE_GITLINK ensures AllStored(e.hash, b) {
        StoredMonotone(e.hash, a, b);
      }
    }
  }

  /** The commits from `c` back to `ref`, with their trees, are all available. */
  ghost predicate ChainStored(c: Hash, ref: Hash, pack: set<Hash>, objects: set<Hash>) {
    c == ref ||
    (c.CommitId? && c in pack && AllStored(c.tree, objects) && ChainStored(c.parent, ref, pack, objects))
  }

  lemma {:induction false} ChainMonotone(c: Hash, ref: Hash, pack: set<Hash>, pack': set<Hash>, a: set<Hash>,
                                         b: set<Hash>)
    requires ChainStored(c, ref, pack, a) && a <= b && pack <= pack'
    ensures ChainStored(c, ref, pack', b)
  {
    if c != ref {
      StoredMonotone(c.tree, a, b);
      ChainMonotone(c.parent, ref, pack, pack', a, b);
    }
  }

  /** Nothing staged refers to a lost object. */
  ghost predicate StageStored(s: Stage, objects: set<Hash>) {
    && AllStored(s.root, objects)
    && (forall p :: p in s.tree && s.tree[p].hash != Zero ==> AllStored(s.tree[p].hash, objects))
    && (forall p :: p in s.tree && s.tree[p].kind.BlobObject? ==> s.tree[p].hash != Zero)
  }

  /** Every object comes with all it reaches, and none is called zero. */
  ghost predicate Closed(objects: set<Hash>) {
    Zero !in objects && forall h :: h in objects ==> AllStored(h, objects)
  }

  lemma ClosedPlus(objects: set<Hash>, h: Hash)
    requires Closed(objects) && h != Zero && AllStored(h, objects + {h})
    ensures Closed(objects + {h})
  {
    forall x | x in objects ensures AllStored(x, objects + {h}) { StoredMonotone(x, objects, objects + {h}); }
  }

  /** `c` is `tip` or one of its ancestors. */
  ghost predicate OnChain(c: Hash, tip: Hash) {
    c == tip || (tip.CommitId? && OnChain(c, tip.parent))
  }

  /** The invariant of a run. */
  ghost predicate Sound(w: Writer) {
    && Consistent(w.stage)
    && StageStored(w.stage, w.Available())
    && ChainStored(w.lastCommit, w.ref, w.stage.pack, w.Available())
    && (forall c :: c in w.stage.pack && c.CommitId? ==> OnChain(c, w.lastCommit) && w.hasCommit)
    && (if w.hasCommit then w.tip == w.lastCommit else w.lastCommit == w.ref)
    && w.remoteRef == w.ref
    && Closed(w.remote) && Closed(w.Available())
  }

  // ----- rebuilding stores what it builds

  lemma BuildOneStored(s: Stage, d: Path, remote: set<Hash>)
    requires Typed(s) && StageStored(s, remote + s.pack)
    requires forall n: Name :: IsDir(s.tree, d + [n]) ==> s.tree[d + [n]].hash != Zero
    requires d in s.tree ==> s.tree[d].kind.TreeObject?
    requires Closed(remote + s.pack)
    ensures StageStored(BuildOne(s, d), remote + BuildOne(s, d).pack)
    ensures Closed(remote + BuildOne(s, d).pack)
  {
    var h, t, m := NodeHash(s, d), BuildOne(s, d), Children(s, d);
    var before, after := remote + s.pack, remote + t.pack;
    assert before <= after;
    forall x | AllStored(x, before) ensures AllStored(x, after) { StoredMonotone(x, before, after); }
    if d == [] || d in s.tree {
      forall e | e in h.entries && e.mode != MODE_GITLINK ensures AllStored(e.hash, after) {
        assert e.name in m && m[e.name] == Link(e.mode, e.hash);
        assert Lookup(s, d + [e.name]) == Some(Link(e.mode, e.hash));
        assert d + [e.name] in s.tree;
      }
      assert after == before + {h};
      ClosedPlus(before, h);
    }
  }

  /** When a directory's turn comes, its subdirectories have their hashes. */
  lemma ChildrenAreBuilt(s: Stage, order: seq<Path>)
    requires order != [] && ReadyToBuild(s, order) && Ordered(RebuiltBefore, order)
    ensures forall n: Name :: IsDir(s.tree, order[0] + [n]) ==> s.tree[order[0] + [n]].hash != Zero
  {
    var d := order[0];
    forall n: Name | IsDir(s.tree, d + [n]) ensures s.tree[d + [n]].hash != Zero {
      var c := d + [n];
      assert Depth(c) > Depth(d) || d == [];
      assert RebuiltBefore(c, d);
      assert forall j :: 0 <= j < |order| ==> order[j] != c;
      assert Fresh(s, c);
    }
  }

  lemma {:induction false} BuildAllStored(s: Stage, order: seq<Path>, remote: set<Hash>)
    requires Typed(s) && StageStored(s, remote + s.pack)
    requires ReadyToBuild(s, order) && Ordered(RebuiltBefore, order)
    requires Closed(remote + s.pack)
    ensures StageStored(BuildAll(s, order), remote + BuildAll(s, order).pack)
    ensures Closed(remote + BuildAll(s, order).pack)
    ensures BuildAll(s, order).pack >= s.pack
    decreases |order|
  {
    if order != [] {
      var d, rest := order[0], order[1..];
      var t := BuildOne(s, d);
      ChildrenAreBuilt(s, order);
      BuildOneStored(s, d, remote);
      BuildStepReady(s, order);
      BuildAllStored(t, rest, remote);
    }
  }

  // ----- every call keeps the writer sound

  /** A staging call only moves entries around, adds unbuilt directories and packs more. */
  lemma EntriesStayStored(s: Stage, t: Stage, remote: set<Hash>)
    requires StageStored(s, remote + s.pack)
    requires s.pack <= t.pack && t.root == s.root
    requires forall p :: p in t.tree ==> t.tree[p] == NEW_DIRECTORY || t.tree[p] in s.tree.Values ||
                                         (t.tree[p].hash.BlobId? && t.tree[p].hash in t.pack)
    ensures StageStored(t, remote + t.pack)
  {
    forall h | AllStored(h, remote + s.pack) ensures AllStored(h, remote + t.pack) {
      StoredMonotone(h, remote + s.pack, remote + t.pack);
    }
    forall p | p in t.tree
      ensures t.tree[p].hash != Zero ==> AllStored(t.tree[p].hash, remote + t.pack)
      ensures t.tree[p].kind.BlobObject? ==> t.tree[p].hash != Zero
    {
      if t.tree[p] in s.tree.Values {
        var q :| q in s.tree && s.tree[q] == t.tree[p];
      }
    }
  }

  /** Only the stage changed, and its pack grew by at most blobs and trees. */
  lemma StageChangeSound(w: Writer, t: Stage)
    requires Sound(w) && Consistent(t) && w.stage.pack <= t.pack
    requires StageStored(t, w.remote + t.pack) && Closed(w.remote + t.pack)
    requires forall h :: h in t.pack && h !in w.stage.pack ==> !h.CommitId?
    ensures Sound(w.(stage := t))
  {
    ChainMonotone(w.lastCommit, w.ref, w.stage.pack, t.pack, w.Available(), w.remote + t.pack);
  }

  /** A staging call packs at most one object, a file or the empty tree. */
  lemma StagingSound(w: Writer, t: Stage)
    requires Sound(w) && Consistent(t) && StageStored(t, w.remote + t.pack)
    requires t.pack == w.stage.pack || exists h :: t.pack == w.stage.pack + {h} && (h.BlobId? || h == EMPTY_TREE)
    ensures Sound(w.(stage := t))
  {
    if t.pack != w.stage.pack {
      var h :| t.pack == w.stage.pack + {h} && (h.BlobId? || h == EMPTY_TREE);
      UnionAssociates(w.remote, w.stage.pack, {h});
      ClosedPlus(w.Available(), h);
    }
    StageChangeSound(w, t);
  }

  lemma AddParentsEntries(s: Stage, p: Path)
    requires p != []
    ensures forall q :: q in AddParents(s, p).tree ==>
              AddParents(s, p).tree[q] == NEW_DIRECTORY || (q in s.tree && AddParents(s, p).tree[q] == s.tree[q])
  {
    forall q | q in AddParents(s, p).tree
      ensures AddParents(s, p).tree[q] == NEW_DIRECTORY || (q in s.tree && AddParents(s, p).tree[q] == s.tree[q])
    { NewDirAt(s, p, q); }
  }

  lemma StagingKeepsSound(w: Writer, c: Call, v: Writer)
    requires Sound(w) && Step(w, c, v) && Covered(w, c)
    requires !c.Commit? && !c.Push?
    ensures Sound(v)
  {
    var s, t := w.stage, v.stage;
    match c
    case CreateBlob(p, data) =>
      NothingBelowFile(s, p);
      WriteBlobKeeps(s, p, data);
      AddParentsEntries(PlaceBlob(Collect(s, BlobId(data)), p, MODE_FILE, BlobId(data)), p);
      EntriesStayStored(s, t, w.remote);
      assert t.pack == s.pack + {BlobId(data)};
      StagingSound(w, t);
    case UpdateBlob(p, data) =>
      WriteBlobKeeps(s, p, data);
      AddParentsEntries(PlaceBlob(Collect(s, BlobId(data)), p, MODE_FILE, BlobId(data)), p);
      EntriesStayStored(s, t, w.remote);
      assert t.pack == s.pack + {BlobId(data)};
      StagingSound(w, t);
    case DeleteBlob(p) =>
      RemoveBlobKeeps(s, p);
      EntriesStayStored(s, t, w.remote);
      StagingSound(w, t);
    case MoveBlob(src, dst) =>
      MoveBlobSound(w, src, dst);
    case DeleteTree(p) =>
      DeleteTreeSound(w, p);
    case MoveTree(src, dst) =>
      MoveTreeIsRename(w, src, dst, v);
      MoveTreeSound(w, src, dst);
  }

  lemma MoveBlobSound(w: Writer, src: Path, dst: Path)
    requires Sound(w) && Covered(w, MoveBlob(src, dst))
    requires src != [] && dst != [] && src in w.stage.tree
    requires Step(w, MoveBlob(src, dst), w.(stage := RenameBlob(w.stage, src, dst)))
    ensures Sound(w.(stage := RenameBlob(w.stage, src, dst)))
  {
    var s := w.stage;
    var e := s.tree[src];
    var u := PlaceBlob(s, dst, e.mode, e.hash);
    RenameBlobKeeps(s, src, dst);
    AddParentsEntries(u, dst);
    assert u.tree[dst] == Entry(BlobObject, e.mode, e.hash) == s.tree[src];
    EntriesStayStored(s, RenameBlob(s, src, dst), w.remote);
    StagingSound(w, RenameBlob(s, src, dst));
  }

  lemma DeleteTreeSound(w: Writer, p: Path)
    requires Sound(w)
    requires p == [] || IsDir(w.stage.tree, p)
    ensures Sound(w.(stage := if p == [] then WipeTree(w.stage) else RemoveTree(w.stage, p)))
  {
    var s := w.stage;
    if p == [] {
      WipeTreeKeeps(s);
      assert WipeTree(s).pack == s.pack + {EMPTY_TREE};
      StagingSound(w, WipeTree(s));
    } else {
      RemoveTreeKeeps(s, p);
      EntriesStayStored(s, RemoveTree(s, p), w.remote);
      StagingSound(w, RemoveTree(s, p));
    }
  }

  /** Without gitlinks in each other's way every order of the maps gives the relocation. */
  lemma MoveTreeIsRename(w: Writer, src: Path, dst: Path, v: Writer)
    requires Rooted(w.stage) && Step(w, MoveTree(src, dst), v) && NoOverlap(w.stage.links, src, dst)
    ensures MoveStarts(w.stage, src, dst) && v == w.(stage := RenameTree(w.stage, src, dst))
  {
    var s := w.stage;
    var u :| Shifted(s, src, dst, u) && Unblocked(u.tree, dst) && v == w.(stage := MarkBoth(u, src, dst));
    NothingBelowFile(s, dst);
    ShiftedIsShiftTree(s, src, dst, u);
  }

  lemma MoveTreeSound(w: Writer, src: Path, dst: Path)
    requires Sound(w) && MoveStarts(w.stage, src, dst) && MoveCovered(w.stage, src, dst)
    ensures Sound(w.(stage := RenameTree(w.stage, src, dst)))
  {
    var s := w.stage;
    var t := RenameTree(s, src, dst);
    RenameTreeKeepsIff(s, src, dst);
    forall q | q in t.tree ensures t.tree[q] == NEW_DIRECTORY || t.tree[q] in s.tree.Values {
      if Under(dst, q) { RenameTreeInside(s, src, dst, q); } else { RenameTreeOutside(s, src, dst, q); }
    }
    EntriesStayStored(s, t, w.remote);
    StagingSound(w, t);
  }

  // ----- commits and pushes

  function CommitHeight(c: Hash): nat {
    if c.CommitId? then 1 + CommitHeight(c.parent) else 0
  }

  lemma {:induction false} ChainHeight(c: Hash, tip: Hash)
    requires OnChain(c, tip)
    ensures CommitHeight(c) <= CommitHeight(tip)
  {
    if c != tip { ChainHeight(c, tip.parent); }
  }

  lemma RebuildKeepsSound(w: Writer, order: seq<Path>)
    requires Sound(w) && RebuildOrder(order, w.stage.dirty)
    ensures Sound(w.(stage := BuildAll(w.stage, order).(dirty := {})))
  {
    var s := w.stage;
    var t := BuildAll(s, order).(dirty := {});
    RebuildIsFromScratch(s, order);
    RebuildOrderReady(s, order);
    BuildAllStored(s, order, w.remote);
    BuildAllPacksTrees(s, order);
    StageChangeSound(w, t);
  }

  lemma CommittedKeepsSound(w: Writer, text: CommitText)
    requires Sound(w)
    ensures var v := Committed(w, text); Sound(v) && v.hasCommit && v.lastCommit in v.stage.pack
  {
    var v := Committed(w, text);
    var c := CommitId(w.stage.root, w.lastCommit, text);
    if c in w.stage.pack { ChainHeight(c, w.lastCommit); }
    assert c !in w.stage.pack;
    UnionAssociates(w.remote, w.stage.pack, {c});
    ClosedPlus(w.Available(), c);
    forall h | AllStored(h, w.Available()) ensures AllStored(h, v.Available()) {
      StoredMonotone(h, w.Available(), v.Available());
    }
    ChainMonotone(w.lastCommit, w.ref, w.stage.pack, v.stage.pack, w.Available(), v.Available());
    CollectKeeps(w.stage, c);
  }

  /** Committing records the tree built from scratch and packs everything it needs. */
  lemma CommitKeepsSound(w: Writer, text: CommitText, v: Writer)
    requires Sound(w) && Step(w, Commit(text), v)
    ensures Sound(v) && v.hasCommit && v.lastCommit in v.stage.pack
    ensures v.lastCommit == CommitId(Scratch(w.stage, []), w.lastCommit, text)
    ensures FaithfulBuild(w.stage, v.stage) && v.stage.dirty == {}
  {
    var s := w.stage;
    var order :| RebuildOrder(order, s.dirty) && BuildAll(s, order).pack != {} &&
      v == Committed(w.(stage := BuildAll(s, order).(dirty := {})), text);
    var built := w.(stage := BuildAll(s, order).(dirty := {}));
    RebuildKeepsSound(w, order);
    CommittedKeepsSound(built, text);
    CommittedIsFaithful(w, order, text);
  }

  lemma CommittedIsFaithful(w: Writer, order: seq<Path>, text: CommitText)
    requires Consistent(w.stage) && RebuildOrder(order, w.stage.dirty)
    ensures var v := Committed(w.(stage := BuildAll(w.stage, order).(dirty := {})), text);
            FaithfulBuild(w.stage, v.stage) && v.stage.dirty == {} &&
            v.lastCommit == CommitId(Scratch(w.stage, []), w.lastCommit, text)
  {
    RebuildIsFromScratch(w.stage, order);
  }

  lemma {:induction false} BuildAllPacksTrees(s: Stage, order: seq<Path>)
    ensures s.pack <= BuildAll(s, order).pack
    ensures forall h :: h in BuildAll(s, order).pack && h !in s.pack ==> !h.CommitId?
    decreases |order|
  {
    if order != [] { BuildAllPacksTrees(BuildOne(s, order[0]), order[1..]); }
  }

  /** Pruning the gitlink cache changes no directory's rebuild result. */
  lemma PruningChangesNothing(s: Stage)
    requires Consistent(s)
    ensures forall d :: NodeHash(s.(links := Pruned(s), pack := {}), d) == NodeHash(s, d)
    ensures Consistent(s.(links := Pruned(s), pack := {}))
  {
    var t := s.(links := Pruned(s), pack := {});
    forall p ensures Lookup(s, p) == Lookup(t, p) {
      assert p in s.links ==> HasParents(s.tree, p);
    }
    forall d ensures NodeHash(t, d) == NodeHash(s, d) { SameChildren(t, d, s, d); }
    FreshnessKept(s, t);
  }

  lemma PushKeepsSound(w: Writer, v: Writer, accepted: bool)
    requires Sound(w) && Step(w, Push(accepted), v) && w.hasCommit
    ensures Sound(v) && v.remoteRef == w.lastCommit
  {
    PruningChangesNothing(w.stage);
    assert v.Available() == w.Available() == v.remote;
  }

  /** Every covered call keeps the writer sound. */
  lemma StepKeepsSound(w: Writer, c: Call, v: Writer)
    requires Sound(w) && Step(w, c, v) && Covered(w, c)
    ensures Sound(v)
  {
    match c
    case Commit(text) => CommitKeepsSound(w, text, v);
    case Push(accepted) => PushKeepsSound(w, v, accepted);
    case _ => StagingKeepsSound(w, c, v);
  }

  // ----- whole runs

  ghost predicate Run(states: seq<Writer>, calls: seq<Call>) {
    && |states| == |calls| + 1
    && (forall i :: 0 <= i < |calls| ==> Step(states[i], calls[i], states[i + 1]))
    && (forall i :: 0 <= i < |calls| ==> Covered(states[i], calls[i]))
  }

  lemma {:induction false} RunSound(states: seq<Writer>, calls: seq<Call>, i: nat)
    requires Run(states, calls) && Sound(states[0]) && i < |states|
    ensures Sound(states[i])
  {
    if i > 0 {
      RunSound(states, calls, i - 1);
      StepKeepsSound(states[i - 1], calls[i - 1], states[i]);
    }
  }

  /** Safety of every run: each commit's tree, and each directory hash it leaves
      behind, is what a from-scratch build of the staged entries gives. */
  lemma EveryCommitIsFromScratch(states: seq<Writer>, calls: seq<Call>, i: nat)
    requires Run(states, calls) && Sound(states[0]) && i < |calls| && calls[i].Commit?
    ensures states[i + 1].lastCommit ==
              CommitId(Scratch(states[i].stage, []), states[i].lastCommit, calls[i].text)
    ensures FaithfulBuild(states[i].stage, states[i + 1].stage)
  {
    RunSound(states, calls, i);
    CommitKeepsSound(states[i], calls[i].text, states[i + 1]);
  }

  /** Safety of every run: a push sends everything its commits reach that the
      remote lacks, in a parent chain back to the remote's reference, and moves
      the remote's reference to the last commit. */
  lemma EveryPushIsSelfContained(states: seq<Writer>, calls: seq<Call>, i: nat)
    requires Run(states, calls) && Sound(states[0]) && i < |calls| && calls[i].Push?
    ensures ChainStored(states[i].lastCommit, states[i].remoteRef, states[i].stage.pack, states[i].Available())
    ensures states[i].lastCommit in states[i].stage.pack || states[i].lastCommit == states[i].remoteRef
    ensures states[i + 1].remoteRef == states[i].lastCommit == states[i + 1].ref
    ensures states[i].Available() <= states[i + 1].remote && Closed(states[i + 1].remote)
  {
    RunSound(states, calls, i);
    RunSound(states, calls, i + 1);
  }
}
