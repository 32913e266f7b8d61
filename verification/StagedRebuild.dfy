/** Rebuilding the dirty directories deepest first gives the same hashes as
    rebuilding every directory from scratch. */
module StagedRebuild {
  import opened GitTypes
  import opened Sorting
  import opened TreeOrder
  import opened StagedTree
  import opened StagedInvariant

  // ----- the order of the rebuild

  /** The path as a string: its names joined by slashes. */
  function Join(p: Path): Bytes {
    if p == [] then [] else if |p| == 1 then p[0] else p[0] + [SLASH] + Join(p[1..])
  }

  /** The number of slashes in the path: the root counts like a top-level name. */
  function Depth(p: Path): nat {
    if p == [] then 0 else |p| - 1
  }

  /** Deeper paths first; at equal depth alphabetically, the root last. */
  predicate RebuiltBefore(a: Path, b: Path) {
    if Depth(a) != Depth(b) then Depth(a) > Depth(b)
    else if a == [] then false
    else if b == [] then true
    else LexLess(Join(a), Join(b))
  }

  lemma RebuiltBeforeIsOrder()
    ensures StrictWeakOrder(RebuiltBefore)
  {
    LexIsOrder();
    forall a, b, c | RebuiltBefore(a, c) ensures RebuiltBefore(a, b) || RebuiltBefore(b, c) {
      if a != [] && b != [] && c != [] && Depth(a) == Depth(b) == Depth(c) {
        LexSplits(Join(a), Join(b), Join(c));
      }
    }
    forall a, b, c | RebuiltBefore(a, b) && RebuiltBefore(b, c) ensures RebuiltBefore(a, c) {
      if a != [] && b != [] && c != [] && Depth(a) == Depth(b) == Depth(c) {
        LexTransitive(Join(a), Join(b), Join(c));
      }
    }
    forall a ensures !RebuiltBefore(a, a) { LexIrreflexive(Join(a)); }
  }

  /** A listing of the dirty paths in rebuild order. */
  ghost predicate RebuildOrder(order: seq<Path>, dirty: set<Path>) {
    Ordered(RebuiltBefore, order) && (forall p :: p in order <==> p in dirty)
  }

  /** Every path but the root is followed by its parent. */
  ghost predicate ParentsFollow(order: seq<Path>) {
    forall i :: 0 <= i < |order| && order[i] != [] ==> exists j :: i < j < |order| && order[j] == Parent(order[i])
  }

  lemma DeepestFirstParentsFollow(order: seq<Path>, dirty: set<Path>)
    requires RebuildOrder(order, dirty)
    requires forall p, i :: p in dirty && 0 <= i <= |p| ==> p[..i] in dirty
    ensures ParentsFollow(order)
  {
    forall i | 0 <= i < |order| && order[i] != []
      ensures exists j :: i < j < |order| && order[j] == Parent(order[i])
    {
      var p := order[i];
      assert p in dirty && p[..|p| - 1] in dirty;
      assert Parent(p) in order;
      var j :| 0 <= j < |order| && order[j] == Parent(p);
      assert RebuiltBefore(p, Parent(p));
      assert j > i;
    }
  }

  // ----- the rebuild restores every hash

  lemma BuildOneLookup(s: Stage, d: Path, q: Path)
    ensures q != d ==> Lookup(BuildOne(s, d), q) == Lookup(s, q)
  {
  }

  lemma BuildOneFresh(s: Stage, d: Path, todo: set<Path>)
    requires FreshExcept(s, todo)
    requires d != [] ==> Parent(d) in todo - {d}
    requires d in s.tree ==> s.tree[d].kind.TreeObject?
    ensures FreshExcept(BuildOne(s, d), todo - {d})
  {
    var t := BuildOne(s, d);
    forall e | e !in todo - {d} ensures Fresh(t, e) {
      forall n: Name ensures Lookup(s, e + [n]) == Lookup(t, e + [n]) {
        assert Parent(e + [n]) == e;
        BuildOneLookup(s, d, e + [n]);
      }
      SameChildren(s, e, t, e);
      if e != d { assert Fresh(s, e); }
    }
  }

  /** `t` differs from `s` only in the hashes of directories. */
  ghost predicate SameButDirHashes(s: Stage, t: Stage) {
    && s.tree.Keys == t.tree.Keys && s.links == t.links
    && (forall p :: p in s.tree ==> s.tree[p].kind == t.tree[p].kind && s.tree[p].mode == t.tree[p].mode)
    && (forall p :: p in s.tree && !s.tree[p].kind.TreeObject? ==> s.tree[p] == t.tree[p])
  }

  /** What holds before each directory is rebuilt. */
  ghost predicate ReadyToBuild(s: Stage, order: seq<Path>) {
    && FreshExcept(s, set p | p in order)
    && ParentsFollow(order)
    && (forall p :: p in order && p in s.tree ==> s.tree[p].kind.TreeObject?)
  }

  lemma BuildStepReady(s: Stage, order: seq<Path>)
    requires order != [] && ReadyToBuild(s, order)
    ensures ReadyToBuild(BuildOne(s, order[0]), order[1..])
  {
    var d, rest := order[0], order[1..];
    assert order == [d] + rest;
    if d != [] {
      var j :| 0 < j < |order| && order[j] == Parent(d);
      assert rest[j - 1] == Parent(d);
    }
    BuildOneFresh(s, d, set p | p in order);
    assert (set p | p in order) - {d} <= (set p | p in rest);
    ParentsFollowRest(order);
  }

  lemma ParentsFollowRest(order: seq<Path>)
    requires order != [] && ParentsFollow(order)
    ensures ParentsFollow(order[1..])
  {
    var rest := order[1..];
    forall i | 0 <= i < |rest| && rest[i] != []
      ensures exists j :: i < j < |rest| && rest[j] == Parent(rest[i])
    {
      var j :| i + 1 < j < |order| && order[j] == Parent(order[i + 1]);
      assert rest[j - 1] == Parent(rest[i]);
    }
  }

  lemma {:induction false} BuildAllFresh(s: Stage, order: seq<Path>)
    requires ReadyToBuild(s, order)
    ensures FreshExcept(BuildAll(s, order), {})
    ensures SameButDirHashes(s, BuildAll(s, order))
    decreases |order|
  {
    if order != [] {
      BuildStepReady(s, order);
      BuildAllFresh(BuildOne(s, order[0]), order[1..]);
    }
  }

  // ----- building from scratch

  ghost function Longest(paths: set<Path>): (m: nat)
    ensures forall p :: p in paths ==> |p| <= m
  {
    if paths == {} then 0
    else
      var q :| q in paths;
      var m := Longest(paths - {q});
      if |q| > m then |q| else m
  }

  /** The hash of directory `d` built bottom-up from the staged files and the
      unshadowed gitlinks, ignoring every stored directory hash. */
  ghost function Scratch(s: Stage, d: Path): Hash
    decreases Longest(s.tree.Keys) - |d|, 1
  {
    TreeId(Canon(ScratchChildren(s, d)))
  }

  ghost function ScratchChildren(s: Stage, d: Path): map<Name, Link<Hash>>
    decreases Longest(s.tree.Keys) - |d|, 0
  {
    var m := Children(s, d);
    map n | n in m :: if IsDir(s.tree, d + [n]) then Link(m[n].mode, Scratch(s, d + [n])) else m[n]
  }

  lemma {:induction false} FreshIsScratch(s: Stage, d: Path)
    requires FreshExcept(s, {})
    ensures NodeHash(s, d) == Scratch(s, d)
    decreases Longest(s.tree.Keys) - |d|
  {
    var m := Children(s, d);
    forall n | n in m && IsDir(s.tree, d + [n]) ensures m[n].hash == Scratch(s, d + [n]) {
      assert Lookup(s, d + [n]) == Some(m[n]);
      FreshIsScratch(s, d + [n]);
      assert Fresh(s, d + [n]);
    }
    assert ScratchChildren(s, d) == m;
  }

  lemma {:induction false} ScratchIgnoresDirHashes(s: Stage, t: Stage, d: Path)
    requires SameButDirHashes(s, t)
    ensures Scratch(s, d) == Scratch(t, d)
    decreases Longest(s.tree.Keys) - |d|
  {
    var a, b := ScratchChildren(s, d), ScratchChildren(t, d);
    SameNames(s, t, d);
    forall n | n in a ensures a[n] == b[n] {
      assert Lookup(s, d + [n]).Some?;
      if IsDir(s.tree, d + [n]) { ScratchIgnoresDirHashes(s, t, d + [n]); }
    }
    assert a == b;
  }

  lemma SameNames(s: Stage, t: Stage, d: Path)
    requires SameButDirHashes(s, t)
    ensures Children(s, d).Keys == Children(t, d).Keys
  {
    forall n: Name ensures n in Children(s, d) <==> n in Children(t, d) {
      assert Lookup(s, d + [n]).Some? <==> Lookup(t, d + [n]).Some?;
    }
  }

  /** `t` is `s` with every directory hash as a build from scratch would have it. */
  ghost predicate FaithfulBuild(s: Stage, t: Stage) {
    && SameButDirHashes(s, t)
    && t.root == Scratch(s, [])
    && (forall d :: d != [] && IsDir(s.tree, d) ==> t.tree[d].hash == Scratch(s, d))
  }

  lemma RebuildOrderReady(s: Stage, order: seq<Path>)
    requires Consistent(s) && RebuildOrder(order, s.dirty)
    ensures ReadyToBuild(s, order)
  {
    DeepestFirstParentsFollow(order, s.dirty);
    assert (set p | p in order) == s.dirty;
  }

  /** Incremental rebuild equals full rebuild. */
  lemma RebuildIsFromScratch(s: Stage, order: seq<Path>)
    requires Consistent(s) && RebuildOrder(order, s.dirty)
    ensures FaithfulBuild(s, BuildAll(s, order))
    ensures Consistent(BuildAll(s, order).(dirty := {}))
  {
    var t := BuildAll(s, order);
    RebuildOrderReady(s, order);
    BuildAllFresh(s, order);
    forall d: Path ensures NodeHash(t, d) == Scratch(s, d) {
      FreshIsScratch(t, d);
      ScratchIgnoresDirHashes(s, t, d);
    }
    assert Fresh(t, []);
    forall d | d != [] && IsDir(s.tree, d) ensures t.tree[d].hash == Scratch(s, d) {
      assert Fresh(t, d);
    }
    CleanBuildConsistent(s, t);
  }

  lemma CleanBuildConsistent(s: Stage, t: Stage)
    requires Consistent(s) && SameButDirHashes(s, t) && FreshExcept(t, {})
    ensures Consistent(t.(dirty := {}))
  {
    var u := t.(dirty := {});
    forall d ensures Fresh(u, d) {
      assert Fresh(t, d);
      SameChildren(t, d, u, d);
    }
    forall q | q in u.tree || q in u.links ensures HasParents(u.tree, q) {
      assert HasParents(s.tree, q);
      forall i | 1 <= i < |q| ensures IsDir(u.tree, q[..i]) { assert IsDir(s.tree, q[..i]); }
    }
  }
}
