/** The invariant of a staged writer: every directory whose stored hash is out
    of date is dirty, and dirtiness reaches up to the root. Every staging call
    keeps it, and rebuilding the dirty directories deepest first restores every
    hash. */
module StagedInvariant {
  import opened GitTypes
  import opened TreeOrder
  import opened StagedTree

  // ----- the invariant

  /** Modes agree with kinds. */
  ghost predicate Typed(s: Stage) {
    && (forall p :: p in s.tree ==> !s.tree[p].kind.CommitObject?)
    && (forall p :: p in s.tree ==> (s.tree[p].mode == MODE_TREE <==> s.tree[p].kind.TreeObject?))
    && (forall p :: p in s.tree ==> s.tree[p].mode != MODE_GITLINK)
    && (forall p :: p in s.links ==> s.links[p].kind.CommitObject? && s.links[p].mode == MODE_GITLINK)
    && [] !in s.links
    && ([] in s.tree ==> s.tree[[]].kind.TreeObject?)
  }

  /** Parents of staged paths are staged directories. */
  ghost predicate Rooted(s: Stage) {
    forall p :: p in s.tree || p in s.links ==> HasParents(s.tree, p)
  }

  ghost predicate NothingBelow(s: Stage, d: Path) {
    forall p :: (p in s.tree || p in s.links) && Under(d, p) ==> p == d
  }

  lemma NothingBelowFile(s: Stage, d: Path)
    requires Rooted(s) && d != [] && !IsDir(s.tree, d)
    ensures NothingBelow(s, d)
  {
    forall p | (p in s.tree || p in s.links) && Under(d, p) ensures p == d {
      assert HasParents(s.tree, p);
      assert |p| == |d| ==> p == d;
    }
  }

  /** Dirtiness is closed under parent and touches no file. */
  ghost predicate DirtyClosed(s: Stage) {
    && (forall p, i :: p in s.dirty && 0 <= i <= |p| ==> p[..i] in s.dirty)
    && (forall p :: p in s.dirty && p in s.tree ==> s.tree[p].kind.TreeObject?)
  }

  /** The hash stored for the directory `d` is what a rebuild would store. */
  ghost predicate Fresh(s: Stage, d: Path) {
    if d == [] then s.root == NodeHash(s, [])
    else IsDir(s.tree, d) ==> s.tree[d].hash == NodeHash(s, d)
  }

  ghost predicate FreshExcept(s: Stage, todo: set<Path>) {
    forall d :: d !in todo ==> Fresh(s, d)
  }

  ghost predicate Consistent(s: Stage) {
    Typed(s) && Rooted(s) && DirtyClosed(s) && FreshExcept(s, s.dirty)
  }

  // ----- prefixes

  lemma AboveIff(p: Path, d: Path)
    ensures d in Above(p) <==> |d| < |p| && p[..|d|] == d
  {
  }

  lemma PrefixOfPrefix(p: Path, i: nat, j: nat)
    requires j <= i <= |p|
    ensures p[..i][..j] == p[..j]
  {
  }

  lemma UnderChild(d: Path, e: Path, n: Name)
    ensures Under(d, e + [n]) <==> Under(d, e) || d == e + [n]
  {
    assert |d| <= |e| ==> (e + [n])[..|d|] == e[..|d|];
  }

  /** `AddParents` and `MarkParents` make exactly the proper prefixes dirty. */
  lemma ParentsDirty(s: Stage, p: Path)
    requires p != []
    ensures AddParents(s, p).dirty == s.dirty + Above(p)
    ensures MarkParents(s, p).dirty == s.dirty + Above(p)
  {
    forall d ensures d in AddParents(s, p).dirty <==> d in s.dirty + Above(p)
             ensures d in MarkParents(s, p).dirty <==> d in s.dirty + Above(p) {
      AddDirsAt(s, p, |p|, d);
      MarkDirsAt(s, p, |p|, d);
      AboveIff(p, d);
    }
  }

  lemma DirtyStaysClosed(dirty: set<Path>, p: Path)
    requires forall q, i :: q in dirty && 0 <= i <= |q| ==> q[..i] in dirty
    ensures forall q, i :: q in dirty + Above(p) && 0 <= i <= |q| ==> q[..i] in dirty + Above(p)
  {
    forall q, i | q in dirty + Above(p) && 0 <= i <= |q| ensures q[..i] in dirty + Above(p) {
      if q !in dirty {
        AboveIff(p, q);
        AboveIff(p, q[..i]);
        PrefixOfPrefix(p, |q|, i);
      }
    }
  }

  // ----- what a staging call must leave alone

  /** `t` differs from `s` only below directories that are dirty in `t`. */
  ghost predicate ChangesOnlyBelowDirty(s: Stage, t: Stage) {
    && s.dirty <= t.dirty
    && s.root == t.root
    && (forall d, n: Name ::
          d !in t.dirty && (d == [] || IsDir(t.tree, d)) ==> Lookup(s, d + [n]) == Lookup(t, d + [n]))
    && (forall d :: d !in t.dirty && d != [] && IsDir(t.tree, d) ==> d in s.tree && s.tree[d] == t.tree[d])
  }

  lemma FreshnessKept(s: Stage, t: Stage)
    requires FreshExcept(s, s.dirty) && ChangesOnlyBelowDirty(s, t)
    ensures FreshExcept(t, t.dirty)
  {
    forall d | d !in t.dirty ensures Fresh(t, d) {
      if d == [] || IsDir(t.tree, d) {
        assert Fresh(s, d);
        SameChildren(s, d, t, d);
      }
    }
  }

  // ----- adding and marking parents

  /** What adding the parents of `p` does at a path `q`. */
  lemma NewDirAt(s: Stage, p: Path, q: Path)
    requires p != []
    ensures q in AddParents(s, p).tree <==> q in s.tree || (1 <= |q| < |p| && p[..|q|] == q)
    ensures q in AddParents(s, p).tree ==>
              AddParents(s, p).tree[q] == if q in s.tree then s.tree[q] else NEW_DIRECTORY
  {
    AddDirsAt(s, p, |p|, q);
  }

  /** Everything outside `p` has its parents; what is under `p` has them down to `p`. */
  ghost predicate RootedOutside(s: Stage, p: Path) {
    forall q, i :: (q in s.tree || q in s.links) && 1 <= i < |q| && (Under(p, q) ==> |p| <= i) ==> IsDir(s.tree, q[..i])
  }

  lemma AddParentsRoots(s: Stage, p: Path)
    requires p != [] && Unblocked(s.tree, p) && RootedOutside(s, p)
    ensures Rooted(AddParents(s, p)) && HasParents(AddParents(s, p).tree, p)
  {
    var t := AddParents(s, p);
    forall i | 1 <= i < |p| ensures IsDir(t.tree, p[..i]) {
      NewDirAt(s, p, p[..i]);
    }
    forall q, i | (q in t.tree || q in t.links) && 1 <= i < |q| ensures IsDir(t.tree, q[..i]) {
      NewDirAt(s, p, q);
      NewDirAt(s, p, q[..i]);
      if q in s.tree || q in s.links {
        if Under(p, q) && i < |p| {
          assert q[..i] == p[..i];
        }
      } else {
        assert q[..i] == p[..i];
      }
    }
  }

  /** Marking the parents of `p`, a path whose parents are staged, touches no file. */
  lemma MarkedDirtyClosed(s: Stage, p: Path)
    requires p != [] && DirtyClosed(s) && HasParents(s.tree, p) && Typed(s)
    ensures DirtyClosed(MarkParents(s, p))
  {
    ParentsDirty(s, p);
    DirtyStaysClosed(s.dirty, p);
    var t := MarkParents(s, p);
    forall q | q in t.dirty && q in t.tree ensures t.tree[q].kind.TreeObject? {
      AboveIff(p, q);
      if q !in s.dirty && q != [] { assert IsDir(s.tree, p[..|q|]); }
    }
  }

  lemma AddedDirtyClosed(s: Stage, p: Path)
    requires p != [] && DirtyClosed(s) && Unblocked(s.tree, p) && Typed(s)
    ensures DirtyClosed(AddParents(s, p))
  {
    ParentsDirty(s, p);
    DirtyStaysClosed(s.dirty, p);
    var t := AddParents(s, p);
    forall q | q in t.dirty && q in t.tree ensures t.tree[q].kind.TreeObject? {
      AboveIff(p, q);
      NewDirAt(s, p, q);
      if q !in s.dirty && q != [] && q in s.tree { assert p[..|q|] == q; }
    }
  }

  lemma AddParentsTyped(s: Stage, p: Path)
    requires p != [] && Typed(s)
    ensures Typed(AddParents(s, p))
  {
    forall q { NewDirAt(s, p, q); }
  }
}
