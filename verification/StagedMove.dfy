/** Moving a directory: what is relocated, what stays, and exactly when the
    moved hashes are still covered by the dirty set. */
module StagedMove {
  import opened GitTypes
  import opened TreeOrder
  import opened StagedTree
  import opened StagedInvariant

  /** The checks a move passes before it changes anything, and the one after. */
  ghost predicate MoveStarts(s: Stage, src: Path, dst: Path) {
    && src != [] && dst != [] && src != dst
    && IsDir(s.tree, src)
    && dst !in s.tree
    && Unblocked(ShiftTree(s, src, dst).tree, dst)
  }

  /** Nothing staged lies under a free path, and a gitlink only exactly there. */
  lemma NothingUnderFree(s: Stage, d: Path, q: Path)
    requires Rooted(s) && d != [] && d !in s.tree && Under(d, q)
    ensures q !in s.tree
    ensures q in s.links ==> q == d
  {
    NothingBelowFile(s, d);
  }

  lemma MoveParentsOfSource(s: Stage, src: Path, dst: Path)
    requires Rooted(s) && MoveStarts(s, src, dst)
    ensures !Under(dst, src)
    ensures HasParents(ShiftTree(s, src, dst).tree, src)
  {
    if Under(dst, src) { NothingUnderFree(s, dst, src); }
    var u := ShiftTree(s, src, dst);
    assert HasParents(s.tree, src);
    forall i | 1 <= i < |src| ensures IsDir(u.tree, src[..i]) {
      assert IsDir(s.tree, src[..i]);
      RelocatedAt(s.tree, src, dst, src[..i]);
    }
  }

  lemma ShiftTreeAt(s: Stage, src: Path, dst: Path, q: Path)
    requires Rooted(s) && MoveStarts(s, src, dst)
    ensures Under(dst, q) ==> Lookup(ShiftTree(s, src, dst), q) == Lookup(s, Moved(dst, src, q)) ||
                              (q == dst && q in s.links)
    ensures Under(dst, q) && Moved(dst, src, q) in s.tree ==>
              q in ShiftTree(s, src, dst).tree && ShiftTree(s, src, dst).tree[q] == s.tree[Moved(dst, src, q)]
    ensures Under(dst, q) && Moved(dst, src, q) !in s.tree ==> q !in ShiftTree(s, src, dst).tree
    ensures !Under(dst, q) && !Under(src, q) ==> Lookup(ShiftTree(s, src, dst), q) == Lookup(s, q)
    ensures !Under(dst, q) && !Under(src, q) && q in s.tree ==>
              q in ShiftTree(s, src, dst).tree && ShiftTree(s, src, dst).tree[q] == s.tree[q]
    ensures !Under(dst, q) && Under(src, q) ==> Lookup(ShiftTree(s, src, dst), q).None?
  {
    RelocatedAt(s.tree, src, dst, q);
    RelocatedAt(s.links, src, dst, q);
    if Under(dst, q) { NothingUnderFree(s, dst, q); }
  }

  lemma ParentsInsideMove(s: Stage, src: Path, dst: Path, q: Path, i: nat)
    requires Rooted(s) && MoveStarts(s, src, dst)
    requires q in ShiftTree(s, src, dst).tree || q in ShiftTree(s, src, dst).links
    requires Under(dst, q) && |dst| <= i < |q|
    ensures IsDir(ShiftTree(s, src, dst).tree, q[..i])
  {
    RelocatedAt(s.tree, src, dst, q);
    RelocatedAt(s.links, src, dst, q);
    RelocatedAt(s.tree, src, dst, q[..i]);
    NothingUnderFree(s, dst, q);
    var p := Moved(dst, src, q);
    assert HasParents(s.tree, p);
    var k := |src| + i - |dst|;
    assert Moved(dst, src, q[..i]) == p[..k];
    assert IsDir(s.tree, p[..k]);
  }

  lemma ParentsBesideMove(s: Stage, src: Path, dst: Path, q: Path, i: nat)
    requires Rooted(s) && MoveStarts(s, src, dst)
    requires q in ShiftTree(s, src, dst).tree || q in ShiftTree(s, src, dst).links
    requires !Under(dst, q) && 1 <= i < |q|
    ensures IsDir(ShiftTree(s, src, dst).tree, q[..i])
  {
    RelocatedAt(s.tree, src, dst, q);
    RelocatedAt(s.links, src, dst, q);
    assert HasParents(s.tree, q);
    var d := q[..i];
    assert IsDir(s.tree, d);
    assert !Under(src, d) && !Under(dst, d) by {
      assert |src| <= i ==> d[..|src|] == q[..|src|];
      assert |dst| <= i ==> d[..|dst|] == q[..|dst|];
    }
    ShiftTreeAt(s, src, dst, d);
  }

  lemma ShiftTyped(s: Stage, src: Path, dst: Path)
    requires Typed(s) && MoveStarts(s, src, dst)
    ensures Typed(ShiftTree(s, src, dst))
  {
    var u := ShiftTree(s, src, dst);
    forall q | q in u.tree ensures u.tree[q] in s.tree.Values && (q == [] ==> q in s.tree && u.tree[q] == s.tree[q]) {
      RelocatedAt(s.tree, src, dst, q);
    }
    forall q | q in u.links ensures q != [] && u.links[q] in s.links.Values {
      RelocatedAt(s.links, src, dst, q);
    }
  }

  lemma MoveRooted(s: Stage, src: Path, dst: Path)
    requires Typed(s) && Rooted(s) && MoveStarts(s, src, dst)
    ensures Rooted(RenameTree(s, src, dst)) && Typed(RenameTree(s, src, dst))
  {
    var u := ShiftTree(s, src, dst);
    forall q, i | (q in u.tree || q in u.links) && 1 <= i < |q| && (Under(dst, q) ==> |dst| <= i)
      ensures IsDir(u.tree, q[..i])
    {
      if Under(dst, q) { ParentsInsideMove(s, src, dst, q, i); }
      else { ParentsBesideMove(s, src, dst, q, i); }
    }
    AddParentsRoots(u, dst);
    ShiftTyped(s, src, dst);
    AddParentsTyped(u, dst);
  }

  /** After the whole move: under `dst` is what was under `src`. */
  lemma RenameTreeInside(s: Stage, src: Path, dst: Path, q: Path)
    requires Rooted(s) && MoveStarts(s, src, dst) && Under(dst, q)
    ensures (q in RenameTree(s, src, dst).tree) == (Moved(dst, src, q) in s.tree)
    ensures q in RenameTree(s, src, dst).tree ==>
              RenameTree(s, src, dst).tree[q] == s.tree[Moved(dst, src, q)]
    ensures q != dst ==> Lookup(RenameTree(s, src, dst), q) == Lookup(s, Moved(dst, src, q))
  {
    ShiftTreeAt(s, src, dst, q);
    NewDirAt(ShiftTree(s, src, dst), dst, q);
  }

  /** Elsewhere nothing changes, except that missing directories above `dst` appear. */
  lemma RenameTreeOutside(s: Stage, src: Path, dst: Path, q: Path)
    requires Rooted(s) && MoveStarts(s, src, dst) && !Under(dst, q)
    ensures q !in Above(dst) && !Under(src, q) ==> Lookup(RenameTree(s, src, dst), q) == Lookup(s, q)
    ensures q !in Above(dst) && Under(src, q) ==> Lookup(RenameTree(s, src, dst), q).None?
    ensures q in s.tree && !Under(src, q) ==>
              q in RenameTree(s, src, dst).tree && RenameTree(s, src, dst).tree[q] == s.tree[q]
    ensures q in RenameTree(s, src, dst).tree && !(q in s.tree && !Under(src, q)) ==>
              q in Above(dst) && RenameTree(s, src, dst).tree[q] == NEW_DIRECTORY
  {
    ShiftTreeAt(s, src, dst, q);
    NewDirAt(ShiftTree(s, src, dst), dst, q);
    AboveIff(dst, q);
    RelocatedAt(s.tree, src, dst, q);
  }

  /** A moved directory's hash is right at its new path exactly when it was right before. */
  lemma MovedFreshness(s: Stage, src: Path, dst: Path, e: Path)
    requires Rooted(s) && MoveStarts(s, src, dst) && Under(dst, e)
    ensures Fresh(RenameTree(s, src, dst), e) <==> Fresh(s, Moved(dst, src, e))
  {
    var t := RenameTree(s, src, dst);
    var d := Moved(dst, src, e);
    RenameTreeInside(s, src, dst, e);
    forall n: Name ensures Lookup(s, d + [n]) == Lookup(t, e + [n]) {
      MovedChild(s, src, dst, e, n);
    }
    SameChildren(s, d, t, e);
  }

  lemma MovedChild(s: Stage, src: Path, dst: Path, e: Path, n: Name)
    requires Rooted(s) && MoveStarts(s, src, dst) && Under(dst, e)
    ensures Lookup(s, Moved(dst, src, e) + [n]) == Lookup(RenameTree(s, src, dst), e + [n])
  {
    UnderChild(dst, e, n);
    assert Moved(dst, src, e + [n]) == Moved(dst, src, e) + [n];
    RenameTreeInside(s, src, dst, e + [n]);
  }

  /** Every moved directory is up to date or lands on a dirty path, and no moved
      file lands on a dirty path. */
  ghost predicate MoveCovered(s: Stage, src: Path, dst: Path) {
    forall p :: p in s.tree && Under(src, p) ==>
      if s.tree[p].kind.TreeObject? then Fresh(s, p) || Moved(src, dst, p) in s.dirty
      else Moved(src, dst, p) !in s.dirty
  }

  lemma MoveDirties(s: Stage, src: Path, dst: Path)
    requires src != [] && dst != []
    ensures RenameTree(s, src, dst).dirty == s.dirty + Above(dst) + Above(src)
  {
    ParentsDirty(ShiftTree(s, src, dst), dst);
    ParentsDirty(AddParents(ShiftTree(s, src, dst), dst), src);
  }

  lemma MoveDirty(s: Stage, src: Path, dst: Path, q: Path)
    requires Rooted(s) && MoveStarts(s, src, dst) && Under(dst, q)
    ensures q in RenameTree(s, src, dst).dirty <==> q in s.dirty
  {
    MoveDirties(s, src, dst);
    AboveIff(dst, q);
    AboveIff(src, q);
    MoveParentsOfSource(s, src, dst);
    assert |q| < |src| && src[..|q|] == q ==> Under(dst, src);
  }

  lemma MoveDirtyClosed(s: Stage, src: Path, dst: Path)
    requires Consistent(s) && MoveStarts(s, src, dst) && MoveCovered(s, src, dst)
    ensures DirtyClosed(RenameTree(s, src, dst))
  {
    var t := RenameTree(s, src, dst);
    MoveDirties(s, src, dst);
    DirtyStaysClosed(s.dirty, dst);
    DirtyStaysClosed(s.dirty + Above(dst), src);
    MoveRooted(s, src, dst);
    forall q | q in t.dirty && q in t.tree ensures t.tree[q].kind.TreeObject? {
      AboveIff(src, q);
      AboveIff(dst, q);
      if Under(dst, q) {
        MoveDirty(s, src, dst, q);
        RenameTreeInside(s, src, dst, q);
        MovedBack(dst, src, q);
      } else if q in s.dirty {
        RenameTreeOutside(s, src, dst, q);
      } else if q != [] {
        MoveHasParents(s, src, dst);
      }
    }
  }

  lemma MoveHasParents(s: Stage, src: Path, dst: Path)
    requires Typed(s) && Rooted(s) && MoveStarts(s, src, dst)
    ensures HasParents(RenameTree(s, src, dst).tree, src) && HasParents(RenameTree(s, src, dst).tree, dst)
  {
    var u := ShiftTree(s, src, dst);
    MoveParentsOfSource(s, src, dst);
    forall i | 1 <= i < |src| ensures IsDir(RenameTree(s, src, dst).tree, src[..i]) {
      assert IsDir(u.tree, src[..i]);
      NewDirAt(u, dst, src[..i]);
    }
    forall i | 1 <= i < |dst| ensures IsDir(RenameTree(s, src, dst).tree, dst[..i]) {
      NewDirAt(u, dst, dst[..i]);
    }
  }

  /** Moving a directory keeps the invariant exactly when the move is covered. */
  lemma RenameTreeKeepsIff(s: Stage, src: Path, dst: Path)
    requires Consistent(s) && MoveStarts(s, src, dst)
    ensures Consistent(RenameTree(s, src, dst)) <==> MoveCovered(s, src, dst)
  {
    var t := RenameTree(s, src, dst);
    MoveRooted(s, src, dst);
    if MoveCovered(s, src, dst) {
      MoveDirtyClosed(s, src, dst);
      forall e | e !in t.dirty ensures Fresh(t, e) {
        MoveKeepsFresh(s, src, dst, e);
      }
    }
    if Consistent(t) {
      forall p | p in s.tree && Under(src, p)
        ensures if s.tree[p].kind.TreeObject? then Fresh(s, p) || Moved(src, dst, p) in s.dirty
                else Moved(src, dst, p) !in s.dirty
      {
        var q := Moved(src, dst, p);
        MovedBack(src, dst, p);
        RenameTreeInside(s, src, dst, q);
        MoveDirty(s, src, dst, q);
        if q !in t.dirty { MovedFreshness(s, src, dst, q); }
      }
    }
  }

  lemma MoveKeepsFresh(s: Stage, src: Path, dst: Path, e: Path)
    requires Consistent(s) && MoveStarts(s, src, dst) && MoveCovered(s, src, dst)
    requires e !in RenameTree(s, src, dst).dirty
    ensures Fresh(RenameTree(s, src, dst), e)
  {
    if Under(dst, e) {
      MoveDirty(s, src, dst, e);
      RenameTreeInside(s, src, dst, e);
      MovedBack(dst, src, e);
      MovedFreshness(s, src, dst, e);
    } else if e == [] || IsDir(RenameTree(s, src, dst).tree, e) {
      FreshBesideMove(s, src, dst, e);
    }
  }

  /** A directory beside the move whose parents were not marked keeps its children. */
  lemma ChildBesideMove(s: Stage, src: Path, dst: Path, e: Path, n: Name)
    requires Rooted(s) && MoveStarts(s, src, dst) && !Under(dst, e) && !Under(src, e)
    requires e !in Above(dst) && e !in Above(src)
    ensures Lookup(s, e + [n]) == Lookup(RenameTree(s, src, dst), e + [n])
  {
    var q := e + [n];
    assert q[..|e|] == e;
    AboveIff(dst, q);
    AboveIff(dst, e);
    AboveIff(src, e);
    UnderChild(dst, e, n);
    UnderChild(src, e, n);
    RenameTreeOutside(s, src, dst, q);
  }

  lemma FreshBesideMove(s: Stage, src: Path, dst: Path, e: Path)
    requires Consistent(s) && MoveStarts(s, src, dst) && !Under(dst, e)
    requires e !in RenameTree(s, src, dst).dirty && (e == [] || IsDir(RenameTree(s, src, dst).tree, e))
    ensures Fresh(RenameTree(s, src, dst), e)
  {
    var t := RenameTree(s, src, dst);
    MoveDirties(s, src, dst);
    RenameTreeOutside(s, src, dst, e);
    AboveIff(dst, e);
    AboveIff(src, e);
    forall n: Name ensures Lookup(s, e + [n]) == Lookup(t, e + [n]) { ChildBesideMove(s, src, dst, e, n); }
    SameChildren(s, e, t, e);
    assert Fresh(s, e);
  }
}
