/** The loops over the writer's maps behind deleting and moving a directory. A map
    is ranged over in no particular order. */
module StagedMaps {
  import opened GitTypes
  import opened StagedTree

  /** Lists the paths at or below `d`, in some order. */
  method PathsUnder(entries: Entries, d: Path) returns (paths: seq<Path>)
    ensures IsListing(paths, entries, d)
  {
    var todo := entries.Keys;
    paths := [];
    while todo != {}
      invariant todo <= entries.Keys
      invariant forall p :: p in paths <==> p in entries.Keys - todo && Under(d, p)
      invariant forall i, j :: 0 <= i < j < |paths| ==> paths[i] != paths[j]
    {
      var p :| p in todo;
      todo := todo - {p};
      if Under(d, p) { paths := paths + [p]; }
    }
  }

  ghost predicate IsListing(paths: seq<Path>, entries: Entries, d: Path) {
    && (forall p :: p in paths <==> p in entries && Under(d, p))
    && (forall i, j :: 0 <= i < j < |paths| ==> paths[i] != paths[j])
  }

  /** Drops every entry at or below `d`. */
  method RemoveUnder(entries: Entries, d: Path) returns (r: Entries)
    ensures r == Outside(entries, d)
  {
    var doomed := PathsUnder(entries, d);
    r := entries;
    for k := 0 to |doomed|
      invariant forall p :: p in r <==> p in entries && p !in doomed[..k]
      invariant forall p :: p in r ==> r[p] == entries[p]
    {
      r := r - {doomed[k]};
    }
    assert doomed[..|doomed|] == doomed;
  }

  lemma MovesAway(src: Path, dst: Path, p: Path)
    requires src != dst && Under(src, p)
    ensures Moved(src, dst, p) != p
  {
    assert |Moved(src, dst, p)| == |dst| + |p| - |src|;
    assert Moved(src, dst, p)[..|dst|] == dst;
  }

  // ----- maps, one path at a time

  function At(m: Entries, q: Path): Option<Entry> {
    if q in m then Some(m[q]) else None
  }

  lemma SameAt(a: Entries, b: Entries)
    requires forall q :: At(a, q) == At(b, q)
    ensures a == b
  {
    forall q ensures q in a <==> q in b
             ensures q in a ==> a[q] == b[q] {
      assert At(a, q) == At(b, q);
    }
  }

  /** What a moved map holds at `q`: the relocated entry, or what was there outside `src`. */
  function ShiftedAt(m: Entries, src: Path, dst: Path, q: Path): Option<Entry> {
    if Under(dst, q) && Moved(dst, src, q) in m then At(m, Moved(dst, src, q))
    else if Under(src, q) then None
    else At(m, q)
  }

  lemma ShiftedIs(m: Entries, src: Path, dst: Path, q: Path)
    ensures At(Outside(m, src) + Relocated(m, src, dst), q) == ShiftedAt(m, src, dst, q)
  {
    RelocatedAt(m, src, dst, q);
  }

  /** What is at `q` once the entries of `done` have been copied to their new places. */
  function CopiedAt(m: Entries, done: set<Path>, src: Path, dst: Path, q: Path): Option<Entry> {
    if Under(dst, q) && Moved(dst, src, q) in done then At(m, Moved(dst, src, q)) else At(m, q)
  }

  lemma CopyOneMore(m: Entries, done: set<Path>, src: Path, dst: Path, p: Path, q: Path)
    requires p in m && Under(src, p)
    ensures CopiedAt(m, done + {p}, src, dst, q) ==
            if q == Moved(src, dst, p) then Some(m[p]) else CopiedAt(m, done, src, dst, q)
  {
    MovedBack(src, dst, p);
    if Under(dst, q) { MovedBack(dst, src, q); }
  }

  // ----- moving entries: copy all, then delete all

  /** The listed entries copied one after the other. */
  function Copied(m: Entries, src: Path, dst: Path, order: seq<Path>): Entries
    requires forall p :: p in order ==> p in m && Under(src, p)
    decreases |order|
  {
    if order == [] then m
    else
      var p := order[|order| - 1];
      var before := Copied(m, src, dst, order[..|order| - 1]);
      if p in before then before[Moved(src, dst, p) := before[p]] else before
  }

  lemma {:induction false} CopiedIs(m: Entries, src: Path, dst: Path, order: seq<Path>, q: Path)
    requires forall p :: p in order ==> p in m && Under(src, p)
    ensures q in m ==> q in Copied(m, src, dst, order)
    ensures NoOverlap(m, src, dst) ==>
              At(Copied(m, src, dst, order), q) == CopiedAt(m, (set p | p in order), src, dst, q)
    decreases |order|
  {
    if order != [] {
      var init, p := order[..|order| - 1], order[|order| - 1];
      assert (set x | x in order) == (set x | x in init) + {p} by { assert order == init + [p]; }
      CopiedIs(m, src, dst, init, q);
      CopiedIs(m, src, dst, init, p);
      CopyOneMore(m, (set x | x in init), src, dst, p, q);
      if Under(dst, p) { MovedBack(dst, src, p); }
    }
  }

  /** All entries under `src` copied in the order `order`, and then deleted. */
  function MovedOver(m: Entries, src: Path, dst: Path, order: seq<Path>): Entries
    requires forall p :: p in order ==> p in m && Under(src, p)
  {
    Copied(m, src, dst, order) - (set p | p in order)
  }

  /** Copies every entry under `src` to its new path, then deletes the old paths. */
  method MoveEntries(entries: Entries, src: Path, dst: Path) returns (r: Entries)
    ensures exists order :: IsListing(order, entries, src) && r == MovedOver(entries, src, dst, order)
  {
    var moving := PathsUnder(entries, src);
    r := entries;
    for k := 0 to |moving|
      invariant r == Copied(entries, src, dst, moving[..k])
    {
      var p := moving[k];
      assert p in moving;
      CopiedIs(entries, src, dst, moving[..k], p);
      assert moving[..k + 1][..k] == moving[..k] && moving[..k + 1][k] == p;
      r := r[Moved(src, dst, p) := r[p]];
    }
    assert moving[..|moving|] == moving;
    ghost var copied := r;
    for k := 0 to |moving|
      invariant forall q :: At(r, q) == if q in moving[..k] then None else At(copied, q)
    {
      assert moving[..k + 1] == moving[..k] + [moving[k]];
      r := r - {moving[k]};
    }
    forall q ensures At(r, q) == At(MovedOver(entries, src, dst, moving), q) {}
    SameAt(r, MovedOver(entries, src, dst, moving));
  }

  /** When no entry is in the way of another, the move is the relocation. */
  lemma MovedOverIs(m: Entries, src: Path, dst: Path, order: seq<Path>)
    requires NoOverlap(m, src, dst) && IsListing(order, m, src)
    ensures MovedOver(m, src, dst, order) == Outside(m, src) + Relocated(m, src, dst)
  {
    forall q ensures At(MovedOver(m, src, dst, order), q) == At(Outside(m, src) + Relocated(m, src, dst), q) {
      CopiedIs(m, src, dst, order, q);
      ShiftedIs(m, src, dst, q);
      if Under(dst, q) { MovedBack(dst, src, q); }
    }
    SameAt(MovedOver(m, src, dst, order), Outside(m, src) + Relocated(m, src, dst));
  }

  // ----- reparenting gitlinks: move one at a time

  /** The listed gitlinks moved one after the other. */
  function Reparented(m: Entries, src: Path, dst: Path, order: seq<Path>): Entries
    requires forall p :: p in order ==> Under(src, p)
    decreases |order|
  {
    if order == [] then m
    else
      var p := order[|order| - 1];
      var before := Reparented(m, src, dst, order[..|order| - 1]);
      if p in before then (before - {p})[Moved(src, dst, p) := before[p]] else before
  }

  method ReparentSubmodules(links: Entries, src: Path, dst: Path) returns (r: Entries)
    requires src != dst
    ensures exists order :: IsListing(order, links, src) && r == Reparented(links, src, dst, order)
  {
    var renames := PathsUnder(links, src);
    r := links;
    for k := 0 to |renames|
      invariant r == Reparented(links, src, dst, renames[..k])
      invariant forall j :: k <= j < |renames| ==> renames[j] in r
    {
      var p := renames[k];
      assert renames[..k + 1][..k] == renames[..k] && renames[..k + 1][k] == p;
      r := (r - {p})[Moved(src, dst, p) := r[p]];
    }
    assert renames[..|renames|] == renames;
  }

  lemma SplitLast(order: seq<Path>)
    requires order != []
    ensures var init, p := order[..|order| - 1], order[|order| - 1];
            (forall x :: x in order <==> x in init || x == p) &&
            (set x | x in order) == (set x | x in init) + {p}
  {
    assert order == order[..|order| - 1] + [order[|order| - 1]];
  }

  /** When no gitlink is in the way of another, the order does not matter. */
  lemma {:induction false} ReparentedIs(m: Entries, src: Path, dst: Path, order: seq<Path>, q: Path)
    requires NoOverlap(m, src, dst) && src != dst
    requires forall p :: p in order ==> p in m && Under(src, p)
    requires forall i, j :: 0 <= i < j < |order| ==> order[i] != order[j]
    ensures At(Reparented(m, src, dst, order), q) ==
            if q in order then None else CopiedAt(m, (set p | p in order), src, dst, q)
    decreases |order|
  {
    if order != [] {
      var init, p := order[..|order| - 1], order[|order| - 1];
      var done := set x | x in init;
      SplitLast(order);
      ReparentedIs(m, src, dst, init, q);
      ReparentedIs(m, src, dst, init, p);
      CopyOneMore(m, done, src, dst, p, q);
      StaysPut(m, done, src, dst, p);
      assert At(Reparented(m, src, dst, order), q) ==
        if q == Moved(src, dst, p) then Some(m[p]) else if q == p then None
        else At(Reparented(m, src, dst, init), q);
      if q == Moved(src, dst, p) { MovesAway(src, dst, p); }
    }
  }

  /** What has still to move is not overwritten by what has moved. */
  lemma StaysPut(m: Entries, done: set<Path>, src: Path, dst: Path, p: Path)
    requires NoOverlap(m, src, dst) && p in m && Under(src, p) && forall x :: x in done ==> x in m && Under(src, x)
    ensures CopiedAt(m, done, src, dst, p) == Some(m[p])
    ensures Moved(src, dst, p) !in done
  {
    if Under(dst, p) { MovedBack(dst, src, p); }
  }

  lemma ReparentOrderIrrelevant(m: Entries, src: Path, dst: Path, order: seq<Path>)
    requires NoOverlap(m, src, dst) && src != dst && IsListing(order, m, src)
    ensures Reparented(m, src, dst, order) == Outside(m, src) + Relocated(m, src, dst)
  {
    forall q ensures At(Reparented(m, src, dst, order), q) == At(Outside(m, src) + Relocated(m, src, dst), q) {
      ReparentedIs(m, src, dst, order, q);
      ShiftedIs(m, src, dst, q);
      if Under(dst, q) { MovedBack(dst, src, q); }
    }
    SameAt(Reparented(m, src, dst, order), Outside(m, src) + Relocated(m, src, dst));
  }

  /** What is still to move stays where it is. */
  lemma {:induction false} NotYetReparented(m: Entries, src: Path, dst: Path, order: seq<Path>, p: Path)
    requires forall x :: x in order ==> Under(src, x)
    requires p in m && p !in order
    ensures p in Reparented(m, src, dst, order)
    decreases |order|
  {
    if order != [] { NotYetReparented(m, src, dst, order[..|order| - 1], p); }
  }

  lemma ReparentStep(m: Entries, src: Path, dst: Path, order: seq<Path>, p: Path)
    requires Under(src, p) && forall x :: x in order ==> Under(src, x)
    requires p in Reparented(m, src, dst, order)
    ensures var before := Reparented(m, src, dst, order);
            Reparented(m, src, dst, order + [p]) == (before - {p})[Moved(src, dst, p) := before[p]]
  {
    assert (order + [p])[..|order|] == order;
  }

  /** A set of paths listed in some order. */
  lemma {:induction false} SomeListing(paths: set<Path>) returns (order: seq<Path>)
    ensures forall p :: p in order <==> p in paths
    ensures forall i, j :: 0 <= i < j < |order| ==> order[i] != order[j]
    decreases |paths|
  {
    order := [];
    if paths != {} {
      var p :| p in paths;
      var rest := SomeListing(paths - {p});
      order := rest + [p];
    }
  }

  /** The gitlink at `p` is to move to `q`, where another one still is: moved first, it
      carries its own hash on; moved second, it stays at `q`. */
  lemma OverlapOrdersDiffer(m: Entries, src: Path, dst: Path, p: Path, rest: seq<Path>)
    requires src != dst && p in m && Under(src, p)
    requires var q := Moved(src, dst, p);
             Under(src, q) && q in m && p !in rest && q !in rest && forall x :: x in rest ==> Under(src, x)
    ensures var q := Moved(src, dst, p);
            q !in Reparented(m, src, dst, rest + [p] + [q]) && q in Reparented(m, src, dst, rest + [q] + [p])
  {
    var q := Moved(src, dst, p);
    var far := Moved(src, dst, q);
    MovesAway(src, dst, p);
    MovesAway(src, dst, q);
    NotYetReparented(m, src, dst, rest, p);
    NotYetReparented(m, src, dst, rest, q);
    ReparentStep(m, src, dst, rest, p);
    ReparentStep(m, src, dst, rest + [p], q);
    ReparentStep(m, src, dst, rest, q);
    ReparentStep(m, src, dst, rest + [q], p);
  }

  /** The map's order does not matter exactly when no gitlink's new path is the old
      path of another one. */
  lemma ReparentOrderIrrelevantIff(m: Entries, src: Path, dst: Path)
    requires src != dst
    ensures NoOverlap(m, src, dst) <==>
            forall a, b :: IsListing(a, m, src) && IsListing(b, m, src) ==>
              Reparented(m, src, dst, a) == Reparented(m, src, dst, b)
  {
    if NoOverlap(m, src, dst) {
      forall a, b | IsListing(a, m, src) && IsListing(b, m, src)
        ensures Reparented(m, src, dst, a) == Reparented(m, src, dst, b)
      {
        ReparentOrderIrrelevant(m, src, dst, a);
        ReparentOrderIrrelevant(m, src, dst, b);
      }
    } else {
      var p :| p in m && Under(src, p) && Under(src, Moved(src, dst, p)) && Moved(src, dst, p) in m;
      var a, b := OverlapOrders(m, src, dst, p);
    }
  }

  lemma TwoMoreListed(m: Entries, d: Path, rest: seq<Path>, p: Path, q: Path)
    requires p in m && q in m && Under(d, p) && Under(d, q) && p != q
    requires forall x :: x in rest <==> x in m && Under(d, x) && x != p && x != q
    requires forall i, j :: 0 <= i < j < |rest| ==> rest[i] != rest[j]
    ensures IsListing(rest + [p] + [q], m, d)
  {
    var a := rest + [p] + [q];
    forall i, j | 0 <= i < j < |a| ensures a[i] != a[j] {
      if i < |rest| { assert a[i] in rest; }
    }
  }

  /** Two listings with different results. */
  lemma OverlapOrders(m: Entries, src: Path, dst: Path, p: Path) returns (a: seq<Path>, b: seq<Path>)
    requires src != dst && p in m && Under(src, p)
    requires Under(src, Moved(src, dst, p)) && Moved(src, dst, p) in m
    ensures IsListing(a, m, src) && IsListing(b, m, src)
    ensures Moved(src, dst, p) !in Reparented(m, src, dst, a) && Moved(src, dst, p) in Reparented(m, src, dst, b)
  {
    var q := Moved(src, dst, p);
    MovesAway(src, dst, p);
    var rest := SomeListing((set x | x in m && Under(src, x)) - {p, q});
    a, b := rest + [p] + [q], rest + [q] + [p];
    TwoMoreListed(m, src, rest, p, q);
    TwoMoreListed(m, src, rest, q, p);
    OverlapOrdersDiffer(m, src, dst, p, rest);
  }

  // ----- both maps

  /** `u` is `s` after both loops of a subtree move, with the maps in some order. */
  ghost predicate Shifted(s: Stage, src: Path, dst: Path, u: Stage) {
    exists entries, links :: ShiftedBy(s, src, dst, entries, links, u)
  }

  ghost predicate ShiftedBy(s: Stage, src: Path, dst: Path, entries: seq<Path>, links: seq<Path>, u: Stage) {
    && IsListing(entries, s.tree, src) && IsListing(links, s.links, src)
    && u == s.(tree := MovedOver(s.tree, src, dst, entries), links := Reparented(s.links, src, dst, links))
  }

  lemma ShiftedIsShiftTree(s: Stage, src: Path, dst: Path, u: Stage)
    requires Shifted(s, src, dst, u) && src != dst && NoOverlap(s.tree, src, dst)
    ensures u.tree == ShiftTree(s, src, dst).tree
    ensures NoOverlap(s.links, src, dst) ==> u == ShiftTree(s, src, dst)
  {
    var entries, links :| ShiftedBy(s, src, dst, entries, links, u);
    MovedOverIs(s.tree, src, dst, entries);
    if NoOverlap(s.links, src, dst) { ReparentOrderIrrelevant(s.links, src, dst, links); }
  }
}
