/** What a diff means: patching the base with it gives the head, and renames say
    neither more nor less than the deletions and additions they replace. */
module DiffMeaning {
  import opened GitTypes
  import opened GitObjects
  import opened Sorting
  import opened CommitDiff

  // ----- renames as deletions and additions

  function DeletedPart(r: CommitFile): CommitFile {
    CommitFile(Deleted, r.oldPath, [], r.oldHash, r.oldHash, r.oldMode, 0, r.oldKind, r.oldKind)
  }

  function AddedPart(r: CommitFile): CommitFile {
    CommitFile(Added, r.path, [], r.hash, Zero, r.mode, 0, r.kind, None)
  }

  /** A change of which a rename keeps everything. */
  predicate Simple(c: CommitFile) {
    match c.status
    case Added => c == AddedPart(c)
    case Deleted => c.oldPath == [] && c.hash == c.oldHash && c.oldMode == 0 && c.oldKind == c.kind
    case Modified => true
    case Renamed => false
  }

  ghost predicate AllSimple(all: set<CommitFile>) { forall c :: c in all ==> Simple(c) }

  /** The change is listed, or is part of a listed rename. */
  ghost predicate Says(changes: set<CommitFile>, c: CommitFile) {
    (c in changes && c.status != Renamed) ||
    exists r :: r in changes && r.status == Renamed && (c == DeletedPart(r) || c == AddedPart(r))
  }

  lemma RenameParts(all: set<CommitFile>, h: Hash, i: nat)
    requires DistinctPaths(all) && AllSimple(all) && i < Pairs(all, h)
    ensures var r := RenameOf(all, h, i);
            DeletedPart(r) == SideList(all, Deleted, h)[i] && AddedPart(r) == SideList(all, Added, h)[i] &&
            DeletedPart(r) in all && AddedPart(r) in all && r.hash == r.oldHash == h && r.status == Renamed
  {
    SideListed(all, Deleted, h, i);
    SideListed(all, Added, h, i);
    assert Simple(SideList(all, Deleted, h)[i]) && Simple(SideList(all, Added, h)[i]);
  }

  lemma RenamesGrow(all: set<CommitFile>, h: Hash, n: nat)
    requires DistinctPaths(all) && 0 < n <= Pairs(all, h)
    ensures RenamesFor(all, h, n - 1) <= RenamesFor(all, h, n) && RenameOf(all, h, n - 1) in RenamesFor(all, h, n)
  {
  }

  lemma {:induction false} RenameListed(all: set<CommitFile>, h: Hash, n: nat, i: nat)
    requires DistinctPaths(all) && i < n <= Pairs(all, h)
    ensures RenameOf(all, h, i) in RenamesFor(all, h, n)
  {
    RenamesGrow(all, h, n);
    if i < n - 1 { RenameListed(all, h, n - 1, i); }
  }

  lemma RenameReported(all: set<CommitFile>, h: Hash, i: nat)
    requires DistinctPaths(all) && i < Pairs(all, h)
    ensures RenameOf(all, h, i) in WithRenames(all)
  {
    SideListed(all, Deleted, h, i);
    RenameListed(all, h, Pairs(all, h), i);
    assert h in DeletedHashes(all) && RenameOf(all, h, i) in AllRenamesFor(all, h);
    UnionMember((h: Hash) => AllRenamesFor(all, h), DeletedHashes(all), RenameOf(all, h, i));
  }

  /** A change of the plain diff is said by the diff with renames. */
  lemma PlainIsSaid(all: set<CommitFile>, c: CommitFile)
    requires DistinctPaths(all) && AllSimple(all) && c in all
    ensures Says(WithRenames(all), c)
  {
    assert Simple(c);
    if Paired(all, c) {
      var h := MatchHash(c);
      var i :| 0 <= i < Pairs(all, h) && SideList(all, c.status, h)[i] == c;
      RenameParts(all, h, i);
      RenameReported(all, h, i);
      assert RenameOf(all, h, i).status == Renamed;
    }
  }

  /** What the diff with renames says is in the plain diff. */
  lemma SaidIsPlain(all: set<CommitFile>, c: CommitFile)
    requires DistinctPaths(all) && AllSimple(all) && Says(WithRenames(all), c)
    ensures c in all
  {
    if c in WithRenames(all) && c.status != Renamed {
      if c in RenamesIn(all, DeletedHashes(all)) {
        var h, i := RenameOrigin(all, DeletedHashes(all), c);
        assert false;
      }
    } else {
      var r :| r in WithRenames(all) && r.status == Renamed && (c == DeletedPart(r) || c == AddedPart(r));
      assert r in all ==> Simple(r);
      assert r !in Unpaired(all, all);
      var h, i := RenameOrigin(all, DeletedHashes(all), r);
      RenameParts(all, h, i);
    }
  }

  /** Taking every rename apart gives back exactly the plain changes. */
  lemma RenamesSayTheSame(all: set<CommitFile>, c: CommitFile)
    requires DistinctPaths(all) && AllSimple(all)
    ensures Says(WithRenames(all), c) <==> c in all
  {
    if c in all { PlainIsSaid(all, c); }
    if Says(WithRenames(all), c) { SaidIsPlain(all, c); }
  }

  // ----- how many renames

  lemma {:induction false} ListedCount(s: seq<CommitFile>, all: set<CommitFile>)
    requires ListsSet(s, all)
    ensures |all| == |s|
  {
    if s == [] {
      assert all == {};
    } else {
      var c := s[0];
      assert c in s;
      assert ListsSet(s[1..], all - {c}) by {
        assert forall x :: x in s <==> x == c || x in s[1..];
      }
      ListedCount(s[1..], all - {c});
    }
  }

  lemma {:induction false} RenamesCount(all: set<CommitFile>, h: Hash, n: nat)
    requires DistinctPaths(all) && n <= Pairs(all, h)
    ensures |RenamesFor(all, h, n)| == n
  {
    if n > 0 {
      RenamesCount(all, h, n - 1);
      RenameIsFresh(all, h, n - 1);
      OneMoreCounts(RenamesFor(all, h, n - 1), RenameOf(all, h, n - 1));
    }
  }

  lemma OneMoreCounts<T>(s: set<T>, x: T)
    requires x !in s
    ensures |s + {x}| == |s| + 1
  {
  }

  lemma RenameIsFresh(all: set<CommitFile>, h: Hash, n: nat)
    requires DistinctPaths(all) && n < Pairs(all, h)
    ensures RenameOf(all, h, n) !in RenamesFor(all, h, n)
  {
    if RenameOf(all, h, n) in RenamesFor(all, h, n) {
      var j := RenameIndex(all, h, n, RenameOf(all, h, n));
      RenamesApart(all, h, j, h, n);
    }
  }

  ghost function RenamesOf(all: set<CommitFile>, h: Hash): set<CommitFile>
    requires DistinctPaths(all)
  {
    set r | r in WithRenames(all) && r.status == Renamed && r.hash == h
  }

  lemma RenamesOfHash(all: set<CommitFile>, h: Hash, r: CommitFile)
    requires DistinctPaths(all) && AllSimple(all)
    ensures r in RenamesOf(all, h) <==> r in RenamesFor(all, h, Pairs(all, h))
  {
    if r in RenamesOf(all, h) {
      assert r in all ==> Simple(r);
      assert r !in Unpaired(all, all);
      var g, i := RenameOrigin(all, DeletedHashes(all), r);
      RenameParts(all, g, i);
      RenameListed(all, h, Pairs(all, h), i);
    }
    if r in RenamesFor(all, h, Pairs(all, h)) {
      var i := RenameIndex(all, h, Pairs(all, h), r);
      RenameParts(all, h, i);
      RenameReported(all, h, i);
    }
  }

  /** Files are paired one to one: as many renames of a content as there are deletions
      and additions of it to pair. */
  lemma RenamesPerHash(all: set<CommitFile>, h: Hash)
    requires DistinctPaths(all) && AllSimple(all)
    ensures |RenamesOf(all, h)| == Smaller(|Side(all, Deleted, h)|, |Side(all, Added, h)|)
  {
    forall r ensures r in RenamesOf(all, h) <==> r in RenamesFor(all, h, Pairs(all, h)) { RenamesOfHash(all, h, r); }
    assert RenamesOf(all, h) == RenamesFor(all, h, Pairs(all, h));
    RenamesCount(all, h, Pairs(all, h));
    ListedCount(SideList(all, Deleted, h), Side(all, Deleted, h));
    ListedCount(SideList(all, Added, h), Side(all, Added, h));
  }

  // ----- what the fields say

  /** The new fields are the head's and the old ones the base's, at the paths named;
      a mode taken from the base has sixteen bits. */
  ghost predicate FieldsFrom(base: Tree, head: Tree, c: CommitFile) {
    match c.status
    case Added =>
      && c.path in head && c.path !in base && Info(c.hash, c.mode, head[c.path].kind) == head[c.path]
      && c.kind == Some(head[c.path].kind)
      && c.oldPath == [] && c.oldHash == Zero && c.oldMode == 0 && c.oldKind == None
    case Modified =>
      && c.path in head && c.path in base && Info(c.hash, c.mode, head[c.path].kind) == head[c.path]
      && c.kind == Some(head[c.path].kind) && c.kind != Some(TreeType) && c.oldPath == []
      && c.oldHash == base[c.path].hash != c.hash
      && c.oldMode == base[c.path].mode % 65536 && c.oldKind == Some(base[c.path].kind)
    case Deleted =>
      && c.path in base && c.path !in head && c.hash == c.oldHash == base[c.path].hash
      && c.mode == base[c.path].mode % 65536 && c.kind == c.oldKind == Some(base[c.path].kind)
      && c.oldPath == [] && c.oldMode == 0
    case Renamed =>
      && c.path in head && c.path !in base && Info(c.hash, c.mode, head[c.path].kind) == head[c.path]
      && c.kind == Some(head[c.path].kind)
      && c.oldPath in base && c.oldPath !in head && c.oldHash == c.hash == base[c.oldPath].hash
      && c.oldMode == base[c.oldPath].mode % 65536 && c.oldKind == Some(base[c.oldPath].kind)
  }

  lemma ChangesSimple(base: Tree, head: Tree)
    ensures DistinctPaths(Changes(base, head)) && AllSimple(Changes(base, head))
  {
    ChangesDistinct(base, head);
  }

  lemma PlainFields(base: Tree, head: Tree, c: CommitFile)
    requires c in Changes(base, head)
    ensures FieldsFrom(base, head, c)
  {
    if c in BaseChanges(base, head, base.Keys) {
      assert c == DeletedFile(c.path, base[c.path]);
    } else if c.path in base {
      assert c == ModifiedFile(c.path, base[c.path], head[c.path]);
    } else {
      assert c == AddedFile(c.path, head[c.path]);
    }
  }

  lemma RenameFields(base: Tree, head: Tree, r: CommitFile)
    requires r.status == Renamed && r.hash == r.oldHash
    requires FieldsFrom(base, head, DeletedPart(r)) && FieldsFrom(base, head, AddedPart(r))
    ensures FieldsFrom(base, head, r)
  {
  }

  /** Every field of a reported change is that of the tree it is about. */
  lemma FieldsAreTheTrees(base: Tree, head: Tree, detectRenames: bool, c: CommitFile)
    requires c in Reported(base, head, detectRenames)
    ensures FieldsFrom(base, head, c)
  {
    var all := Changes(base, head);
    ChangesSimple(base, head);
    if c in all {
      PlainFields(base, head, c);
    } else {
      RenameIsMade(all, c);
      PlainFields(base, head, DeletedPart(c));
      PlainFields(base, head, AddedPart(c));
      RenameFields(base, head, c);
    }
  }

  /** A reported change that is none of the plain ones replaces two of them. */
  lemma RenameIsMade(all: set<CommitFile>, r: CommitFile)
    requires DistinctPaths(all) && AllSimple(all) && r in WithRenames(all) && r !in all
    ensures r.status == Renamed && r.hash == r.oldHash && DeletedPart(r) in all && AddedPart(r) in all
  {
    var h, i := RenameOrigin(all, DeletedHashes(all), r);
    RenameParts(all, h, i);
  }

  /** The paths of one tree that are not in the other and have this content. */
  ghost function OnlyIn(some: Tree, other: Tree, h: Hash): set<Bytes> {
    set p | p in some && p !in other && some[p].hash == h
  }

  lemma {:induction false} ImageCount(paths: set<Bytes>, f: Bytes -> CommitFile)
    requires forall p, q :: p in paths && q in paths && f(p) == f(q) ==> p == q
    ensures |set p | p in paths :: f(p)| == |paths|
  {
    if paths != {} {
      var p :| p in paths;
      var image, rest := set q | q in paths :: f(q), set q | q in paths - {p} :: f(q);
      ImageCount(paths - {p}, f);
      assert image == rest + {f(p)};
    }
  }

  lemma DeletedCounts(base: Tree, head: Tree, h: Hash)
    ensures |Side(Changes(base, head), Deleted, h)| == |OnlyIn(base, head, h)|
  {
    var gone, side := OnlyIn(base, head, h), Side(Changes(base, head), Deleted, h);
    var change := (p: Bytes) => DeletedFile(p, if p in base then base[p] else Info(Zero, 0, TreeType));
    ImageCount(gone, change);
    forall c ensures c in side <==> c in set p | p in gone :: change(p) {
      if c in side {
        PlainFields(base, head, c);
        assert c.path in gone && c == change(c.path);
      }
    }
    assert side == set p | p in gone :: change(p);
  }

  lemma AddedCounts(base: Tree, head: Tree, h: Hash)
    ensures |Side(Changes(base, head), Added, h)| == |OnlyIn(head, base, h)|
  {
    var arrived, side := OnlyIn(head, base, h), Side(Changes(base, head), Added, h);
    var change := (p: Bytes) => AddedFile(p, if p in head then head[p] else Info(Zero, 0, TreeType));
    ImageCount(arrived, change);
    forall c ensures c in side <==> c in set p | p in arrived :: change(p) {
      if c in side {
        PlainFields(base, head, c);
        assert c.path in arrived && c == change(c.path);
      }
    }
    assert side == set p | p in arrived :: change(p);
  }

  /** A content found at paths of the base that are gone, and at new paths of the head,
      is reported as renamed as often as there are both. */
  lemma SameContentIsRenamed(base: Tree, head: Tree, h: Hash)
    ensures |set r | r in Reported(base, head, true) && r.status == Renamed && r.hash == h| ==
            Smaller(|OnlyIn(base, head, h)|, |OnlyIn(head, base, h)|)
  {
    var all := Changes(base, head);
    ChangesSimple(base, head);
    RenamesPerHash(all, h);
    DeletedCounts(base, head, h);
    AddedCounts(base, head, h);
    assert RenamesOf(all, h) == set r | r in Reported(base, head, true) && r.status == Renamed && r.hash == h;
  }

  // ----- patching

  predicate Writes(c: CommitFile, p: Bytes) {
    (c.status == Added || c.status == Modified) && c.path == p && c.kind.Some?
  }

  predicate Erases(c: CommitFile, p: Bytes) { c.status == Deleted && c.path == p }

  /** What is at a path after the base has been patched with all that the changes say. */
  ghost function PatchedAt(base: Tree, changes: set<CommitFile>, p: Bytes): Option<Info> {
    if exists c :: Says(changes, c) && Writes(c, p) then
      var c :| Says(changes, c) && Writes(c, p);
      Some(Info(c.hash, c.mode, c.kind.value))
    else if p !in base || exists c :: Says(changes, c) && Erases(c, p) then None
    else Some(base[p])
  }

  /** The reported changes say exactly the plain ones, renames or not. */
  lemma ReportedSays(base: Tree, head: Tree, detectRenames: bool, c: CommitFile)
    ensures Says(Reported(base, head, detectRenames), c) <==> c in Changes(base, head)
  {
    ChangesSimple(base, head);
    if detectRenames {
      RenamesSayTheSame(Changes(base, head), c);
    } else {
      assert c in Changes(base, head) ==> Simple(c);
    }
  }

  lemma PlainWrites(base: Tree, head: Tree, p: Bytes, c: CommitFile)
    requires c in Changes(base, head) && Writes(c, p)
    ensures p in head && Info(c.hash, c.mode, c.kind.value) == head[p]
    ensures p in base ==> Differs(base[p], head[p])
  {
  }

  lemma PlainErases(base: Tree, head: Tree, p: Bytes)
    ensures (exists c :: c in Changes(base, head) && Erases(c, p)) <==> p in base && p !in head
  {
    if p in base && p !in head {
      var c := DeletedFile(p, base[p]);
      assert c in Changes(base, head) && Erases(c, p);
    }
  }

  lemma PlainWritten(base: Tree, head: Tree, p: Bytes)
    requires p in head && (p !in base || Differs(base[p], head[p]))
    ensures exists c :: c in Changes(base, head) && Writes(c, p)
  {
    var c := if p !in base then AddedFile(p, head[p]) else ModifiedFile(p, base[p], head[p]);
    assert c in Changes(base, head) && Writes(c, p);
  }

  /** Patching the base with the reported changes: what is new or differs is as in the
      head, what is gone is gone, and everything else is as in the base. */
  lemma Patched(base: Tree, head: Tree, detectRenames: bool, p: Bytes)
    ensures PatchedAt(base, Reported(base, head, detectRenames), p) ==
            if p !in head then None
            else if p !in base || Differs(base[p], head[p]) then Some(head[p])
            else Some(base[p])
  {
    var changes := Reported(base, head, detectRenames);
    forall c ensures Says(changes, c) <==> c in Changes(base, head) { ReportedSays(base, head, detectRenames, c); }
    if p in head && (p !in base || Differs(base[p], head[p])) { PlainWritten(base, head, p); }
    if exists c :: Says(changes, c) && Writes(c, p) {
      var c :| Says(changes, c) && Writes(c, p) &&
        PatchedAt(base, changes, p) == Some(Info(c.hash, c.mode, c.kind.value));
      PlainWrites(base, head, p, c);
    } else {
      PlainErases(base, head, p);
    }
  }

  /** The patched base has the head's paths, and the head's content at every path that
      is not a directory. */
  lemma PatchGivesHead(base: Tree, head: Tree, detectRenames: bool, p: Bytes)
    ensures var patched := PatchedAt(base, Reported(base, head, detectRenames), p);
            (patched.Some? <==> p in head) &&
            (p in head && head[p].kind != TreeType ==> patched.value.hash == head[p].hash)
  {
    Patched(base, head, detectRenames, p);
  }

  /** It is the head altogether exactly when no path kept its content but changed its
      mode or type, and no directory stayed one and changed. */
  lemma PatchIsHeadIff(base: Tree, head: Tree, detectRenames: bool)
    ensures (forall p :: PatchedAt(base, Reported(base, head, detectRenames), p) ==
                         if p in head then Some(head[p]) else None) <==>
            forall p :: p in base && p in head ==> base[p] == head[p] || Differs(base[p], head[p])
  {
    forall p
      ensures PatchedAt(base, Reported(base, head, detectRenames), p) ==
              if p !in head then None
              else if p !in base || Differs(base[p], head[p]) then Some(head[p])
              else Some(base[p])
    { Patched(base, head, detectRenames, p); }
    if !forall p :: p in base && p in head ==> base[p] == head[p] || Differs(base[p], head[p]) {
      var p :| p in base && p in head && base[p] != head[p] && !Differs(base[p], head[p]);
      assert PatchedAt(base, Reported(base, head, detectRenames), p) == Some(base[p]);
    }
  }
}
