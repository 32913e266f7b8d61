/** The changes between two commits, and the detection of renames among them. */
module CommitDiff {
  import opened GitTypes
  import opened GitObjects
  import opened Sequences
  import opened Sorting
  import opened TreeOrder

  /** One entry of a flat tree; the path is its text. */
  datatype FlatFile = FlatFile(path: Bytes, info: Info)

  datatype Info = Info(hash: Hash, mode: nat, kind: ObjectType)

  datatype Status = Added | Modified | Deleted | Renamed

  /** What is unset in the program's record is `Zero`, 0, `None` or empty. */
  datatype CommitFile = CommitFile(status: Status, path: Bytes, oldPath: Bytes, hash: Hash, oldHash: Hash,
                                   mode: nat, oldMode: nat, kind: Option<ObjectType>, oldKind: Option<ObjectType>)

  // ----- listing a set of changes by path

  predicate ByPath(a: CommitFile, b: CommitFile) { LexLess(a.path, b.path) }

  ghost predicate DistinctPaths(s: set<CommitFile>) {
    forall a, b :: a in s && b in s && a.path == b.path ==> a == b
  }

  /** `s` lists the set, no path twice. */
  ghost predicate ListsSet(s: seq<CommitFile>, all: set<CommitFile>) {
    && (forall c :: c in s <==> c in all)
    && (forall i, j :: 0 <= i < j < |s| ==> s[i].path != s[j].path)
  }

  lemma ByPathIsOrder()
    ensures StrictWeakOrder(ByPath)
  {
    LexIsOrder();
    forall a: CommitFile, b: CommitFile, c: CommitFile | ByPath(a, c) ensures ByPath(a, b) || ByPath(b, c) {
      LexSplits(a.path, b.path, c.path);
    }
    forall a: CommitFile, b: CommitFile, c: CommitFile | ByPath(a, b) && ByPath(b, c) ensures ByPath(a, c) {
      LexTransitive(a.path, b.path, c.path);
    }
    forall a: CommitFile ensures !ByPath(a, a) { LexIrreflexive(a.path); }
  }

  lemma ListOneMore(s: seq<CommitFile>, all: set<CommitFile>, c: CommitFile)
    requires ListsSet(s, all) && forall x :: x in all ==> x.path != c.path
    ensures ListsSet(s + [c], all + {c})
  {
    forall i, j | 0 <= i < j < |s| + 1 ensures (s + [c])[i].path != (s + [c])[j].path {
      assert s[i] in all || i == |s|;
    }
  }

  /** Sorting any listing puts it in path order. */
  lemma SortedLists(s: seq<CommitFile>, all: set<CommitFile>)
    requires ListsSet(s, all)
    ensures ListsSet(Sort(ByPath, s), all) && StrictlyOrdered(ByPath, Sort(ByPath, s))
  {
    var r := Sort(ByPath, s);
    ByPathIsOrder();
    SortOrders(ByPath, s);
    forall c ensures c in r <==> c in all { SameElements(r, s, c); }
    var path := (c: CommitFile) => c.path;
    assert DistinctKeys(path, s);
    ReorderedDistinct(path, s, r);
    assert forall i, j :: 0 <= i < j < |r| ==> path(r[i]) != path(r[j]);
    forall i, j | 0 <= i < j < |r| ensures ByPath(r[i], r[j]) || ByPath(r[j], r[i]) {
      LexTotal(r[i].path, r[j].path);
    }
    OrderedIsStrict(ByPath, r);
  }

  lemma {:induction false} SomeListing(all: set<CommitFile>)
    requires DistinctPaths(all)
    ensures exists s :: ListsSet(s, all)
    decreases |all|
  {
    if all == {} {
      assert ListsSet([], all);
    } else {
      var c :| c in all;
      SomeListing(all - {c});
      var s :| ListsSet(s, all - {c});
      ListOneMore(s, all - {c}, c);
      assert all - {c} + {c} == all;
    }
  }

  /** The changes in path order. */
  ghost function Listing(all: set<CommitFile>): (s: seq<CommitFile>)
    requires DistinctPaths(all)
    ensures ListsSet(s, all) && StrictlyOrdered(ByPath, s)
  {
    SomeListing(all);
    var s :| ListsSet(s, all);
    SortedLists(s, all);
    Sort(ByPath, s)
  }

  lemma ListedDistinct(s: seq<CommitFile>, all: set<CommitFile>)
    requires ListsSet(s, all)
    ensures DistinctPaths(all)
  {
    forall a, b | a in all && b in all && a.path == b.path ensures a == b {
      assert a in s && b in s;
      var i :| 0 <= i < |s| && s[i] == a;
      var j :| 0 <= j < |s| && s[j] == b;
    }
  }

  /** Whatever order the changes were found in, sorting gives the one listing. */
  lemma SortedIsListing(s: seq<CommitFile>, all: set<CommitFile>)
    requires ListsSet(s, all)
    ensures DistinctPaths(all) && Sort(ByPath, s) == Listing(all)
  {
    ListedDistinct(s, all);
    SortedLists(s, all);
    ByPathIsOrder();
    ListingUnique(ByPath, Sort(ByPath, s), Listing(all));
  }

  // ----- the plain changes

  type Tree = map<Bytes, Info>

  /** Modes are kept in sixteen bits. */
  function Short(mode: nat): nat { mode % 65536 }

  function AddedFile(path: Bytes, i: Info): CommitFile {
    CommitFile(Added, path, [], i.hash, Zero, i.mode, 0, Some(i.kind), None)
  }

  function ModifiedFile(path: Bytes, old': Info, i: Info): CommitFile {
    CommitFile(Modified, path, [], i.hash, old'.hash, i.mode, Short(old'.mode), Some(i.kind), Some(old'.kind))
  }

  function DeletedFile(path: Bytes, i: Info): CommitFile {
    CommitFile(Deleted, path, [], i.hash, i.hash, Short(i.mode), 0, Some(i.kind), Some(i.kind))
  }

  /** Whether a path present in both trees is reported: not for directories, and not
      for a change of mode alone. */
  predicate Differs(old': Info, i: Info) { old'.hash != i.hash && i.kind != TreeType }

  ghost function HeadChanges(base: Tree, head: Tree, paths: set<Bytes>): set<CommitFile>
    requires paths <= head.Keys
  {
    (set p | p in paths && p !in base :: AddedFile(p, head[p])) +
    (set p | p in paths && p in base && Differs(base[p], head[p]) :: ModifiedFile(p, base[p], head[p]))
  }

  ghost function BaseChanges(base: Tree, head: Tree, paths: set<Bytes>): set<CommitFile>
    requires paths <= base.Keys
  {
    set p | p in paths && p !in head :: DeletedFile(p, base[p])
  }

  ghost function Changes(base: Tree, head: Tree): set<CommitFile> {
    HeadChanges(base, head, head.Keys) + BaseChanges(base, head, base.Keys)
  }

  lemma ChangesDistinct(base: Tree, head: Tree)
    ensures DistinctPaths(Changes(base, head))
  {
  }

  function TreeOf(entries: seq<FlatFile>): Tree {
    if entries == [] then map[]
    else TreeOf(entries[..|entries| - 1])[entries[|entries| - 1].path := entries[|entries| - 1].info]
  }

  /** No path twice, as in every flattened tree. */
  ghost predicate WellListed(entries: seq<FlatFile>) {
    forall i, j :: 0 <= i < j < |entries| ==> entries[i].path != entries[j].path
  }

  lemma {:induction false} TreeOfTake(entries: seq<FlatFile>, k: nat)
    requires k < |entries|
    ensures TreeOf(entries[..k + 1]) == TreeOf(entries[..k])[entries[k].path := entries[k].info]
  {
    assert entries[..k + 1][..k] == entries[..k];
  }

  lemma {:induction false} TreeOfKeys(entries: seq<FlatFile>, k: nat, n: nat)
    requires k < n <= |entries| && WellListed(entries)
    ensures entries[k].path in TreeOf(entries[..n]) && TreeOf(entries[..n])[entries[k].path] == entries[k].info
    decreases n
  {
    TreeOfTake(entries, n - 1);
    if k < n - 1 { TreeOfKeys(entries, k, n - 1); }
  }

  lemma {:induction false} TreeOfOnly(entries: seq<FlatFile>, n: nat, p: Bytes)
    requires n <= |entries| && p in TreeOf(entries[..n])
    ensures exists k :: 0 <= k < n && entries[k].path == p
    decreases n
  {
    if n > 0 {
      TreeOfTake(entries, n - 1);
      if p != entries[n - 1].path { TreeOfOnly(entries, n - 1, p); }
    }
  }

  /** A path not yet visited is new among the visited ones. */
  lemma NewPath(entries: seq<FlatFile>, k: nat)
    requires k < |entries| && WellListed(entries)
    ensures entries[k].path !in TreeOf(entries[..k])
  {
    if entries[k].path in TreeOf(entries[..k]) {
      TreeOfOnly(entries, k, entries[k].path);
    }
  }

  lemma HeadOneMore(base: Tree, head: Tree, paths: set<Bytes>, p: Bytes, changes: seq<CommitFile>)
    requires paths <= head.Keys && p in head && p !in paths && ListsSet(changes, HeadChanges(base, head, paths))
    ensures ListsSet(if p !in base then changes + [AddedFile(p, head[p])]
                     else if Differs(base[p], head[p]) then changes + [ModifiedFile(p, base[p], head[p])]
                     else changes,
                     HeadChanges(base, head, paths + {p}))
  {
    var all, more := HeadChanges(base, head, paths), HeadChanges(base, head, paths + {p});
    if p !in base {
      ListOneMore(changes, all, AddedFile(p, head[p]));
      assert more == all + {AddedFile(p, head[p])};
    } else if Differs(base[p], head[p]) {
      ListOneMore(changes, all, ModifiedFile(p, base[p], head[p]));
      assert more == all + {ModifiedFile(p, base[p], head[p])};
    } else {
      assert more == all;
    }
  }

  lemma BaseOneMore(base: Tree, head: Tree, paths: set<Bytes>, p: Bytes, changes: seq<CommitFile>)
    requires paths <= base.Keys && p in base && p !in paths
    requires ListsSet(changes, HeadChanges(base, head, head.Keys) + BaseChanges(base, head, paths))
    ensures ListsSet(if p in head then changes else changes + [DeletedFile(p, base[p])],
                     HeadChanges(base, head, head.Keys) + BaseChanges(base, head, paths + {p}))
  {
    var front, all, more :=
      HeadChanges(base, head, head.Keys), BaseChanges(base, head, paths), BaseChanges(base, head, paths + {p});
    if p in head {
      assert more == all;
    } else {
      ListOneMore(changes, front + all, DeletedFile(p, base[p]));
      assert more == all + {DeletedFile(p, base[p])};
      assert front + more == front + all + {DeletedFile(p, base[p])};
    }
  }

  // ----- unions

  ghost function Union<K, T>(f: K -> set<T>, keys: set<K>): set<T> {
    set k, x | k in keys && x in f(k) :: x
  }

  lemma UnionMember<K, T>(f: K -> set<T>, keys: set<K>, x: T)
    ensures x in Union(f, keys) <==> exists k :: k in keys && x in f(k)
  {
  }

  lemma UnionOneMore<K, T>(f: K -> set<T>, keys: set<K>, k: K)
    ensures Union(f, keys + {k}) == Union(f, keys) + f(k)
  {
    forall x ensures x in Union(f, keys + {k}) <==> x in Union(f, keys) + f(k) {
      UnionMember(f, keys, x);
      UnionMember(f, keys + {k}, x);
    }
  }

  // ----- renames

  /** The hash by which a deletion or an addition is matched. */
  function MatchHash(c: CommitFile): Hash { if c.status == Deleted then c.oldHash else c.hash }

  predicate OnSide(c: CommitFile, status: Status, h: Hash) { c.status == status && MatchHash(c) == h }

  ghost function Side(all: set<CommitFile>, status: Status, h: Hash): set<CommitFile> {
    set c | c in all && OnSide(c, status, h)
  }

  /** The deletions or additions with a hash, in path order. */
  ghost function SideList(all: set<CommitFile>, status: Status, h: Hash): (s: seq<CommitFile>)
    requires DistinctPaths(all)
  {
    Listing(Side(all, status, h))
  }

  /** What is on a side's list is of that side. */
  lemma SideListed(all: set<CommitFile>, status: Status, h: Hash, i: nat)
    requires DistinctPaths(all) && i < |SideList(all, status, h)|
    ensures SideList(all, status, h)[i] in all && OnSide(SideList(all, status, h)[i], status, h)
  {
    assert SideList(all, status, h)[i] in SideList(all, status, h);
    assert SideList(all, status, h)[i] in Side(all, status, h);
  }

  lemma SideListApart(all: set<CommitFile>, status: Status, h: Hash, i: nat, j: nat)
    requires DistinctPaths(all) && i < j < |SideList(all, status, h)|
    ensures SideList(all, status, h)[i].path != SideList(all, status, h)[j].path
  {
  }

  function Smaller(a: nat, b: nat): nat { if a <= b then a else b }

  /** How many deletions and additions of a hash are paired. */
  ghost function Pairs(all: set<CommitFile>, h: Hash): nat
    requires DistinctPaths(all)
  {
    Smaller(|SideList(all, Deleted, h)|, |SideList(all, Added, h)|)
  }

  function Rename(deleted: CommitFile, added: CommitFile): CommitFile {
    CommitFile(Renamed, added.path, deleted.path, added.hash, deleted.oldHash,
               added.mode, deleted.mode, added.kind, deleted.oldKind)
  }

  ghost function RenameOf(all: set<CommitFile>, h: Hash, i: nat): CommitFile
    requires DistinctPaths(all) && i < Pairs(all, h)
  {
    Rename(SideList(all, Deleted, h)[i], SideList(all, Added, h)[i])
  }

  ghost function RenamesFor(all: set<CommitFile>, h: Hash, n: nat): set<CommitFile>
    requires DistinctPaths(all) && n <= Pairs(all, h)
  {
    if n == 0 then {} else RenamesFor(all, h, n - 1) + {RenameOf(all, h, n - 1)}
  }

  ghost function AllRenamesFor(all: set<CommitFile>, h: Hash): set<CommitFile> {
    if DistinctPaths(all) then RenamesFor(all, h, Pairs(all, h)) else {}
  }

  ghost function RenamesIn(all: set<CommitFile>, hashes: set<Hash>): set<CommitFile> {
    Union((h: Hash) => AllRenamesFor(all, h), hashes)
  }

  ghost function DeletedHashes(all: set<CommitFile>): set<Hash> {
    set c | c in all && c.status == Deleted :: c.oldHash
  }

  /** The change is one of a pair. */
  ghost predicate Paired(all: set<CommitFile>, c: CommitFile)
    requires DistinctPaths(all)
  {
    (c.status == Deleted || c.status == Added) &&
    exists i :: 0 <= i < Pairs(all, MatchHash(c)) && SideList(all, c.status, MatchHash(c))[i] == c
  }

  ghost function Unpaired(all: set<CommitFile>, some: set<CommitFile>): set<CommitFile>
    requires DistinctPaths(all)
  {
    set c | c in some && !Paired(all, c)
  }

  /** The changes with every pair of a deletion and an addition replaced by a rename. */
  ghost function WithRenames(all: set<CommitFile>): set<CommitFile>
    requires DistinctPaths(all)
  {
    RenamesIn(all, DeletedHashes(all)) + Unpaired(all, all)
  }

  lemma {:induction false} RenameIndex(all: set<CommitFile>, h: Hash, n: nat, x: CommitFile) returns (i: nat)
    requires DistinctPaths(all) && n <= Pairs(all, h) && x in RenamesFor(all, h, n)
    ensures i < n && x == RenameOf(all, h, i)
  {
    i := n - 1;
    if x != RenameOf(all, h, n - 1) { i := RenameIndex(all, h, n - 1, x); }
  }

  /** Every rename is that of a deleted hash's pair. */
  lemma RenameOrigin(all: set<CommitFile>, hashes: set<Hash>, x: CommitFile) returns (h: Hash, i: nat)
    requires DistinctPaths(all) && x in RenamesIn(all, hashes)
    ensures h in hashes && i < Pairs(all, h) && x == RenameOf(all, h, i)
  {
    UnionMember((h: Hash) => AllRenamesFor(all, h), hashes, x);
    h :| h in hashes && x in AllRenamesFor(all, h);
    i := RenameIndex(all, h, Pairs(all, h), x);
  }

  // ----- grouping by hash

  type Groups = map<Hash, seq<CommitFile>>

  function Group(m: Groups, h: Hash): seq<CommitFile> { if h in m then m[h] else [] }

  /** The changes of one side, in the order they come. */
  function Matching(changes: seq<CommitFile>, status: Status, h: Hash): seq<CommitFile> {
    if changes == [] then []
    else
      var (front, c) := (changes[..|changes| - 1], changes[|changes| - 1]);
      Matching(front, status, h) + if OnSide(c, status, h) then [c] else []
  }

  lemma MatchingTake(changes: seq<CommitFile>, k: nat, status: Status, h: Hash)
    requires k < |changes|
    ensures Matching(changes[..k + 1], status, h) ==
            Matching(changes[..k], status, h) + if OnSide(changes[k], status, h) then [changes[k]] else []
  {
    assert changes[..k + 1][..k] == changes[..k];
  }

  /** The first `k` changes. */
  ghost function Taken(changes: seq<CommitFile>, k: nat): set<CommitFile>
    requires k <= |changes|
  {
    if k == 0 then {} else Taken(changes, k - 1) + {changes[k - 1]}
  }

  lemma {:induction false} TakenMember(changes: seq<CommitFile>, k: nat, x: CommitFile)
    requires k <= |changes|
    ensures x in Taken(changes, k) <==> exists i :: 0 <= i < k && changes[i] == x
  {
    if k > 0 { TakenMember(changes, k - 1, x); }
  }

  lemma AllTaken(changes: seq<CommitFile>, all: set<CommitFile>)
    requires ListsSet(changes, all)
    ensures Taken(changes, |changes|) == all
  {
    forall x ensures x in Taken(changes, |changes|) <==> x in all {
      TakenMember(changes, |changes|, x);
      assert x in changes <==> x in all;
    }
  }

  lemma TakenApart(changes: seq<CommitFile>, all: set<CommitFile>, k: nat, x: CommitFile)
    requires ListsSet(changes, all) && k < |changes| && x in Taken(changes, k)
    ensures x.path != changes[k].path && x in all
  {
    TakenMember(changes, k, x);
  }

  lemma SideOneMore(some: set<CommitFile>, c: CommitFile, status: Status, h: Hash)
    ensures Side(some + {c}, status, h) == Side(some, status, h) + if OnSide(c, status, h) then {c} else {}
  {
  }

  lemma {:induction false} MatchingLists(changes: seq<CommitFile>, all: set<CommitFile>, k: nat, status: Status,
                                         h: Hash)
    requires k <= |changes| && ListsSet(changes, all)
    ensures ListsSet(Matching(changes[..k], status, h), Side(Taken(changes, k), status, h))
    decreases k
  {
    if k > 0 {
      MatchingTake(changes, k - 1, status, h);
      MatchingLists(changes, all, k - 1, status, h);
      SideOneMore(Taken(changes, k - 1), changes[k - 1], status, h);
      MatchOneMore(Matching(changes[..k - 1], status, h), changes, all, k - 1, status, h);
    }
  }

  lemma MatchOneMore(s: seq<CommitFile>, changes: seq<CommitFile>, all: set<CommitFile>, k: nat, status: Status,
                     h: Hash)
    requires k < |changes| && ListsSet(changes, all) && ListsSet(s, Side(Taken(changes, k), status, h))
    ensures ListsSet(s + if OnSide(changes[k], status, h) then [changes[k]] else [],
                     Side(Taken(changes, k), status, h) + if OnSide(changes[k], status, h) then {changes[k]} else {})
  {
    if OnSide(changes[k], status, h) {
      forall x | x in Side(Taken(changes, k), status, h) ensures x.path != changes[k].path {
        TakenApart(changes, all, k, x);
      }
      ListOneMore(s, Side(Taken(changes, k), status, h), changes[k]);
    } else {
      assert s + [] == s && Side(Taken(changes, k), status, h) + {} == Side(Taken(changes, k), status, h);
    }
  }

  /** Sorting a group gives the side's list. */
  lemma SortedGroup(changes: seq<CommitFile>, all: set<CommitFile>, status: Status, h: Hash)
    requires ListsSet(changes, all) && DistinctPaths(all)
    ensures Sort(ByPath, Matching(changes, status, h)) == SideList(all, status, h)
    ensures ListsSet(Matching(changes, status, h), Side(all, status, h))
  {
    TakeAll(changes);
    AllTaken(changes, all);
    MatchingLists(changes, all, |changes|, status, h);
    SortedIsListing(Matching(changes, status, h), Side(all, status, h));
  }

  ghost predicate Grouped(m: Groups, changes: seq<CommitFile>, status: Status) {
    forall h :: GroupedAt(m, changes, status, h)
  }

  ghost predicate GroupedAt(m: Groups, changes: seq<CommitFile>, status: Status, h: Hash) {
    Group(m, h) == Matching(changes, status, h) && (h in m ==> m[h] != [])
  }

  lemma GroupOneMore(m: Groups, changes: seq<CommitFile>, k: nat, status: Status)
    requires k < |changes| && Grouped(m, changes[..k], status)
    ensures var c := changes[k];
            Grouped(if c.status == status then m[MatchHash(c) := Group(m, MatchHash(c)) + [c]] else m,
                    changes[..k + 1], status)
  {
    var c, taken := changes[k], changes[..k + 1];
    var next := if c.status == status then m[MatchHash(c) := Group(m, MatchHash(c)) + [c]] else m;
    forall h ensures GroupedAt(next, taken, status, h) {
      assert GroupedAt(m, changes[..k], status, h);
      MatchingTake(changes, k, status, h);
    }
  }

  method GroupByHash(changes: seq<CommitFile>) returns (deletedByHash: Groups, addedByHash: Groups)
    ensures Grouped(deletedByHash, changes, Deleted) && Grouped(addedByHash, changes, Added)
  {
    deletedByHash, addedByHash := map[], map[];
    assert changes[..0] == [];
    for k := 0 to |changes|
      invariant Grouped(deletedByHash, changes[..k], Deleted) && Grouped(addedByHash, changes[..k], Added)
    {
      var c := changes[k];
      GroupOneMore(deletedByHash, changes, k, Deleted);
      GroupOneMore(addedByHash, changes, k, Added);
      if c.status == Deleted {
        deletedByHash := deletedByHash[c.oldHash := Group(deletedByHash, c.oldHash) + [c]];
      } else if c.status == Added {
        addedByHash := addedByHash[c.hash := Group(addedByHash, c.hash) + [c]];
      }
    }
    TakeAll(changes);
  }

  lemma GroupedHashes(m: Groups, changes: seq<CommitFile>, all: set<CommitFile>)
    requires ListsSet(changes, all) && DistinctPaths(all) && Grouped(m, changes, Deleted)
    ensures m.Keys == DeletedHashes(all)
  {
    forall h ensures h in m.Keys <==> h in DeletedHashes(all) { GroupedHash(m, changes, all, h); }
  }

  lemma GroupedHash(m: Groups, changes: seq<CommitFile>, all: set<CommitFile>, h: Hash)
    requires ListsSet(changes, all) && DistinctPaths(all) && Grouped(m, changes, Deleted)
    ensures h in m.Keys <==> h in DeletedHashes(all)
  {
    assert GroupedAt(m, changes, Deleted, h);
    SortedGroup(changes, all, Deleted, h);
    if h in m {
      assert m[h][0] in Matching(changes, Deleted, h);
      assert m[h][0] in Side(all, Deleted, h);
    }
    if h in DeletedHashes(all) {
      var c :| c in all && c.status == Deleted && c.oldHash == h;
      assert c in Side(all, Deleted, h);
      assert c in Matching(changes, Deleted, h);
    }
  }

  // ----- pairing

  /** The renames of the first `n` pairs, and the paths of the first `n` files. */
  function Renames(deleted: seq<CommitFile>, added: seq<CommitFile>, n: nat): seq<CommitFile>
    requires n <= |deleted| && n <= |added|
  {
    if n == 0 then [] else Renames(deleted, added, n - 1) + [Rename(deleted[n - 1], added[n - 1])]
  }

  function PathsOf(files: seq<CommitFile>, n: nat): set<Bytes>
    requires n <= |files|
  {
    if n == 0 then {} else PathsOf(files, n - 1) + {files[n - 1].path}
  }

  lemma {:induction false} PathIndex(files: seq<CommitFile>, n: nat, p: Bytes) returns (i: nat)
    requires n <= |files| && p in PathsOf(files, n)
    ensures i < n && files[i].path == p
  {
    i := n - 1;
    if p != files[n - 1].path { i := PathIndex(files, n - 1, p); }
  }

  lemma {:induction false} PathIn(files: seq<CommitFile>, n: nat, i: nat)
    requires i < n <= |files|
    ensures files[i].path in PathsOf(files, n)
  {
    if i < n - 1 { PathIn(files, n - 1, i); }
  }

  /** The paths of the first `n` changes on a side's list. */
  ghost function SidePaths(all: set<CommitFile>, status: Status, h: Hash, n: nat): set<Bytes>
    requires DistinctPaths(all) && n <= |SideList(all, status, h)|
  {
    PathsOf(SideList(all, status, h), n)
  }

  predicate Matched(status: Status) { status == Deleted || status == Added }

  ghost function AllSidePaths(all: set<CommitFile>, status: Status, h: Hash): set<Bytes> {
    if DistinctPaths(all) && Matched(status) then SidePaths(all, status, h, Pairs(all, h)) else {}
  }

  ghost function PairedPaths(all: set<CommitFile>, status: Status, hashes: set<Hash>): set<Bytes> {
    Union((h: Hash) => AllSidePaths(all, status, h), hashes)
  }

  lemma SidePathIndex(all: set<CommitFile>, status: Status, h: Hash, n: nat, p: Bytes) returns (i: nat)
    requires DistinctPaths(all) && n <= |SideList(all, status, h)| && p in SidePaths(all, status, h, n)
    ensures i < n && SideList(all, status, h)[i].path == p
  {
    i := PathIndex(SideList(all, status, h), n, p);
  }

  lemma SidePathIn(all: set<CommitFile>, status: Status, h: Hash, n: nat, i: nat)
    requires DistinctPaths(all) && i < n <= |SideList(all, status, h)|
    ensures SideList(all, status, h)[i].path in SidePaths(all, status, h, n)
  {
    PathIn(SideList(all, status, h), n, i);
  }

  /** Renames of different pairs end at different paths. */
  lemma RenamesApart(all: set<CommitFile>, h: Hash, i: nat, g: Hash, j: nat)
    requires DistinctPaths(all) && i < Pairs(all, h) && j < Pairs(all, g) && (h != g || i < j)
    ensures RenameOf(all, h, i).path != RenameOf(all, g, j).path
  {
    SideListed(all, Added, h, i);
    SideListed(all, Added, g, j);
    if h == g { SideListApart(all, Added, h, i, j); }
  }

  lemma RenameIsNew(all: set<CommitFile>, done: set<Hash>, h: Hash, i: nat, x: CommitFile)
    requires DistinctPaths(all) && h !in done && i < Pairs(all, h)
    requires x in RenamesIn(all, done) || x in RenamesFor(all, h, i)
    ensures x.path != RenameOf(all, h, i).path
  {
    if x in RenamesFor(all, h, i) {
      var j := RenameIndex(all, h, i, x);
      RenamesApart(all, h, j, h, i);
    } else {
      var g, j := RenameOrigin(all, done, x);
      RenamesApart(all, g, j, h, i);
    }
  }

  lemma RenameOneMore(all: set<CommitFile>, done: set<Hash>, h: Hash, i: nat, result: seq<CommitFile>,
                      before: set<CommitFile>)
    requires DistinctPaths(all) && h !in done && i < Pairs(all, h)
    requires ListsSet(result, before) && before == RenamesIn(all, done) + RenamesFor(all, h, i)
    ensures var after := RenamesIn(all, done) + RenamesFor(all, h, i + 1);
            ListsSet(result + [RenameOf(all, h, i)], after)
  {
    var r := RenameOf(all, h, i);
    forall x | x in before ensures x.path != r.path { RenameIsNew(all, done, h, i, x); }
    ListOneMore(result, before, r);
    UnionAssociates(RenamesIn(all, done), RenamesFor(all, h, i), {r});
  }

  lemma OneHashDone(all: set<CommitFile>, done: set<Hash>, h: Hash)
    requires DistinctPaths(all)
    ensures RenamesIn(all, done + {h}) == RenamesIn(all, done) + RenamesFor(all, h, Pairs(all, h))
    ensures PairedPaths(all, Deleted, done + {h}) ==
            PairedPaths(all, Deleted, done) + SidePaths(all, Deleted, h, Pairs(all, h))
    ensures PairedPaths(all, Added, done + {h}) ==
            PairedPaths(all, Added, done) + SidePaths(all, Added, h, Pairs(all, h))
  {
    UnionOneMore((h: Hash) => AllRenamesFor(all, h), done, h);
    UnionOneMore((h: Hash) => AllSidePaths(all, Deleted, h), done, h);
    UnionOneMore((h: Hash) => AllSidePaths(all, Added, h), done, h);
  }

  /** The first `n` pairs of a hash, after those of the hashes done. */
  ghost predicate PairedUpTo(all: set<CommitFile>, done: set<Hash>, h: Hash, n: nat,
                             result: seq<CommitFile>, deletedPaths: set<Bytes>, addedPaths: set<Bytes>) {
    && DistinctPaths(all) && n <= Pairs(all, h)
    && ListsSet(result, RenamesIn(all, done) + RenamesFor(all, h, n))
    && deletedPaths == SidePaths(all, Deleted, h, n) && addedPaths == SidePaths(all, Added, h, n)
  }

  lemma NoPairYet(all: set<CommitFile>, done: set<Hash>, h: Hash, result: seq<CommitFile>)
    requires DistinctPaths(all) && ListsSet(result, RenamesIn(all, done))
    ensures PairedUpTo(all, done, h, 0, result, {}, {})
  {
    assert RenamesIn(all, done) + {} == RenamesIn(all, done);
  }

  /** `deleted` and `added` are the two sides' lists. */
  ghost predicate Sides(all: set<CommitFile>, h: Hash, deleted: seq<CommitFile>, added: seq<CommitFile>) {
    DistinctPaths(all) && deleted == SideList(all, Deleted, h) && added == SideList(all, Added, h)
  }

  lemma SidesPair(all: set<CommitFile>, h: Hash, deleted: seq<CommitFile>, added: seq<CommitFile>)
    requires Sides(all, h, deleted, added)
    ensures Pairs(all, h) == Smaller(|deleted|, |added|) <= |deleted| && Pairs(all, h) <= |added|
    ensures forall i :: 0 <= i < Pairs(all, h) ==> RenameOf(all, h, i) == Rename(deleted[i], added[i])
  {
  }

  lemma {:induction false} RenamesListed(all: set<CommitFile>, done: set<Hash>, h: Hash, result: seq<CommitFile>,
                                         renames: seq<CommitFile>, n: nat) returns (listed: set<CommitFile>)
    requires DistinctPaths(all) && h !in done && ListsSet(result, RenamesIn(all, done))
    requires n <= Pairs(all, h) && |renames| == n && forall i :: 0 <= i < n ==> renames[i] == RenameOf(all, h, i)
    ensures listed == RenamesIn(all, done) + RenamesFor(all, h, n) && ListsSet(result + renames, listed)
  {
    listed := RenamesIn(all, done) + RenamesFor(all, h, n);
    if n == 0 {
      NothingBehind(result);
      assert RenamesIn(all, done) + {} == RenamesIn(all, done);
    } else {
      var init, last := renames[..n - 1], renames[n - 1];
      assert last == RenameOf(all, h, n - 1);
      var before := RenamesListed(all, done, h, result, init, n - 1);
      RenameOneMore(all, done, h, n - 1, result + init, before);
      AppendAssociates(result, init, [last]);
      SplitLast(renames);
    }
  }

  lemma {:induction false} RenamesAt(deleted: seq<CommitFile>, added: seq<CommitFile>, n: nat)
    requires n <= |deleted| && n <= |added|
    ensures |Renames(deleted, added, n)| == n
    ensures forall i :: 0 <= i < n ==> Renames(deleted, added, n)[i] == Rename(deleted[i], added[i])
  {
    if n > 0 { RenamesAt(deleted, added, n - 1); }
  }

  /** What pairing one hash gives is what its pairs are. */
  lemma RenamesPair(all: set<CommitFile>, done: set<Hash>, h: Hash, result: seq<CommitFile>,
                    deleted: seq<CommitFile>, added: seq<CommitFile>)
    requires Sides(all, h, deleted, added) && h !in done && ListsSet(result, RenamesIn(all, done))
    ensures var n := Smaller(|deleted|, |added|);
            PairedUpTo(all, done, h, Pairs(all, h),
                       result + Renames(deleted, added, n), PathsOf(deleted, n), PathsOf(added, n))
  {
    var n := Smaller(|deleted|, |added|);
    SidesPair(all, h, deleted, added);
    RenamesAt(deleted, added, n);
    var listed := RenamesListed(all, done, h, result, Renames(deleted, added, n), n);
  }

  /** Pairs the deletions and additions of one hash one by one, as many as there are of both. */
  method PairHash(deletedFiles: seq<CommitFile>, addedFiles: seq<CommitFile>, result: seq<CommitFile>)
    returns (result': seq<CommitFile>, deletedPaths: set<Bytes>, addedPaths: set<Bytes>)
    ensures var n := Smaller(|deletedFiles|, |addedFiles|);
            result' == result + Renames(deletedFiles, addedFiles, n) &&
            deletedPaths == PathsOf(deletedFiles, n) && addedPaths == PathsOf(addedFiles, n)
  {
    var pairCount := Smaller(|deletedFiles|, |addedFiles|);
    result', deletedPaths, addedPaths := result, {}, {};
    for i := 0 to pairCount
      invariant result' == result + Renames(deletedFiles, addedFiles, i)
      invariant deletedPaths == PathsOf(deletedFiles, i) && addedPaths == PathsOf(addedFiles, i)
    {
      var d, a := deletedFiles[i], addedFiles[i];
      AppendAssociates(result, Renames(deletedFiles, addedFiles, i), [Rename(d, a)]);
      deletedPaths, addedPaths := deletedPaths + {d.path}, addedPaths + {a.path};
      result' := result' + [Rename(d, a)];
    }
  }

  /** All pairs of the hashes done. */
  ghost predicate PairedHashes(all: set<CommitFile>, done: set<Hash>,
                               result: seq<CommitFile>, deletedPaths: set<Bytes>, addedPaths: set<Bytes>) {
    && ListsSet(result, RenamesIn(all, done))
    && deletedPaths == PairedPaths(all, Deleted, done) && addedPaths == PairedPaths(all, Added, done)
  }

  lemma HashPaired(all: set<CommitFile>, done: set<Hash>, h: Hash, result: seq<CommitFile>, deletedPaths: set<Bytes>,
                   addedPaths: set<Bytes>, more: seq<CommitFile>, deleted: set<Bytes>, added: set<Bytes>)
    requires PairedHashes(all, done, result, deletedPaths, addedPaths) && DistinctPaths(all)
    requires PairedUpTo(all, done, h, Pairs(all, h), more, deleted, added)
    ensures PairedHashes(all, done + {h}, more, deletedPaths + deleted, addedPaths + added)
  {
    OneHashDone(all, done, h);
  }

  lemma HashUnpaired(all: set<CommitFile>, done: set<Hash>, h: Hash,
                     result: seq<CommitFile>, deletedPaths: set<Bytes>, addedPaths: set<Bytes>)
    requires PairedHashes(all, done, result, deletedPaths, addedPaths) && DistinctPaths(all)
    requires |SideList(all, Added, h)| == 0
    ensures PairedHashes(all, done + {h}, result, deletedPaths, addedPaths)
  {
    NoPairYet(all, done, h, result);
    HashPaired(all, done, h, result, deletedPaths, addedPaths, result, {}, {});
    assert deletedPaths + {} == deletedPaths && addedPaths + {} == addedPaths;
  }

  /** The sorted groups of a hash are the sides' lists. */
  lemma GroupsAreSides(deletedByHash: Groups, addedByHash: Groups, changes: seq<CommitFile>, all: set<CommitFile>,
                       h: Hash)
    requires ListsSet(changes, all) && DistinctPaths(all) && h in deletedByHash
    requires Grouped(deletedByHash, changes, Deleted) && Grouped(addedByHash, changes, Added)
    ensures Sort(ByPath, deletedByHash[h]) == SideList(all, Deleted, h)
    ensures h in addedByHash ==> Sort(ByPath, addedByHash[h]) == SideList(all, Added, h)
    ensures h !in addedByHash ==> |SideList(all, Added, h)| == 0
  {
    assert GroupedAt(deletedByHash, changes, Deleted, h) && GroupedAt(addedByHash, changes, Added, h);
    SortedGroup(changes, all, Deleted, h);
    SortedGroup(changes, all, Added, h);
  }

  lemma NoHashYet(all: set<CommitFile>)
    ensures PairedHashes(all, {}, [], {}, {})
  {
  }

  /** All pairs, hash after hash in the order a map happens to give them. */
  method PairAll(deletedByHash: Groups, addedByHash: Groups, ghost changes: seq<CommitFile>, ghost all: set<CommitFile>)
    returns (result: seq<CommitFile>, deletedPaths: set<Bytes>, addedPaths: set<Bytes>)
    requires ListsSet(changes, all) && DistinctPaths(all)
    requires Grouped(deletedByHash, changes, Deleted) && Grouped(addedByHash, changes, Added)
    ensures PairedHashes(all, DeletedHashes(all), result, deletedPaths, addedPaths)
  {
    result, deletedPaths, addedPaths := [], {}, {};
    var todo := deletedByHash.Keys;
    ghost var done: set<Hash> := {};
    GroupedHashes(deletedByHash, changes, all);
    NoHashYet(all);
    while todo != {}
      invariant Partition(deletedByHash.Keys, todo, done)
      invariant PairedHashes(all, done, result, deletedPaths, addedPaths)
      decreases |todo|
    {
      var h :| h in todo;
      VisitOne(deletedByHash.Keys, todo, done, h);
      GroupsAreSides(deletedByHash, addedByHash, changes, all, h);
      if h in addedByHash {
        RenamesPair(all, done, h, result, Sort(ByPath, deletedByHash[h]), Sort(ByPath, addedByHash[h]));
        var more, deleted, added := PairHash(Sort(ByPath, deletedByHash[h]), Sort(ByPath, addedByHash[h]), result);
        HashPaired(all, done, h, result, deletedPaths, addedPaths, more, deleted, added);
        result, deletedPaths, addedPaths := more, deletedPaths + deleted, addedPaths + added;
      } else {
        HashUnpaired(all, done, h, result, deletedPaths, addedPaths);
      }
      todo, done := todo - {h}, done + {h};
    }
    AllVisited(deletedByHash.Keys, done);
  }

  /** A paired change has its path marked. */
  lemma PairedIsMarked(all: set<CommitFile>, c: CommitFile)
    requires DistinctPaths(all) && Paired(all, c)
    ensures c.path in PairedPaths(all, c.status, DeletedHashes(all))
  {
    var h := MatchHash(c);
    var i :| 0 <= i < Pairs(all, h) && SideList(all, c.status, h)[i] == c;
    SidePathIn(all, c.status, h, Pairs(all, h), i);
    SideListed(all, Deleted, h, 0);
    UnionMember((h: Hash) => AllSidePaths(all, c.status, h), DeletedHashes(all), c.path);
    assert h in DeletedHashes(all) && c.path in AllSidePaths(all, c.status, h);
  }

  /** A change whose path is marked is paired. */
  lemma MarkedIsPaired(all: set<CommitFile>, c: CommitFile)
    requires DistinctPaths(all) && c in all && Matched(c.status)
    requires c.path in PairedPaths(all, c.status, DeletedHashes(all))
    ensures Paired(all, c)
  {
    UnionMember((h: Hash) => AllSidePaths(all, c.status, h), DeletedHashes(all), c.path);
    var g :| g in DeletedHashes(all) && c.path in AllSidePaths(all, c.status, g);
    var i := SidePathIndex(all, c.status, g, Pairs(all, g), c.path);
    SideListed(all, c.status, g, i);
  }

  lemma MarkedIffPaired(all: set<CommitFile>, c: CommitFile)
    requires DistinctPaths(all) && c in all
    ensures Matched(c.status) ==> (Paired(all, c) <==> c.path in PairedPaths(all, c.status, DeletedHashes(all)))
  {
    if Paired(all, c) { PairedIsMarked(all, c); }
    if Matched(c.status) && c.path in PairedPaths(all, c.status, DeletedHashes(all)) { MarkedIsPaired(all, c); }
  }

  /** An unpaired change ends at no rename's path. */
  lemma UnpairedApart(all: set<CommitFile>, c: CommitFile, x: CommitFile)
    requires DistinctPaths(all) && c in all && !Paired(all, c) && x in RenamesIn(all, DeletedHashes(all))
    ensures c.path != x.path
  {
    var h, i := RenameOrigin(all, DeletedHashes(all), x);
    SideListed(all, Added, h, i);
    assert c != SideList(all, Added, h)[i];
  }

  lemma UnpairedMember(all: set<CommitFile>, some: set<CommitFile>, c: CommitFile)
    requires DistinctPaths(all)
    ensures Unpaired(all, some + {c}) == Unpaired(all, some) + if Paired(all, c) then {} else {c}
  {
  }

  lemma UnpairedOneMore(all: set<CommitFile>, changes: seq<CommitFile>, k: nat, result: seq<CommitFile>)
    requires DistinctPaths(all) && ListsSet(changes, all) && k < |changes|
    requires ListsSet(result, RenamesIn(all, DeletedHashes(all)) + Unpaired(all, Taken(changes, k)))
    ensures ListsSet(if Paired(all, changes[k]) then result else result + [changes[k]],
                     RenamesIn(all, DeletedHashes(all)) + Unpaired(all, Taken(changes, k + 1)))
  {
    var c := changes[k];
    var renames, before := RenamesIn(all, DeletedHashes(all)), Unpaired(all, Taken(changes, k));
    UnpairedMember(all, Taken(changes, k), c);
    if Paired(all, c) {
      assert before + {} == before;
    } else {
      assert c in changes && c in all;
      forall x: CommitFile | x in renames + before ensures x.path != c.path {
        if x in renames { UnpairedApart(all, c, x); } else { TakenApart(changes, all, k, x); }
      }
      ListOneMore(result, renames + before, c);
      assert renames + before + {c} == renames + (before + {c});
    }
  }

  /** Replaces pairs of deletions and additions of the same content by renames. */
  method DetectRenames(changes: seq<CommitFile>, ghost all: set<CommitFile>) returns (result: seq<CommitFile>)
    requires ListsSet(changes, all) && DistinctPaths(all)
    requires forall c :: c in all ==> c.status != Renamed
    ensures ListsSet(result, WithRenames(all))
  {
    var deletedByHash, addedByHash := GroupByHash(changes);
    var pairedDeletePaths, pairedAddPaths;
    result, pairedDeletePaths, pairedAddPaths := PairAll(deletedByHash, addedByHash, changes, all);
    StartUnpaired(all, changes);
    for k := 0 to |changes|
      invariant ListsSet(result, RenamesIn(all, DeletedHashes(all)) + Unpaired(all, Taken(changes, k)))
    {
      var change := changes[k];
      assert change in changes;
      UnpairedOneMore(all, changes, k, result);
      MarkedIffPaired(all, change);
      if change.status == Deleted {
        if change.path !in pairedDeletePaths { result := result + [change]; }
      } else if change.status == Added {
        if change.path !in pairedAddPaths { result := result + [change]; }
      } else {
        result := result + [change];
      }
    }
    AllTaken(changes, all);
  }

  lemma StartUnpaired(all: set<CommitFile>, changes: seq<CommitFile>)
    requires DistinctPaths(all)
    ensures RenamesIn(all, DeletedHashes(all)) + Unpaired(all, Taken(changes, 0)) == RenamesIn(all, DeletedHashes(all))
  {
    assert Taken(changes, 0) == {} && Unpaired(all, {}) == {};
  }

  // ----- the comparison

  ghost function Reported(base: Tree, head: Tree, detectRenames: bool): set<CommitFile> {
    ChangesDistinct(base, head);
    if detectRenames then WithRenames(Changes(base, head)) else Changes(base, head)
  }

  /** A set of changes has one listing in path order, so neither the order of the
      entries nor that of any map shows in the result. */
  lemma OneResult(a: seq<CommitFile>, b: seq<CommitFile>, all: set<CommitFile>)
    requires ListsSet(a, all) && StrictlyOrdered(ByPath, a)
    requires ListsSet(b, all) && StrictlyOrdered(ByPath, b)
    ensures a == b
  {
    ByPathIsOrder();
    ListingUnique(ByPath, a, b);
  }

  method IndexEntries(entries: seq<FlatFile>) returns (index: Tree)
    ensures index == TreeOf(entries)
  {
    index := map[];
    for k := 0 to |entries|
      invariant index == TreeOf(entries[..k])
    {
      TreeOfTake(entries, k);
      index := index[entries[k].path := entries[k].info];
    }
    TakeAll(entries);
  }

  /** The additions and modifications, in the order of the head's entries. */
  method FindHeadChanges(inBase: Tree, head: seq<FlatFile>) returns (changes: seq<CommitFile>, inHead: set<Bytes>)
    requires WellListed(head)
    ensures inHead == TreeOf(head).Keys && ListsSet(changes, HeadChanges(inBase, TreeOf(head), inHead))
  {
    ghost var all := TreeOf(head);
    changes, inHead := [], {};
    TakeAll(head);
    for k := 0 to |head|
      invariant inHead == TreeOf(head[..k]).Keys && inHead <= all.Keys
      invariant ListsSet(changes, HeadChanges(inBase, all, inHead))
    {
      var entry := head[k];
      TreeOfTake(head, k);
      TreeOfKeys(head, k, |head|);
      NewPath(head, k);
      HeadOneMore(inBase, all, inHead, entry.path, changes);
      inHead := inHead + {entry.path};
      if entry.path !in inBase {
        changes := changes + [AddedFile(entry.path, entry.info)];
      } else if inBase[entry.path].hash != entry.info.hash && entry.info.kind != TreeType {
        changes := changes + [ModifiedFile(entry.path, inBase[entry.path], entry.info)];
      }
    }
  }

  /** The changes of the head, and the deletions of the paths done. */
  ghost predicate DeletedUpTo(base: Tree, head: Tree, done: set<Bytes>, changes: seq<CommitFile>) {
    done <= base.Keys && ListsSet(changes, HeadChanges(base, head, head.Keys) + BaseChanges(base, head, done))
  }

  lemma NothingDeletedYet(base: Tree, head: Tree, changes: seq<CommitFile>)
    requires ListsSet(changes, HeadChanges(base, head, head.Keys))
    ensures DeletedUpTo(base, head, {}, changes)
  {
    assert HeadChanges(base, head, head.Keys) + BaseChanges(base, head, {}) == HeadChanges(base, head, head.Keys);
  }

  lemma OneMorePath(base: Tree, head: Tree, done: set<Bytes>, p: Bytes, changes: seq<CommitFile>)
    requires DeletedUpTo(base, head, done, changes) && p in base && p !in done
    ensures DeletedUpTo(base, head, done + {p}, if p in head then changes else changes + [DeletedFile(p, base[p])])
  {
    BaseOneMore(base, head, done, p, changes);
  }

  /** The deletions, in whatever order the map gives the paths. */
  method FindDeletions(inBase: Tree, inHead: set<Bytes>, ghost head: Tree, found: seq<CommitFile>)
    returns (changes: seq<CommitFile>)
    requires inHead == head.Keys && DeletedUpTo(inBase, head, {}, found)
    ensures DeletedUpTo(inBase, head, inBase.Keys, changes)
  {
    changes := found;
    var todo := inBase.Keys;
    ghost var done: set<Bytes> := {};
    while todo != {}
      invariant Partition(inBase.Keys, todo, done)
      invariant DeletedUpTo(inBase, head, done, changes)
      decreases |todo|
    {
      var path :| path in todo;
      VisitOne(inBase.Keys, todo, done, path);
      OneMorePath(inBase, head, done, path, changes);
      if path !in inHead { changes := changes + [DeletedFile(path, inBase[path])]; }
      todo, done := todo - {path}, done + {path};
    }
    AllVisited(inBase.Keys, done);
  }

  lemma NoneRenamedYet(base: Tree, head: Tree)
    ensures forall c :: c in Changes(base, head) ==> c.status != Renamed
  {
  }

  /** The changes between two flat trees, in path order. */
  method CompareTrees(base: seq<FlatFile>, head: seq<FlatFile>, detectRenames: bool) returns (changes: seq<CommitFile>)
    requires WellListed(base) && WellListed(head)
    ensures ListsSet(changes, Reported(TreeOf(base), TreeOf(head), detectRenames))
    ensures StrictlyOrdered(ByPath, changes)
    ensures forall i, j :: 0 <= i < j < |changes| ==> BytesBefore(changes[i].path, changes[j].path)
  {
    var inBase := IndexEntries(base);
    var found, inHead := FindHeadChanges(inBase, head);
    NothingDeletedYet(inBase, TreeOf(head), found);
    changes := FindDeletions(inBase, inHead, TreeOf(head), found);
    ChangesDistinct(inBase, TreeOf(head));
    NoneRenamedYet(inBase, TreeOf(head));
    if detectRenames { changes := DetectRenames(changes, Changes(inBase, TreeOf(head))); }
    SortedLists(changes, Reported(inBase, TreeOf(head), detectRenames));
    changes := Sort(ByPath, changes);
    forall i, j | 0 <= i < j < |changes| ensures BytesBefore(changes[i].path, changes[j].path) {
      assert ByPath(changes[i], changes[j]);
      LexBytes(changes[i].path, changes[j].path);
    }
  }
}
