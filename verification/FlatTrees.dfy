/** Flattening a tree into paths, walking a tree by path, and why flattening and
    rebuilding undo each other. */
module FlatTrees {
  import ByteText
  import opened GitTypes
  import opened Sorting
  import opened TreeOrder
  import opened StagedTree
  import opened StagedInvariant

  type TreeEntries = seq<TreeEntry<Hash>>

  // ----- walking by path

  /** What the first entry of that name says. */
  function FindEntry(entries: TreeEntries, n: Name): Option<Link<Hash>> {
    if entries == [] then None
    else if entries[0].name == n then Some(Link(entries[0].mode, entries[0].hash))
    else FindEntry(entries[1..], n)
  }

  /** Follows `p` from the tree `h`, one component at a time. */
  function Walk(h: Hash, p: Path): Option<Link<Hash>>
    decreases |p|
  {
    if p == [] || !h.TreeId? then None
    else
      var l := FindEntry(h.entries, p[0]);
      if |p| == 1 then l
      else if l.Some? && l.value.mode == MODE_TREE then Walk(l.value.hash, p[1..])
      else None
  }

  lemma {:induction false} FindEntryIs(entries: TreeEntries, e: TreeEntry<Hash>)
    requires DistinctNames(entries)
    ensures e in entries <==> FindEntry(entries, e.name) == Some(Link(e.mode, e.hash))
  {
    if entries != [] {
      var rest := entries[1..];
      FindEntryIs(rest, e);
      assert e in entries <==> e == entries[0] || e in rest;
      assert entries[0].name == e.name ==> e !in rest;
    }
  }

  /** A tree whose directories, at every depth, bind each name once. */
  ghost predicate WellNamed(h: Hash) {
    && h.TreeId? && DistinctNames(h.entries)
    && (forall e :: e in h.entries && e.mode == MODE_TREE ==> WellNamed(e.hash))
  }

  /** A tree whose directories, at every depth, are in the order Git wants. */
  ghost predicate CanonicalTree(h: Hash) {
    && h.TreeId? && GitOrdered(h.entries)
    && (forall e :: e in h.entries && e.mode == MODE_TREE ==> CanonicalTree(e.hash))
  }

  // ----- flattening

  /** One line of the flat listing. */
  datatype FlatItem = FlatItem(path: Path, entry: Entry)

  function KindOfMode(mode: nat): Kind {
    if mode == MODE_GITLINK then CommitObject else if mode == MODE_TREE then TreeObject else BlobObject
  }

  /** `item` lies below `base`, where the walk from `h` reaches what it says. */
  predicate Reaches(h: Hash, base: Path, item: FlatItem) {
    |base| < |item.path| && item.path[..|base|] == base &&
    Walk(h, item.path[|base|..]) == Some(LinkOf(item.entry)) &&
    (item.entry.kind.TreeObject? <==> item.entry.mode == 0x4000) &&
    (item.entry.kind.CommitObject? <==> item.entry.mode == 0xE000)
  }

  /** The trees present in the collection, keyed by their hashes. */
  ghost predicate HashConsistent(store: map<Hash, TreeEntries>) {
    forall h :: h in store ==> h == TreeId(store[h])
  }

  /** Every directory below `h` is in the collection. */
  ghost predicate SubtreesPresent(h: Hash, store: set<Hash>) {
    h.TreeId? ==>
      forall e :: e in h.entries && e.mode == MODE_TREE ==> e.hash in store && SubtreesPresent(e.hash, store)
  }

  predicate NameLess(a: TreeEntry<Hash>, b: TreeEntry<Hash>) {
    LexLess(a.name, b.name)
  }

  ghost predicate DistinctPaths(items: seq<FlatItem>) {
    forall i, j :: 0 <= i < j < |items| ==> items[i].path != items[j].path
  }

  /** What `e` contributes: itself, and below it what its tree reaches. */
  predicate FromEntry(e: TreeEntry<Hash>, base: Path, item: FlatItem) {
    var p := base + [e.name];
    item == FlatItem(p, Entry(KindOfMode(e.mode), e.mode, e.hash)) ||
    (e.mode == MODE_TREE && Reaches(e.hash, p, item))
  }

  lemma ReachesSplits(h: Hash, base: Path, item: FlatItem)
    requires h.TreeId? && DistinctNames(h.entries)
    ensures Reaches(h, base, item) <==> exists e :: e in h.entries && FromEntry(e, base, item)
  {
    if Reaches(h, base, item) {
      var q := item.path[|base|..];
      var l := FindEntry(h.entries, q[0]).value;
      var e := TreeEntry(l.mode, q[0], l.hash);
      FindEntryIs(h.entries, e);
      assert item.path == base + q;
      if |q| == 1 { assert item.path == base + [e.name]; }
      else { assert item.path[|base| + 1..] == q[1..] && item.path[..|base| + 1] == base + [e.name]; }
      assert FromEntry(e, base, item);
    }
    forall e | e in h.entries && FromEntry(e, base, item) ensures Reaches(h, base, item) {
      FindEntryIs(h.entries, e);
      var q := item.path[|base|..];
      assert q[0] == e.name by { assert item.path[|base|] == (base + [e.name])[|base|]; }
      if |q| > 1 { assert q[1..] == item.path[|base| + 1..]; }
    }
  }

  /** `item` comes from one of the first `k` entries. */
  ghost predicate FromFirst(s: TreeEntries, k: nat, base: Path, item: FlatItem)
    requires k <= |s|
  {
    exists i :: 0 <= i < k && FromEntry(s[i], base, item)
  }

  lemma FromFirstStep(s: TreeEntries, k: nat, base: Path, item: FlatItem)
    requires k < |s|
    ensures FromFirst(s, k + 1, base, item) <==> FromFirst(s, k, base, item) || FromEntry(s[k], base, item)
  {
  }

  predicate IsLink(item: FlatItem) { item.entry.mode == MODE_GITLINK }

  lemma FromEntryName(e: TreeEntry<Hash>, base: Path, item: FlatItem)
    requires FromEntry(e, base, item)
    ensures |base| < |item.path| && item.path[|base|] == e.name && item.path[..|base|] == base
  {
    var p := base + [e.name];
    assert |p| < |item.path| ==> item.path[..|p|][|base|] == p[|base|];
    assert item.path[..|p|][..|base|] == item.path[..|base|];
  }

  lemma DistinctAppend(a: seq<FlatItem>, b: seq<FlatItem>)
    requires DistinctPaths(a) && DistinctPaths(b)
    requires forall x, y :: x in a && y in b ==> x.path != y.path
    ensures DistinctPaths(a + b)
  {
    forall i, j | 0 <= i < j < |a + b| ensures (a + b)[i].path != (a + b)[j].path {
      if i < |a| <= j { assert a[i] in a && b[j - |a|] in b; }
    }
  }

  // ----- the order of the listing

  /** Name by name: at the first different name the smaller comes first, and what is
      below a directory comes behind it. */
  ghost predicate PathBefore(a: Path, b: Path) {
    forall k: nat :: k <= |a| && k <= |b| && a[..k] == b[..k] ==>
      (k < |a| && k < |b| ==> BytesBefore(a[k], b[k])) && !(k == |b| < |a|)
  }

  ghost predicate InPathOrder(items: seq<FlatItem>) {
    forall i, j :: 0 <= i < j < |items| ==> PathBefore(items[i].path, items[j].path)
  }

  lemma OrderAppend(a: seq<FlatItem>, b: seq<FlatItem>)
    requires InPathOrder(a) && InPathOrder(b)
    requires forall x, y :: x in a && y in b ==> PathBefore(x.path, y.path)
    ensures InPathOrder(a + b)
  {
    forall i, j | 0 <= i < j < |a + b| ensures PathBefore((a + b)[i].path, (a + b)[j].path) {
      if i < |a| <= j { assert a[i] in a && b[j - |a|] in b; }
    }
  }

  lemma BytesBeforeSelf(a: Bytes)
    ensures BytesBefore(a, a)
  {
  }

  /** Paths that part at the smaller name. */
  lemma PartingPaths(base: Path, a: Path, b: Path)
    requires |base| < |a| && |base| < |b| && a[..|base|] == base && b[..|base|] == base
    requires LexLess(a[|base|], b[|base|])
    ensures PathBefore(a, b)
  {
    LexBytes(a[|base|], b[|base|]);
    LexIrreflexive(a[|base|]);
    forall k: nat | k <= |a| && k <= |b| && a[..k] == b[..k]
      ensures (k < |a| && k < |b| ==> BytesBefore(a[k], b[k])) && !(k == |b| < |a|)
    {
      if k < |base| {
        assert a[..|base|][k] == a[k];
        assert b[..|base|][k] == b[k];
        BytesBeforeSelf(a[k]);
      }
    }
  }

  /** A directory stands before what is below it. */
  lemma DirectoryFirst(a: Path, b: Path)
    requires |a| <= |b| && b[..|a|] == a
    ensures PathBefore(a, b)
  {
    forall k: nat | k < |a| ensures BytesBefore(a[k], b[k]) {
      assert b[..|a|][k] == b[k];
      BytesBeforeSelf(a[k]);
    }
  }

  /** No name twice, in byte order. */
  ghost predicate InNameOrder(s: TreeEntries) {
    forall i, j :: 0 <= i < j < |s| ==> LexLess(s[i].name, s[j].name)
  }

  lemma SortedByName(s: TreeEntries)
    requires DistinctNames(s)
    ensures InNameOrder(Sort(NameLess, s)) && DistinctNames(Sort(NameLess, s))
  {
    var r := Sort(NameLess, s);
    LexIsOrder();
    forall a: TreeEntry<Hash>, b: TreeEntry<Hash>, c: TreeEntry<Hash> | NameLess(a, c)
      ensures NameLess(a, b) || NameLess(b, c)
    { LexSplits(a.name, b.name, c.name); }
    forall a: TreeEntry<Hash>, b: TreeEntry<Hash>, c: TreeEntry<Hash> | NameLess(a, b) && NameLess(b, c)
      ensures NameLess(a, c)
    { LexTransitive(a.name, b.name, c.name); }
    forall a: TreeEntry<Hash> ensures !NameLess(a, a) { LexIrreflexive(a.name); }
    SortOrders(NameLess, s);
    PermutationDistinct(s, r);
    forall i, j | 0 <= i < j < |r| ensures NameLess(r[i], r[j]) || NameLess(r[j], r[i]) {
      LexTotal(r[i].name, r[j].name);
    }
    OrderedIsStrict(NameLess, r);
  }

  /** The next entry's items come behind those of the entries before it. */
  lemma OrderOneMore(s: TreeEntries, k: nat, base: Path, before: seq<FlatItem>, after: seq<FlatItem>)
    requires InNameOrder(s) && k < |s|
    requires forall x :: x in before ==> FromFirst(s, k, base, x)
    requires forall y :: y in after ==> FromEntry(s[k], base, y)
    requires InPathOrder(before) && InPathOrder(after)
    ensures InPathOrder(before + after)
  {
    forall x, y | x in before && y in after ensures PathBefore(x.path, y.path) {
      var i :| 0 <= i < k && FromEntry(s[i], base, x);
      FromEntryName(s[i], base, x);
      FromEntryName(s[k], base, y);
      PartingPaths(base, x.path, y.path);
    }
    OrderAppend(before, after);
  }

  /** Items of different entries have different paths. */
  lemma EntriesApart(s: TreeEntries, k: nat, base: Path, before: seq<FlatItem>, after: seq<FlatItem>)
    requires DistinctNames(s) && k < |s|
    requires forall x :: x in before ==> FromFirst(s, k, base, x)
    requires forall y :: y in after ==> FromEntry(s[k], base, y)
    requires DistinctPaths(before) && DistinctPaths(after)
    ensures DistinctPaths(before + after)
  {
    forall x, y | x in before && y in after ensures x.path != y.path {
      var i :| 0 <= i < k && FromEntry(s[i], base, x);
      FromEntryName(s[i], base, x);
      FromEntryName(s[k], base, y);
    }
    DistinctAppend(before, after);
  }

  /** The two lists split what satisfies the first `k` entries, each path once. */
  ghost predicate ListsFirst(s: TreeEntries, k: nat, base: Path, entries: seq<FlatItem>, links: seq<FlatItem>)
    requires k <= |s|
  {
    && (forall item :: item in entries <==> FromFirst(s, k, base, item) && !IsLink(item))
    && (forall item :: item in links <==> FromFirst(s, k, base, item) && IsLink(item))
    && DistinctPaths(entries) && DistinctPaths(links)
  }

  ghost predicate ListsEntry(e: TreeEntry<Hash>, base: Path, entries: seq<FlatItem>, links: seq<FlatItem>) {
    && (forall item :: item in entries <==> FromEntry(e, base, item) && !IsLink(item))
    && (forall item :: item in links <==> FromEntry(e, base, item) && IsLink(item))
    && DistinctPaths(entries) && DistinctPaths(links)
  }

  ghost predicate ListsTree(h: Hash, base: Path, entries: seq<FlatItem>, links: seq<FlatItem>) {
    && (forall item :: item in entries <==> Reaches(h, base, item) && !IsLink(item))
    && (forall item :: item in links <==> Reaches(h, base, item) && IsLink(item))
    && DistinctPaths(entries) && DistinctPaths(links)
  }

  lemma ListsOneMore(s: TreeEntries, k: nat, base: Path, entries: seq<FlatItem>, links: seq<FlatItem>,
                     added: seq<FlatItem>, addedLinks: seq<FlatItem>)
    requires DistinctNames(s) && k < |s|
    requires InNameOrder(s) && InPathOrder(entries) && InPathOrder(added)
    requires InPathOrder(links) && InPathOrder(addedLinks)
    requires ListsFirst(s, k, base, entries, links) && ListsEntry(s[k], base, added, addedLinks)
    ensures ListsFirst(s, k + 1, base, entries + added, links + addedLinks)
    ensures InPathOrder(entries + added) && InPathOrder(links + addedLinks)
  {
    OrderOneMore(s, k, base, entries, added);
    OrderOneMore(s, k, base, links, addedLinks);
    EntriesApart(s, k, base, entries, added);
    EntriesApart(s, k, base, links, addedLinks);
    forall item
      ensures FromFirst(s, k + 1, base, item) <==> FromFirst(s, k, base, item) || FromEntry(s[k], base, item)
    {
      FromFirstStep(s, k, base, item);
    }
  }

  lemma ListsAll(h: Hash, s: TreeEntries, base: Path, entries: seq<FlatItem>, links: seq<FlatItem>)
    requires h.TreeId? && DistinctNames(h.entries) && forall e :: e in s <==> e in h.entries
    requires ListsFirst(s, |s|, base, entries, links)
    ensures ListsTree(h, base, entries, links)
  {
    forall item ensures Reaches(h, base, item) <==> FromFirst(s, |s|, base, item) {
      ReachesSplits(h, base, item);
      if Reaches(h, base, item) {
        var e :| e in h.entries && FromEntry(e, base, item);
        var i :| 0 <= i < |s| && s[i] == e;
      }
    }
  }

  ghost predicate EntryPresent(e: TreeEntry<Hash>, store: set<Hash>) {
    e.mode == MODE_TREE ==> e.hash in store && SubtreesPresent(e.hash, store)
  }

  ghost predicate FirstPresent(s: TreeEntries, k: nat, store: set<Hash>)
    requires k <= |s|
  {
    forall i :: 0 <= i < k ==> EntryPresent(s[i], store)
  }

  lemma PresentStep(h: Hash, s: TreeEntries, k: nat, store: set<Hash>)
    requires h.TreeId? && k < |s| && s[k] in h.entries && FirstPresent(s, k, store)
    ensures EntryPresent(s[k], store) ==> FirstPresent(s, k + 1, store)
    ensures !EntryPresent(s[k], store) ==> !SubtreesPresent(h, store)
  {
  }

  lemma PresentAll(h: Hash, s: TreeEntries, store: set<Hash>)
    requires h.TreeId? && FirstPresent(s, |s|, store) && forall e :: e in s <==> e in h.entries
    ensures SubtreesPresent(h, store)
  {
    forall e | e in h.entries ensures EntryPresent(e, store) {
      var i :| 0 <= i < |s| && s[i] == e;
    }
  }

  /** Depth-first traversal: lists what lies below `h` in path order, gitlinks apart;
      fails on the first directory that is not in the collection. */
  method TraverseTree(h: Hash, base: Path, store: map<Hash, TreeEntries>)
    returns (missing: Option<Hash>, entries: seq<FlatItem>, links: seq<FlatItem>)
    requires HashConsistent(store) && WellNamed(h)
    ensures missing.None? <==> SubtreesPresent(h, store.Keys)
    ensures missing.Some? ==> missing.value !in store
    ensures missing.None? ==> ListsTree(h, base, entries, links)
    ensures InPathOrder(entries) && InPathOrder(links)
    decreases h, 1
  {
    var sorted := Sort(NameLess, h.entries);
    forall e ensures e in sorted <==> e in h.entries { SameElements(sorted, h.entries, e); }
    SortedByName(h.entries);
    entries, links := [], [];
    for k := 0 to |sorted|
      invariant FirstPresent(sorted, k, store.Keys)
      invariant ListsFirst(sorted, k, base, entries, links)
      invariant InPathOrder(entries) && InPathOrder(links)
    {
      var e := sorted[k];
      assert e in h.entries;
      var added, addedLinks;
      missing, added, addedLinks := TraverseEntry(h, e, base, store);
      PresentStep(h, sorted, k, store.Keys);
      if missing.Some? { return missing, [], []; }
      ListsOneMore(sorted, k, base, entries, links, added, addedLinks);
      entries, links := entries + added, links + addedLinks;
    }
    PresentAll(h, sorted, store.Keys);
    ListsAll(h, sorted, base, entries, links);
    missing := None;
  }

  lemma DirectoryBefore(e: TreeEntry<Hash>, base: Path, item: FlatItem, below: seq<FlatItem>, links: seq<FlatItem>)
    requires item.path == base + [e.name] && ListsTree(e.hash, item.path, below, links) && InPathOrder(below)
    ensures InPathOrder([item] + below)
  {
    forall y | y in below ensures PathBefore(item.path, y.path) {
      assert Reaches(e.hash, item.path, y);
      DirectoryFirst(item.path, y.path);
    }
    OrderAppend([item], below);
  }

  method TraverseEntry(ghost h: Hash, e: TreeEntry<Hash>, base: Path, store: map<Hash, TreeEntries>)
    returns (missing: Option<Hash>, entries: seq<FlatItem>, links: seq<FlatItem>)
    requires HashConsistent(store) && WellNamed(h) && e in h.entries
    ensures missing.None? <==> EntryPresent(e, store.Keys)
    ensures missing.Some? ==> missing.value !in store
    ensures missing.None? ==> ListsEntry(e, base, entries, links)
    ensures InPathOrder(entries) && InPathOrder(links)
    decreases h, 0
  {
    var path := base + [e.name];
    var item := FlatItem(path, Entry(KindOfMode(e.mode), e.mode, e.hash));
    if e.mode == MODE_GITLINK { return None, [], [item]; }
    if e.mode != MODE_TREE { return None, [item], []; }
    if e.hash !in store { return Some(e.hash), [], []; }
    var below;
    missing, below, links := TraverseTree(e.hash, path, store);
    if missing.Some? { return missing, [], []; }
    DistinctAppend([item], below);
    DirectoryBefore(e, base, item, below, links);
    entries := [item] + below;
  }

  // ----- looking up a directory

  /** A piece of a path string between slashes. */
  type Component = b: Bytes | SLASH !in b witness []

  function TrimSpace(b: Component): Component {
    ByteText.TrimSpaceTrims(b);
    ByteText.TrimSpace(b)
  }

  /** The path after trimming, when no component is empty. */
  function Trimmed(parts: seq<Component>): Option<Path> {
    if parts == [] then Some([])
    else if TrimSpace(parts[0]) == [] then None
    else match Trimmed(parts[1..])
         case None => None
         case Some(rest) => var n: Name := TrimSpace(parts[0]); Some([n] + rest)
  }

  datatype LookupError = EmptyComponent | ObjectMissing(hash: Hash) | NotFound | NotADirectory(hash: Hash)

  const DOT_COMPONENT: Component := [46]

  /** The directory the remaining components lead to from the tree `h`. */
  function Navigate(h: Hash, parts: seq<Component>, store: map<Hash, TreeEntries>): Result<Hash, LookupError>
    decreases |parts|
  {
    if parts == [] then (if h in store then Ok(h) else Err(ObjectMissing(h)))
    else if TrimSpace(parts[0]) == [] then Err(EmptyComponent)
    else if h !in store then Err(ObjectMissing(h))
    else
      var l := FindEntry(store[h], TrimSpace(parts[0]));
      if l.None? || l.value.mode == MODE_GITLINK then Err(NotFound)
      else if l.value.mode != MODE_TREE then Err(NotADirectory(l.value.hash))
      else Navigate(l.value.hash, parts[1..], store)
  }

  /** With all directories at hand, navigation succeeds exactly where the walk along
      the trimmed components meets a directory. A name with outer blanks is never met. */
  lemma {:induction false} NavigateIsWalk(h: Hash, parts: seq<Component>, store: map<Hash, TreeEntries>)
    requires HashConsistent(store) && WellNamed(h) && h in store && SubtreesPresent(h, store.Keys) && parts != []
    ensures Navigate(h, parts, store).Ok? <==>
              Trimmed(parts).Some? && Walk(h, Trimmed(parts).value).Some? &&
                Walk(h, Trimmed(parts).value).value.mode == MODE_TREE
    ensures Navigate(h, parts, store).Ok? ==>
            Walk(h, Trimmed(parts).value).value.hash == Navigate(h, parts, store).value
    decreases |parts|
  {
    if TrimSpace(parts[0]) != [] {
      var n: Name := TrimSpace(parts[0]);
      var l := FindEntry(h.entries, n);
      if l.Some? { FindEntryIs(h.entries, TreeEntry(l.value.mode, n, l.value.hash)); }
      if l.Some? && l.value.mode == MODE_TREE && |parts| > 1 {
        NavigateIsWalk(l.value.hash, parts[1..], store);
      }
      if Trimmed(parts).Some? {
        assert Trimmed(parts).value == [n] + Trimmed(parts[1..]).value;
        assert Trimmed(parts).value[1..] == Trimmed(parts[1..]).value;
      }
    }
  }

  method GetTreeByPath(root: Hash, parts: seq<Component>, store: map<Hash, TreeEntries>)
    returns (r: Result<Hash, LookupError>)
    requires parts != []
    ensures r == Navigate(root, if parts == [[]] || parts == [DOT_COMPONENT] then [] else parts, store)
  {
    var current := root;
    if parts != [[]] && parts != [DOT_COMPONENT] {
      assert parts[0..] == parts;
      for i := 0 to |parts|
        invariant Navigate(root, parts, store) == Navigate(current, parts[i..], store)
      {
        assert parts[i..][0] == parts[i] && parts[i..][1..] == parts[i + 1..];
        var part := TrimSpace(parts[i]);
        if part == [] { return Err(EmptyComponent); }
        if current !in store { return Err(ObjectMissing(current)); }
        var found := FindEntry(store[current], part);
        if found.None? || found.value.mode == MODE_GITLINK { return Err(NotFound); }
        if found.value.mode != MODE_TREE { return Err(NotADirectory(found.value.hash)); }
        current := found.value.hash;
      }
    }
    if current !in store { return Err(ObjectMissing(current)); }
    r := Ok(current);
  }

  // ----- from a flat listing to a stage

  ghost predicate MapOf(items: seq<FlatItem>, m: Entries) {
    forall item :: item in items <==> item.path in m && m[item.path] == item.entry
  }

  /** Keys a flat listing by path. */
  method KeyByPath(items: seq<FlatItem>) returns (m: Entries)
    requires DistinctPaths(items)
    ensures MapOf(items, m)
  {
    m := map[];
    for k := 0 to |items|
      invariant forall p :: p in m ==> exists i :: 0 <= i < k && items[i] == FlatItem(p, m[p])
      invariant forall i :: 0 <= i < k ==> items[i].path in m && m[items[i].path] == items[i].entry
    {
      m := m[items[k].path := items[k].entry];
    }
  }

  /** The stage a new writer starts from. */
  ghost predicate StageOf(s: Stage, h: Hash, entries: seq<FlatItem>, links: seq<FlatItem>) {
    MapOf(entries, s.tree) && MapOf(links, s.links) && s.dirty == {} && s.root == h
  }

  lemma StageLookupIsWalk(s: Stage, h: Hash, entries: seq<FlatItem>, links: seq<FlatItem>, p: Path)
    requires ListsTree(h, [], entries, links) && StageOf(s, h, entries, links)
    ensures Lookup(s, p) == Walk(h, p)
    ensures p in s.tree <==> Walk(h, p).Some? && Walk(h, p).value.mode != MODE_GITLINK
    ensures p in s.links <==> Walk(h, p).Some? && Walk(h, p).value.mode == MODE_GITLINK
    ensures p in s.tree ==> s.tree[p].kind == KindOfMode(s.tree[p].mode)
    ensures p in s.links ==> s.links[p].kind == KindOfMode(s.links[p].mode)
  {
    assert p[0..] == p;
    if Walk(h, p).Some? {
      var l := Walk(h, p).value;
      var item := FlatItem(p, Entry(KindOfMode(l.mode), l.mode, l.hash));
      assert Reaches(h, [], item);
    }
    if p in s.tree { assert FlatItem(p, s.tree[p]) in entries; }
    if p in s.links { assert FlatItem(p, s.links[p]) in links; }
  }

  lemma {:induction false} WalkPrefix(h: Hash, p: Path, i: nat)
    requires Walk(h, p).Some? && 1 <= i < |p|
    ensures Walk(h, p[..i]).Some? && Walk(h, p[..i]).value.mode == MODE_TREE
    decreases i
  {
    if i > 1 {
      var next := FindEntry(h.entries, p[0]).value.hash;
      WalkPrefix(next, p[1..], i - 1);
      assert p[1..][..i - 1] == p[..i][1..];
    }
  }

  lemma {:induction false} WalkStep(h: Hash, d: Path, n: Name)
    requires d != [] && Walk(h, d).Some?
    ensures Walk(h, d + [n]) ==
            if Walk(h, d).value.mode == MODE_TREE && Walk(h, d).value.hash.TreeId?
            then FindEntry(Walk(h, d).value.hash.entries, n) else None
    decreases |d|
  {
    var p := d + [n];
    assert p[0] == d[0] && p[1..] == d[1..] + [n];
    if |d| > 1 { WalkStep(FindEntry(h.entries, d[0]).value.hash, d[1..], n); }
  }

  lemma {:induction false} WalkReachesValid(h: Hash, p: Path)
    requires WellNamed(h) && CanonicalTree(h) && Walk(h, p).Some? && Walk(h, p).value.mode == MODE_TREE
    ensures WellNamed(Walk(h, p).value.hash) && CanonicalTree(Walk(h, p).value.hash)
    decreases |p|
  {
    var l := FindEntry(h.entries, p[0]).value;
    FindEntryIs(h.entries, TreeEntry(l.mode, p[0], l.hash));
    if |p| > 1 { WalkReachesValid(l.hash, p[1..]); }
  }

  /** Rebuilding any directory of a flattened tree gives back its original hash. */
  lemma FlattenThenRebuild(s: Stage, h: Hash, entries: seq<FlatItem>, links: seq<FlatItem>)
    requires WellNamed(h) && CanonicalTree(h)
    requires ListsTree(h, [], entries, links) && StageOf(s, h, entries, links)
    ensures Consistent(s)
    ensures NodeHash(s, []) == h
    ensures forall d :: d in s.tree && s.tree[d].kind.TreeObject? ==> NodeHash(s, d) == s.tree[d].hash
  {
    forall p ensures Lookup(s, p) == Walk(h, p) { StageLookupIsWalk(s, h, entries, links, p); }
    forall p | p in s.tree || p in s.links ensures HasParents(s.tree, p) {
      StageLookupIsWalk(s, h, entries, links, p);
      forall i | 1 <= i < |p| ensures IsDir(s.tree, p[..i]) {
        WalkPrefix(h, p, i);
        StageLookupIsWalk(s, h, entries, links, p[..i]);
      }
    }
    FlattenedTyped(s, h, entries, links);
    RebuildsTo(s, h, []);
    forall d | d in s.tree && s.tree[d].kind.TreeObject? ensures NodeHash(s, d) == s.tree[d].hash {
      StageLookupIsWalk(s, h, entries, links, d);
      WalkReachesValid(h, d);
      forall n: Name ensures Lookup(s, d + [n]) == FindEntry(s.tree[d].hash.entries, n) {
        WalkStep(h, d, n);
      }
      RebuildsTo(s, s.tree[d].hash, d);
    }
  }

  lemma FlattenedTyped(s: Stage, h: Hash, entries: seq<FlatItem>, links: seq<FlatItem>)
    requires ListsTree(h, [], entries, links) && StageOf(s, h, entries, links)
    ensures Typed(s) && [] !in s.tree
  {
    forall p ensures p in s.tree ==> s.tree[p].kind == KindOfMode(s.tree[p].mode) && s.tree[p].mode != MODE_GITLINK
             ensures p in s.links ==> s.links[p].kind.CommitObject? && s.links[p].mode == MODE_GITLINK {
      StageLookupIsWalk(s, h, entries, links, p);
    }
    StageLookupIsWalk(s, h, entries, links, []);
  }

  lemma RebuildsTo(s: Stage, t: Hash, d: Path)
    requires t.TreeId? && DistinctNames(t.entries) && GitOrdered(t.entries)
    requires forall n: Name :: Lookup(s, d + [n]) == FindEntry(t.entries, n)
    ensures NodeHash(s, d) == t
  {
    var m := Children(s, d);
    CanonicalIff(t.entries);
    forall e ensures e in t.entries <==> e.name in m && m[e.name] == Link(e.mode, e.hash) {
      FindEntryIs(t.entries, e);
      assert Lookup(s, d + [e.name]) == FindEntry(t.entries, e.name);
    }
    CanonicalIsCanon(t.entries, m);
  }
}
