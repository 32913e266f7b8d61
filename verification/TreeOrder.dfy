/** The canonical order of a tree object's entries, and its uniqueness. */
module TreeOrder {
  import opened GitTypes
  import opened Sorting

  /** Byte-wise comparison of strings: `a < b`. */
  predicate LexLess(a: Bytes, b: Bytes) {
    b != [] && (a == [] || a[0] < b[0] || (a[0] == b[0] && LexLess(a[1..], b[1..])))
  }

  lemma {:induction false} LexIrreflexive(a: Bytes)
    ensures !LexLess(a, a)
  {
    if a != [] { LexIrreflexive(a[1..]); }
  }

  lemma {:induction false} LexTransitive(a: Bytes, b: Bytes, c: Bytes)
    requires LexLess(a, b) && LexLess(b, c)
    ensures LexLess(a, c)
  {
    if a != [] && a[0] == b[0] == c[0] { LexTransitive(a[1..], b[1..], c[1..]); }
  }

  lemma {:induction false} LexTotal(a: Bytes, b: Bytes)
    requires a != b
    ensures LexLess(a, b) || LexLess(b, a)
  {
    if a != [] && b != [] && a[0] == b[0] {
      assert a == [a[0]] + a[1..] && b == [b[0]] + b[1..];
      LexTotal(a[1..], b[1..]);
    }
  }

  lemma LexSplits(a: Bytes, b: Bytes, c: Bytes)
    requires LexLess(a, c)
    ensures LexLess(a, b) || LexLess(b, c)
  {
    if a != b && !LexLess(a, b) {
      LexTotal(a, b);
      LexTransitive(b, a, c);
    }
  }

  lemma LexIsOrder()
    ensures StrictWeakOrder(LexLess)
  {
    forall a ensures !LexLess(a, a) { LexIrreflexive(a); }
    forall a, b, c | LexLess(a, b) && LexLess(b, c) ensures LexLess(a, c) { LexTransitive(a, b, c); }
    forall a, b, c | LexLess(a, c) ensures LexLess(a, b) || LexLess(b, c) { LexSplits(a, b, c); }
  }

  /** Only a real directory compares as if its name ended in a slash. */
  function SortKey<H>(e: TreeEntry<H>): Bytes {
    if e.mode == MODE_TREE then e.name + [SLASH] else e.name
  }

  predicate EntryLess<H>(a: TreeEntry<H>, b: TreeEntry<H>) {
    LexLess(SortKey(a), SortKey(b))
  }

  lemma EntryIsOrder<H(!new)>()
    ensures StrictWeakOrder<TreeEntry<H>>(EntryLess)
  {
    LexIsOrder();
    forall a: TreeEntry<H>, b: TreeEntry<H>, c: TreeEntry<H> | EntryLess(a, c)
      ensures EntryLess(a, b) || EntryLess(b, c)
    { LexSplits(SortKey(a), SortKey(b), SortKey(c)); }
    forall a: TreeEntry<H>, b: TreeEntry<H>, c: TreeEntry<H> | EntryLess(a, b) && EntryLess(b, c)
      ensures EntryLess(a, c)
    { LexTransitive(SortKey(a), SortKey(b), SortKey(c)); }
    forall a: TreeEntry<H> ensures !EntryLess(a, a) { LexIrreflexive(SortKey(a)); }
  }

  /** Slash-free names: equal keys mean equal names. */
  lemma SortKeyInjective<H>(a: TreeEntry<H>, b: TreeEntry<H>)
    requires SortKey(a) == SortKey(b)
    ensures a.name == b.name
  {
    var k := SortKey(a);
    if a.mode == MODE_TREE && b.mode == MODE_TREE {
      assert a.name == k[..|k| - 1] == b.name;
    } else if a.mode == MODE_TREE || b.mode == MODE_TREE {
      assert false;
    }
  }

  // ----- the order Git wants

  /** Behind a common front, comparing goes on with what follows it. */
  lemma {:induction false} LexBehind(a: Bytes, b: Bytes, k: nat)
    requires k <= |a| && k <= |b| && a[..k] == b[..k]
    ensures LexLess(a, b) <==> LexLess(a[k..], b[k..])
  {
    if k == 0 {
      assert a[0..] == a && b[0..] == b;
    } else {
      assert a[..k][0] == b[..k][0] && a[..k][1..] == b[..k][1..];
      assert a[1..][..k - 1] == a[..k][1..] && b[1..][..k - 1] == b[..k][1..];
      LexBehind(a[1..], b[1..], k - 1);
      assert a[1..][k - 1..] == a[k..] && b[1..][k - 1..] == b[k..];
    }
  }

  /** The length of the longest common front. */
  function Common(a: Bytes, b: Bytes): (k: nat)
    ensures k <= |a| && k <= |b| && a[..k] == b[..k]
    ensures k < |a| && k < |b| ==> a[k] != b[k]
  {
    if a != [] && b != [] && a[0] == b[0] then
      assert a == [a[0]] + a[1..] && b == [b[0]] + b[1..];
      1 + Common(a[1..], b[1..])
    else 0
  }

  /** `a` may stand before `b` in byte order: where they first differ its byte is the
      smaller, and `b` is no proper front of it. */
  ghost predicate BytesBefore(a: Bytes, b: Bytes) {
    forall k: nat :: k <= |a| && k <= |b| && a[..k] == b[..k] ==>
      (k < |a| && k < |b| ==> a[k] <= b[k]) && !(k == |b| < |a|)
  }

  lemma LexBytes(a: Bytes, b: Bytes)
    requires LexLess(a, b)
    ensures BytesBefore(a, b)
  {
    forall k: nat | k <= |a| && k <= |b| && a[..k] == b[..k]
      ensures (k < |a| && k < |b| ==> a[k] <= b[k]) && !(k == |b| < |a|)
    {
      LexBehind(a, b, k);
    }
  }

  /** `a` may stand before `b`: where the names first differ, its byte is the smaller.
      When one name is the front of the other, a slash takes the place of the missing
      byte for a directory, mode 040000, and nothing for everything else. */
  ghost predicate GitBefore<H>(a: TreeEntry<H>, b: TreeEntry<H>) {
    forall k: nat :: k <= |a.name| && k <= |b.name| && a.name[..k] == b.name[..k] ==>
      && (k < |a.name| && k < |b.name| ==> a.name[k] <= b.name[k])
      && (k == |a.name| < |b.name| ==> a.mode != 0x4000 || b.name[k] > 47)
      && (k == |b.name| < |a.name| ==> b.mode == 0x4000 && a.name[k] < 47)
  }

  ghost predicate GitOrdered<H>(s: seq<TreeEntry<H>>) {
    forall i, j :: 0 <= i < j < |s| ==> GitBefore(s[i], s[j])
  }

  lemma KeyBehind<H>(e: TreeEntry<H>, k: nat)
    requires k <= |e.name|
    ensures k <= |SortKey(e)| && SortKey(e)[..k] == e.name[..k]
    ensures SortKey(e)[k..] == if e.mode == MODE_TREE then e.name[k..] + [SLASH] else e.name[k..]
  {
  }

  /** What the comparison says where the names have been equal so far. */
  lemma EntryLessBehind<H>(a: TreeEntry<H>, b: TreeEntry<H>, k: nat)
    requires k <= |a.name| && k <= |b.name| && a.name[..k] == b.name[..k]
    ensures k < |a.name| && k < |b.name| && a.name[k] != b.name[k] ==> (EntryLess(a, b) <==> a.name[k] < b.name[k])
    ensures k == |a.name| < |b.name| ==> (EntryLess(a, b) <==> a.mode != 0x4000 || b.name[k] > 47)
    ensures k == |b.name| < |a.name| ==> (EntryLess(a, b) <==> b.mode == 0x4000 && a.name[k] < 47)
  {
    KeyBehind(a, k);
    KeyBehind(b, k);
    LexBehind(SortKey(a), SortKey(b), k);
    assert k < |a.name| ==> a.name[k] != SLASH;
    assert k < |b.name| ==> b.name[k] != SLASH;
  }

  /** The comparison by sort keys is the order Git wants. */
  lemma EntryLessIff<H>(a: TreeEntry<H>, b: TreeEntry<H>)
    requires a.name != b.name
    ensures EntryLess(a, b) <==> GitBefore(a, b)
  {
    var n := Common(a.name, b.name);
    assert n < |a.name| || n < |b.name|;
    EntryLessBehind(a, b, n);
    if EntryLess(a, b) {
      forall k: nat | k <= |a.name| && k <= |b.name| && a.name[..k] == b.name[..k]
        ensures k < |a.name| && k < |b.name| ==> a.name[k] <= b.name[k]
        ensures k == |a.name| < |b.name| ==> a.mode != 0x4000 || b.name[k] > 47
        ensures k == |b.name| < |a.name| ==> b.mode == 0x4000 && a.name[k] < 47
      {
        EntryLessBehind(a, b, k);
      }
    }
  }

  ghost predicate DistinctNames<H>(s: seq<TreeEntry<H>>) {
    forall i, j :: 0 <= i < j < |s| ==> s[i].name != s[j].name
  }

  ghost predicate Canonical<H>(s: seq<TreeEntry<H>>) {
    StrictlyOrdered(EntryLess, s)
  }

  function SortEntries<H>(s: seq<TreeEntry<H>>): (r: seq<TreeEntry<H>>) {
    Sort(EntryLess, s)
  }

  lemma NamesTellApart<H(!new)>(a: TreeEntry<H>, b: TreeEntry<H>)
    requires a.name != b.name
    ensures EntryLess(a, b) || EntryLess(b, a)
  {
    if SortKey(a) == SortKey(b) { SortKeyInjective(a, b); }
    LexTotal(SortKey(a), SortKey(b));
  }

  /** Sorting a directory with distinct names puts it in canonical order. */
  lemma SortEntriesCanonical<H(!new)>(s: seq<TreeEntry<H>>)
    requires DistinctNames(s)
    ensures Canonical(SortEntries(s)) && GitOrdered(SortEntries(s))
    ensures forall e :: e in SortEntries(s) <==> e in s
  {
    EntryIsOrder<H>();
    SortOrders(EntryLess, s);
    var r := SortEntries(s);
    forall e ensures e in r <==> e in s { SameElements(r, s, e); }
    PermutationDistinct(s, r);
    forall i, j | 0 <= i < j < |r| ensures EntryLess(r[i], r[j]) || EntryLess(r[j], r[i]) {
      NamesTellApart(r[i], r[j]);
    }
    OrderedIsStrict(EntryLess, r);
    CanonicalIff(r);
  }

  /** Canonical lists are the ones in the order Git wants. */
  lemma CanonicalIff<H(!new)>(s: seq<TreeEntry<H>>)
    requires DistinctNames(s)
    ensures Canonical(s) <==> GitOrdered(s)
  {
    forall i, j | 0 <= i < j < |s| ensures EntryLess(s[i], s[j]) <==> GitBefore(s[i], s[j]) {
      EntryLessIff(s[i], s[j]);
    }
  }

  lemma PermutationDistinct<H(!new)>(s: seq<TreeEntry<H>>, r: seq<TreeEntry<H>>)
    requires DistinctNames(s) && multiset(s) == multiset(r)
    ensures DistinctNames(r)
  {
    var name := (e: TreeEntry<H>) => e.name;
    assert DistinctKeys(name, s);
    ReorderedDistinct(name, s, r);
    assert forall i, j :: 0 <= i < j < |r| ==> name(r[i]) != name(r[j]);
  }

  /** The order in which a directory's entries are collected does not matter:
      any two listings of the same entries are sorted to the same list. */
  lemma SortIgnoresOrder<H(!new)>(a: seq<TreeEntry<H>>, b: seq<TreeEntry<H>>)
    requires DistinctNames(a) && DistinctNames(b)
    requires forall e :: e in a <==> e in b
    ensures SortEntries(a) == SortEntries(b)
  {
    EntryIsOrder<H>();
    SortEntriesCanonical(a);
    SortEntriesCanonical(b);
    ListingUnique(EntryLess, SortEntries(a), SortEntries(b));
  }

  // ----- the canonical listing of a directory given as a map

  /** `s` lists exactly the names `m` binds, each with its link. */
  ghost predicate Lists<H(!new)>(s: seq<TreeEntry<H>>, m: map<Name, Link<H>>) {
    forall e :: e in s <==> e.name in m && m[e.name] == Link(e.mode, e.hash)
  }

  lemma {:induction false} ListingExists<H(!new)>(m: map<Name, Link<H>>)
    ensures exists s: seq<TreeEntry<H>> :: Canonical(s) && Lists(s, m)
    decreases |m|
  {
    if m == map[] {
      assert Canonical<H>([]) && Lists([], m);
    } else {
      var n :| n in m;
      var rest := m - {n};
      var e := TreeEntry(m[n].mode, n, m[n].hash);
      assert |rest| < |m| by { assert rest.Keys == m.Keys - {n}; }
      ListingExists(rest);
      var t: seq<TreeEntry<H>> :| Canonical(t) && Lists(t, rest);
      CanonicalDistinct(t, rest);
      forall i | 0 <= i < |t| ensures t[i].name != n { assert t[i] in t; }
      SortEntriesCanonical([e] + t);
      assert Lists(SortEntries([e] + t), m);
    }
  }

  lemma CanonicalDistinct<H(!new)>(s: seq<TreeEntry<H>>, m: map<Name, Link<H>>)
    requires Canonical(s) && Lists(s, m)
    ensures DistinctNames(s)
  {
    EntryIsOrder<H>();
    StrictlyOrderedDistinct(EntryLess, s);
    forall i, j | 0 <= i < j < |s| ensures s[i].name != s[j].name {
      assert s[i] in s && s[j] in s;
    }
  }

  /** The canonical listing of a directory. */
  ghost function Canon<H(!new)>(m: map<Name, Link<H>>): (s: seq<TreeEntry<H>>)
    ensures Canonical(s) && Lists(s, m)
  {
    ListingExists(m);
    var s :| Canonical(s) && Lists(s, m);
    s
  }

  /** A canonical list is the canonical listing of whatever it lists. */
  lemma CanonicalIsCanon<H(!new)>(s: seq<TreeEntry<H>>, m: map<Name, Link<H>>)
    requires Canonical(s) && Lists(s, m)
    ensures s == Canon(m)
  {
    EntryIsOrder<H>();
    ListingUnique(EntryLess, s, Canon(m));
  }

  /** Sorting any listing of a directory gives its canonical listing. */
  lemma SortIsCanon<H(!new)>(s: seq<TreeEntry<H>>, m: map<Name, Link<H>>)
    requires DistinctNames(s) && Lists(s, m)
    ensures SortEntries(s) == Canon(m)
  {
    SortEntriesCanonical(s);
    CanonicalIsCanon(SortEntries(s), m);
  }
}
