/** Tree objects as bytes: building one from a directory's entries, and parsing it. */
module TreeCodec {
  import opened GitTypes
  import opened ByteText
  import opened Sequences
  import opened TreeOrder

  /** A directory entry whose hash is given as hexadecimal text. */
  type HexEntry = TreeEntry<Bytes>

  /** What parsing finds on a line: the name is whatever bytes are there. */
  datatype RawEntry = RawEntry(mode: nat, name: Bytes, hash: Bytes)

  datatype TreeError = BadHash(name: Name) | BadMode | UnexpectedEnd

  const HASH_SIZE := 20
  const TWO32: nat := 0x1_0000_0000

  function Raw(e: HexEntry): RawEntry { RawEntry(e.mode, e.name, e.hash) }

  function RawAll(es: seq<HexEntry>): seq<RawEntry> {
    if es == [] then [] else [Raw(es[0])] + RawAll(es[1..])
  }

  // ----- building

  function EntryBytes(mode: nat, name: Bytes, digest: Bytes): Bytes {
    Numeral(mode, 8) + [SPACE] + name + [NUL] + digest
  }

  /** The entries one after the other; the first hash that is not hexadecimal is an error. */
  function Listing(es: seq<HexEntry>): Result<Bytes, TreeError> {
    if es == [] then Ok([])
    else match DecodeHex(es[0].hash)
         case None => Err(BadHash(es[0].name))
         case Some(digest) => Prepend(EntryBytes(es[0].mode, es[0].name, digest), Listing(es[1..]))
  }

  method BuildTreeObject(entries: seq<HexEntry>) returns (data: Result<Bytes, TreeError>, tree: seq<HexEntry>)
    ensures tree == SortEntries(entries) && data == Listing(tree)
    ensures DistinctNames(entries) ==> GitOrdered(tree) && multiset(tree) == multiset(entries)
  {
    tree := SortEntries(entries);
    if DistinctNames(entries) { SortEntriesCanonical(entries); }
    var written: Bytes := [];
    var i := 0;
    NothingListed(tree);
    while i < |tree|
      invariant i <= |tree| && ListedSoFar(tree, i, written)
    {
      var e := tree[i];
      ListOne(tree, i, written);
      var digest := DecodeHex(e.hash);
      if digest.None? { return Err(BadHash(e.name)), tree; }
      written := written + EntryBytes(e.mode, e.name, digest.value);
      i := i + 1;
    }
    NothingBehind(written);
    data := Ok(written);
  }

  /** The first `i` entries have been written. */
  ghost predicate ListedSoFar(tree: seq<HexEntry>, i: nat, written: Bytes)
    requires i <= |tree|
  {
    Listing(tree) == Prepend(written, Listing(tree[i..]))
  }

  lemma NothingListed(tree: seq<HexEntry>)
    ensures ListedSoFar(tree, 0, [])
  {
    PrependNothing(Listing(tree));
    assert tree[0..] == tree;
  }

  lemma ListOne(tree: seq<HexEntry>, i: nat, written: Bytes)
    requires i < |tree| && ListedSoFar(tree, i, written)
    ensures match DecodeHex(tree[i].hash)
            case None => Listing(tree) == Err(BadHash(tree[i].name))
            case Some(digest) => ListedSoFar(tree, i + 1, written + EntryBytes(tree[i].mode, tree[i].name, digest))
  {
    var rest := tree[i..];
    assert rest[0] == tree[i] && rest[1..] == tree[i + 1..];
    var digest := DecodeHex(tree[i].hash);
    if digest.Some? {
      PrependTwice(written, EntryBytes(tree[i].mode, tree[i].name, digest.value), Listing(tree[i + 1..]));
    }
  }

  /** Two orders of the same entries give the same object. */
  lemma BuildIgnoresOrder(a: seq<HexEntry>, b: seq<HexEntry>)
    requires DistinctNames(a) && multiset(a) == multiset(b)
    ensures Listing(SortEntries(a)) == Listing(SortEntries(b))
  {
    PermutationDistinct(a, b);
    forall e ensures e in a <==> e in b {
      assert e in a <==> e in multiset(a);
      assert e in b <==> e in multiset(b);
    }
    SortIgnoresOrder(a, b);
  }

  // ----- parsing

  /** The first entry of the data and the data after it. */
  function FirstEntry(data: Bytes): (r: Result<(RawEntry, Bytes), TreeError>)
    ensures r.Ok? ==> |r.value.1| < |data|
  {
    match Cut(data, SPACE)
    case None => Err(UnexpectedEnd)
    case Some((mode, afterMode)) =>
      match ParseUnsigned(mode, 8, TWO32)
      case None => Err(BadMode)
      case Some(m) =>
        match Cut(afterMode, NUL)
        case None => Err(UnexpectedEnd)
        case Some((name, afterName)) =>
          if |afterName| < HASH_SIZE then Err(UnexpectedEnd)
          else Ok((RawEntry(m, name, EncodeHex(afterName[..HASH_SIZE])), afterName[HASH_SIZE..]))
  }

  function ParsedTree(data: Bytes): Result<seq<RawEntry>, TreeError>
    decreases |data|
  {
    if data == [] then Ok([])
    else match FirstEntry(data)
         case Err(e) => Err(e)
         case Ok((entry, rest)) => Prepend([entry], ParsedTree(rest))
  }

  method ParseTree(data: Bytes) returns (r: Result<seq<RawEntry>, TreeError>)
    ensures r == ParsedTree(data)
  {
    var tree: seq<RawEntry>, rest := [], data;
    PrependNothing(ParsedTree(data));
    while rest != []
      invariant ParsedTree(data) == Prepend(tree, ParsedTree(rest))
      decreases |rest|
    {
      var mode := Cut(rest, SPACE);
      if mode.None? { return Err(UnexpectedEnd); }
      var fileMode := ParseUnsigned(mode.value.0, 8, TWO32);
      if fileMode.None? { return Err(BadMode); }
      var name := Cut(mode.value.1, NUL);
      if name.None? || |name.value.1| < HASH_SIZE { return Err(UnexpectedEnd); }
      var entry := RawEntry(fileMode.value, name.value.0, EncodeHex(name.value.1[..HASH_SIZE]));
      PrependTwice(tree, [entry], ParsedTree(name.value.1[HASH_SIZE..]));
      tree := tree + [entry];
      rest := name.value.1[HASH_SIZE..];
    }
    assert tree + [] == tree;
    r := Ok(tree);
  }

  // ----- building and parsing undo each other

  /** What an entry must be to survive: a 32-bit mode, no NUL in its name, and a
      hash of twenty bytes in lower case. */
  predicate Recoverable(e: HexEntry) {
    e.mode < TWO32 && NUL !in e.name && |e.hash| == 2 * HASH_SIZE &&
    DecodeHex(e.hash).Some? && EncodeHex(DecodeHex(e.hash).value) == e.hash
  }

  lemma FirstEntryShape(data: Bytes)
    requires FirstEntry(data).Ok?
    ensures NUL !in FirstEntry(data).value.0.name && |FirstEntry(data).value.0.hash| == 2 * HASH_SIZE
  {
    CutSplits(Cut(data, SPACE).value.1, NUL);
  }

  /** The first entry of a listing is found again if its name has no NUL. */
  lemma FirstOfListing(mode: nat, name: Bytes, digest: Bytes, rest: Bytes)
    requires mode < TWO32
    ensures NUL !in name && |digest| == HASH_SIZE ==>
              FirstEntry(EntryBytes(mode, name, digest) + rest) == Ok((RawEntry(mode, name, EncodeHex(digest)), rest))
  {
    if NUL !in name && |digest| == HASH_SIZE {
      var base := 8;
      NumeralDigits(mode, base);
      UnsignedRoundTrip(mode, base, TWO32);
      var data, tail := EntryBytes(mode, name, digest) + rest, name + [NUL] + (digest + rest);
      assert data == Numeral(mode, base) + [SPACE] + tail;
      CutAt(Numeral(mode, base), SPACE, tail);
      CutAt(name, NUL, digest + rest);
      assert (digest + rest)[..HASH_SIZE] == digest && (digest + rest)[HASH_SIZE..] == rest;
    }
  }

  /** A tree object parses back to the entries it was built from exactly when
      every one of them is recoverable. */
  lemma {:induction false} ListingRoundTripIff(es: seq<HexEntry>)
    requires Listing(es).Ok? && forall e :: e in es ==> e.mode < TWO32
    ensures ParsedTree(Listing(es).value) == Ok(RawAll(es)) <==> forall e :: e in es ==> Recoverable(e)
  {
    if es != [] {
      var e, digest, rest := es[0], DecodeHex(es[0].hash).value, Listing(es[1..]).value;
      var data := Listing(es).value;
      ListingRoundTripIff(es[1..]);
      FirstOfListing(e.mode, e.name, digest, rest);
      assert es == [e] + es[1..];
      assert data == EntryBytes(e.mode, e.name, digest) + rest && data != [];
      if Recoverable(e) {
        assert ParsedTree(data) == Prepend([Raw(e)], ParsedTree(rest));
        if ParsedTree(data) == Ok(RawAll(es)) {
          assert RawAll(es)[1..] == RawAll(es[1..]);
          assert ([Raw(e)] + ParsedTree(rest).value)[1..] == ParsedTree(rest).value;
        }
      } else if ParsedTree(data) == Ok(RawAll(es)) {
        FirstEntryShape(data);
        assert RawAll(es)[0] == Raw(e);
        assert false;
      }
    }
  }

  /** Canonical trees: what a directory's entries are built into parses back to
      exactly those entries, sorted. */
  lemma TreeRoundTrip(entries: seq<HexEntry>)
    requires forall e :: e in entries ==> Recoverable(e)
    ensures var tree := SortEntries(entries);
            Listing(tree).Ok? && ParsedTree(Listing(tree).value) == Ok(RawAll(tree))
  {
    var tree := SortEntries(entries);
    forall e | e in tree ensures Recoverable(e) {
      assert e in multiset(tree);
      assert e in multiset(entries);
    }
    ListingOk(tree);
    ListingRoundTripIff(tree);
  }

  lemma {:induction false} ListingOk(es: seq<HexEntry>)
    ensures Listing(es).Ok? <==> forall e :: e in es ==> DecodeHex(e.hash).Some?
  {
    if es != [] {
      assert es == [es[0]] + es[1..];
      ListingOk(es[1..]);
    }
  }

  lemma {:induction false} RawAllInjective(a: seq<HexEntry>, b: seq<HexEntry>)
    requires RawAll(a) == RawAll(b)
    ensures a == b
  {
    if a != [] && b != [] {
      assert RawAll(a)[0] == RawAll(b)[0] && RawAll(a)[1..] == RawAll(b)[1..];
      RawAllInjective(a[1..], b[1..]);
      assert a == [a[0]] + a[1..] && b == [b[0]] + b[1..];
    }
  }

  /** Directories with the same tree object are the same: why a tree's hash can
      stand for its entries. */
  lemma SameObjectSameEntries(a: seq<HexEntry>, b: seq<HexEntry>)
    requires forall e :: e in a ==> Recoverable(e)
    requires forall e :: e in b ==> Recoverable(e)
    requires Listing(SortEntries(a)) == Listing(SortEntries(b))
    ensures multiset(a) == multiset(b)
  {
    TreeRoundTrip(a);
    TreeRoundTrip(b);
    RawAllInjective(SortEntries(a), SortEntries(b));
  }
}
