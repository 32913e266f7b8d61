/** The pack format: the entries of a pack as bytes, and reading them back. */
module PackFormat {
  import opened GitTypes
  import opened GitObjects
  import opened Sequences
  import DeltaCodec
  import TreeCodec
  import TreeOrder
  import CommitCodec

  const MAX_UNPACKED := 10485760
  const TWO32: nat := 0x1_0000_0000

  /** Compression and checksums, which the program takes from libraries. Inflating
      gives the data and what follows the compressed stream. */
  datatype Library = Library(deflate: Bytes -> Bytes, inflate: Bytes -> Option<(Bytes, Bytes)>,
                             checksum: Bytes -> Bytes, hashText: ObjectId -> Bytes)

  ghost predicate Delimits(lib: Library, data: Bytes, rest: Bytes) {
    lib.inflate(lib.deflate(data) + rest) == Some((data, rest))
  }

  /** A compressed stream says where it ends. */
  ghost predicate SelfDelimiting(lib: Library) {
    forall data, rest :: Delimits(lib, data, rest)
  }

  // ----- the type and size of an entry

  function TypeCode(kind: ObjectType): (code: nat)
    ensures 1 <= code <= 4
  {
    match kind
    case CommitType => 1
    case TreeType => 2
    case BlobType => 3
    case TagType => 4
  }

  /** `low` with a continuation bit if more follows, then seven bits at a time. */
  function SizeBytes(low: nat, size: nat): Bytes
    requires low < 128
    decreases size
  {
    if size == 0 then [low] else [low + 128] + SizeBytes(size % 128, size / 128)
  }

  function EntryHeader(code: nat, size: nat): Bytes
    requires code < 8
  {
    SizeBytes(16 * code + size % 16, size / 16)
  }

  method WriteHeader(code: nat, size: nat) returns (written: Bytes)
    requires code < 8
    ensures written == EntryHeader(code, size)
  {
    var firstByte: nat, rest: nat := 16 * code + size % 16, size / 16;
    written := [];
    while rest > 0
      invariant firstByte < 128 && EntryHeader(code, size) == written + SizeBytes(firstByte, rest)
    {
      AppendAssociates(written, [firstByte + 128], SizeBytes(rest % 128, rest / 128));
      written := written + [firstByte + 128];
      firstByte, rest := rest % 128, rest / 128;
    }
    written := written + [firstByte];
  }

  /** The number in the bytes that follow a continuation bit. */
  function SizeRest(b: Bytes): Option<(nat, Bytes)> {
    if b == [] then None
    else if b[0] < 128 then Some((b[0], b[1..]))
    else match SizeRest(b[1..])
         case None => None
         case Some((high, rest)) => Some((b[0] - 128 + 128 * high, rest))
  }

  /** What follows the byte `b`: nothing without a continuation bit. */
  function SizeAfter(b: byte, rest: Bytes): Option<(nat, Bytes)> {
    if b < 128 then Some((0, rest)) else SizeRest(rest)
  }

  /** The number `r` shifted left by four bits and seven times `j`, above `sum`. */
  function Lifted(sum: nat, j: nat, r: Option<(nat, Bytes)>): Option<(nat, Bytes)> {
    match r
    case None => None
    case Some((high, rest)) => Some((sum + 16 * DeltaCodec.Shifted(high, j), rest))
  }

  /** The type code and the size with what follows them. */
  function Header(stream: Bytes): Option<(nat, nat, Bytes)> {
    if stream == [] then None
    else match Lifted(stream[0] % 16, 0, SizeAfter(stream[0], stream[1..]))
         case None => None
         case Some((size, rest)) => Some((stream[0] / 16 % 8, size, rest))
  }

  lemma LiftedStep(sum: nat, j: nat, b: byte, rest: Bytes)
    requires b >= 128
    ensures Lifted(sum, j, SizeAfter(b, rest)) ==
            if rest == [] then None
            else Lifted(sum + 16 * DeltaCodec.Shifted(rest[0] % 128, j), j + 1, SizeAfter(rest[0], rest[1..]))
  {
    if rest != [] {
      match SizeAfter(rest[0], rest[1..])
      case None =>
      case Some((high, _)) =>
        DeltaCodec.ShiftedSum(rest[0] % 128, high, j);
    }
  }

  /** Reads the type and the size. The size is a 64-bit integer: it is kept as its bit
      pattern, so that negative sizes are the patterns from 2^63 on. */
  method ReadHeader(stream: Bytes) returns (r: Option<(nat, nat, Bytes)>)
    ensures r == match Header(stream)
                 case None => None
                 case Some((code, size, rest)) => Some((code, size % DeltaCodec.TWO64, rest))
  {
    if |stream| == 0 { return None; }
    var b, rest := stream[0], stream[1..];
    var code, size: nat, j := b / 16 % 8, b % 16, 0;
    ghost var sum: nat := b % 16;
    while b >= 128
      invariant size == sum % DeltaCodec.TWO64
      invariant Lifted(stream[0] % 16, 0, SizeAfter(stream[0], stream[1..])) == Lifted(sum, j, SizeAfter(b, rest))
      decreases |rest|, b
    {
      LiftedStep(sum, j, b, rest);
      if |rest| == 0 { return None; }
      b, rest := rest[0], rest[1..];
      DeltaCodec.ModAdd(sum, 16 * DeltaCodec.Shifted(b % 128, j));
      size := (size + 16 * DeltaCodec.Shifted(b % 128, j)) % DeltaCodec.TWO64;
      sum := sum + 16 * DeltaCodec.Shifted(b % 128, j);
      j := j + 1;
    }
    ShiftedZero(j);
    r := Some((code, size, rest));
  }

  lemma {:induction false} ShiftedZero(j: nat)
    ensures DeltaCodec.Shifted(0, j) == 0
  {
    if j > 0 { ShiftedZero(j - 1); }
  }

  lemma {:induction false} SizeRoundTrip(n: nat, rest: Bytes)
    ensures SizeRest(SizeBytes(n % 128, n / 128) + rest) == Some((n, rest))
    decreases n
  {
    var b := SizeBytes(n % 128, n / 128) + rest;
    if n >= 128 {
      SizeRoundTrip(n / 128, rest);
      assert b[1..] == SizeBytes(n / 128 % 128, n / 128 / 128) + rest;
    } else {
      assert b[1..] == rest;
    }
  }

  /** The type and the size of an entry, of any size, read back as written. */
  lemma HeaderRoundTrip(code: nat, size: nat, rest: Bytes)
    requires code < 8
    ensures Header(EntryHeader(code, size) + rest) == Some((code, size, rest))
  {
    var stream := EntryHeader(code, size) + rest;
    var low := 16 * code + size % 16;
    assert low / 16 == code && low % 16 == size % 16;
    if size / 16 > 0 {
      SizeRoundTrip(size / 16, rest);
      assert stream[1..] == SizeBytes(size / 16 % 128, size / 16 / 128) + rest;
      assert (low + 128) / 16 % 8 == code && (low + 128) % 16 == size % 16;
      assert DeltaCodec.Shifted(size / 16, 0) == size / 16;
    } else {
      assert stream[1..] == rest;
      assert DeltaCodec.Shifted(0, 0) == 0;
    }
  }

  // ----- entries

  /** What is parsed out of a tree or commit while reading. */
  datatype Content = Plain | TreeContent(entries: seq<TreeCodec.RawEntry>) | CommitContent(commit: CommitCodec.Commit)

  datatype Entry =
    | ObjectEntry(content: Object, id: ObjectId, parsed: Content)
    | DeltaEntry(parent: Bytes, delta: DeltaCodec.Delta)
    | Trailer

  datatype PackError =
    | NoSignature
    | ShortHeader
    | UnsupportedVersion
    | UnexpectedEnd
    | EndOfPack
    | ObjectTooLarge
    | WrongSize
    | Corrupt
    | UnsupportedType
    | BadTree(tree: TreeCodec.TreeError)
    | BadCommit(commit: CommitCodec.CommitError)
    | BadDelta(delta: DeltaCodec.DeltaError)

  function ParseContent(o: Object): Result<Content, PackError> {
    match o.kind
    case TreeType =>
      (match TreeCodec.ParsedTree(o.data)
       case Err(e) => Err(BadTree(e))
       case Ok(entries) => Ok(TreeContent(entries)))
    case CommitType =>
      (match CommitCodec.ParsedCommit(o.data)
       case Err(e) => Err(BadCommit(e))
       case Ok(commit) => Ok(CommitContent(commit)))
    case _ => Ok(Plain)
  }

  /** Inflates exactly `size` bytes; more or fewer are an error. */
  function Inflated(lib: Library, size: nat, stream: Bytes): Result<(Bytes, Bytes), PackError> {
    match lib.inflate(stream)
    case None => Err(Corrupt)
    case Some((data, rest)) => if |data| == size then Ok((data, rest)) else Err(WrongSize)
  }

  function KindOf(code: nat): Option<ObjectType> {
    if code == 1 then Some(CommitType)
    else if code == 2 then Some(TreeType)
    else if code == 3 then Some(BlobType)
    else if code == 4 then Some(TagType)
    else None
  }

  const REF_DELTA := 7
  const HASH_SIZE := 20

  function StandardObject(kind: ObjectType, data: Bytes): Result<Entry, PackError> {
    var o := Object(kind, data);
    match ParseContent(o)
    case Err(e) => Err(e)
    case Ok(parsed) => Ok(ObjectEntry(o, ObjectId(o), parsed))
  }

  /** The entry with the given type and size in front of the stream. */
  function Body(lib: Library, code: nat, size: nat, stream: Bytes): Result<(Entry, Bytes), PackError> {
    if size > MAX_UNPACKED then Err(ObjectTooLarge)
    else match KindOf(code)
         case Some(kind) =>
           (match Inflated(lib, size, stream)
            case Err(e) => Err(e)
            case Ok((data, rest)) =>
              match StandardObject(kind, data)
              case Err(e) => Err(e)
              case Ok(entry) => Ok((entry, rest)))
         case None =>
           if code != REF_DELTA then Err(UnsupportedType)
           else if |stream| < HASH_SIZE then Err(UnexpectedEnd)
           else match Inflated(lib, size, stream[HASH_SIZE..])
                case Err(e) => Err(e)
                case Ok((data, rest)) =>
                  match DeltaCodec.ParsedDelta(data)
                  case Err(e) => Err(BadDelta(e))
                  case Ok(delta) => Ok((DeltaEntry(stream[..HASH_SIZE], delta), rest))
  }

  function EntryAt(lib: Library, stream: Bytes): Result<(Entry, Bytes), PackError> {
    match Header(stream)
    case None => Err(UnexpectedEnd)
    case Some((code, size, rest)) => Body(lib, code, size % DeltaCodec.TWO64, rest)
  }

  /** The entries of a pack, without its trailer. */
  function EntriesOf(lib: Library, count: nat, stream: Bytes): Result<seq<Entry>, PackError>
    decreases count
  {
    if count == 0 then Ok([])
    else match EntryAt(lib, stream)
         case Err(e) => Err(e)
         case Ok((entry, rest)) => Prepend([entry], EntriesOf(lib, count - 1, rest))
  }

  // ----- the header of a pack

  const SIGNATURE: Bytes := [80, 65, 67, 75]

  /** The lowest `k` bytes of a number, the highest first. */
  function BigEndian(n: nat, k: nat): (b: Bytes)
    ensures |b| == k
    decreases k
  {
    if k == 0 then [] else BigEndian(n / 256, k - 1) + [n % 256]
  }

  function FromBigEndian(b: Bytes): nat {
    if b == [] then 0 else 256 * FromBigEndian(b[..|b| - 1]) + b[|b| - 1]
  }

  lemma {:induction false} BigEndianRoundTrip(n: nat, k: nat)
    requires n < DeltaCodec.Pow256(k)
    ensures FromBigEndian(BigEndian(n, k)) == n
    decreases k
  {
    if k > 0 {
      BigEndianRoundTrip(n / 256, k - 1);
      assert BigEndian(n, k)[..k - 1] == BigEndian(n / 256, k - 1);
    }
  }

  /** The number of entries and the stream of entries. */
  function PackStart(data: Bytes): Result<(nat, Bytes), PackError> {
    if |data| < 4 || data[..4] != SIGNATURE then Err(NoSignature)
    else if |data| < 8 then Err(ShortHeader)
    else if FromBigEndian(data[4..8]) != 2 && FromBigEndian(data[4..8]) != 3 then Err(UnsupportedVersion)
    else if |data| < 12 then Err(ShortHeader)
    else Ok((FromBigEndian(data[8..12]), data[12..]))
  }

  function PackEntries(lib: Library, data: Bytes): Result<seq<Entry>, PackError> {
    match PackStart(data)
    case Err(e) => Err(e)
    case Ok((count, stream)) => EntriesOf(lib, count, stream)
  }

  /** `r` is the entry at the front of the stream, and `rest` what follows it. */
  ghost predicate Reads(lib: Library, stream: Bytes, r: Result<Entry, PackError>, rest: Bytes) {
    match EntryAt(lib, stream)
    case Err(e) => r == Err(e)
    case Ok(next) => r == Ok(next.0) && rest == next.1
  }

  class PackfileReader {
    const lib: Library
    var stream: Bytes
    var remainingObjects: nat
    var trailerRead: bool
    var err: Option<PackError>

    constructor (lib: Library, count: nat, stream: Bytes)
      ensures this.lib == lib && this.stream == stream && remainingObjects == count && !trailerRead && err.None?
    {
      this.lib, this.stream, remainingObjects, trailerRead, err := lib, stream, count, false, None;
    }

    /** The next entry, then the trailer, then the end. An error stays. */
    method ReadObject() returns (r: Result<Entry, PackError>)
      modifies this
      ensures old(err).Some? ==>
                r == Err(old(err).value) && err == old(err) && remainingObjects == old(remainingObjects)
      ensures old(err).None? && old(remainingObjects) == 0 ==>
                trailerRead && remainingObjects == 0 &&
                r == if old(trailerRead) then Err(EndOfPack) else Ok(Trailer)
      ensures old(err).None? && old(remainingObjects) > 0 ==>
                remainingObjects == old(remainingObjects) - 1 && trailerRead == old(trailerRead) &&
                Reads(lib, old(stream), r, stream)
      ensures old(err).None? ==> err == if r.Err? then Some(r.error) else None
    {
      if err.Some? { return Err(err.value); }
      if remainingObjects == 0 {
        if trailerRead {
          err := Some(EndOfPack);
          return Err(EndOfPack);
        }
        trailerRead := true;
        return Ok(Trailer);
      }
      remainingObjects := remainingObjects - 1;
      var header := ReadHeader(stream);
      if header.None? {
        err := Some(UnexpectedEnd);
        return Err(UnexpectedEnd);
      }
      var (code, size, rest) := header.value;
      var body := Body(lib, code, size, rest);
      if body.Err? {
        err := Some(body.error);
        return Err(body.error);
      }
      stream := body.value.1;
      r := Ok(body.value.0);
    }
  }

  /** The entries read so far and those still in the stream are the whole. */
  ghost predicate Splits(lib: Library, whole: Result<seq<Entry>, PackError>, entries: seq<Entry>, count: nat,
                         stream: Bytes) {
    whole == Prepend(entries, EntriesOf(lib, count, stream))
  }

  /** What one read means for the whole. */
  lemma AfterRead(lib: Library, whole: Result<seq<Entry>, PackError>, entries: seq<Entry>, count: nat, stream: Bytes,
                  r: Result<Entry, PackError>, left: nat, rest: Bytes)
    requires Splits(lib, whole, entries, count, stream)
    requires if count == 0 then r == Ok(Trailer) else left == count - 1 && Reads(lib, stream, r, rest)
    ensures r.Err? ==> whole == Err(r.error)
    ensures r == Ok(Trailer) ==> whole == Ok(entries)
    ensures r.Ok? && !r.value.Trailer? ==> left < count && Splits(lib, whole, entries + [r.value], left, rest)
  {
    if count == 0 {
      assert entries + [] == entries;
    } else if r.Ok? {
      PrependTwice(entries, [r.value], EntriesOf(lib, left, rest));
    }
  }

  /** Reads the entries up to the trailer. */
  method ReadEntries(reader: PackfileReader) returns (r: Result<seq<Entry>, PackError>)
    requires reader.err.None? && !reader.trailerRead
    modifies reader
    ensures r == EntriesOf(reader.lib, old(reader.remainingObjects), old(reader.stream))
  {
    ghost var whole := EntriesOf(reader.lib, reader.remainingObjects, reader.stream);
    var entries: seq<Entry> := [];
    PrependNothing(whole);
    while true
      invariant reader.err.None? && !reader.trailerRead
      invariant Splits(reader.lib, whole, entries, reader.remainingObjects, reader.stream)
      decreases reader.remainingObjects
    {
      ghost var count, stream := reader.remainingObjects, reader.stream;
      var entry := reader.ReadObject();
      AfterRead(reader.lib, whole, entries, count, stream, entry, reader.remainingObjects, reader.stream);
      if entry.Err? { return Err(entry.error); }
      if entry.value.Trailer? { return Ok(entries); }
      entries := entries + [entry.value];
    }
  }

  method ReadPackfile(lib: Library, data: Bytes) returns (r: Result<seq<Entry>, PackError>)
    ensures r == PackEntries(lib, data)
  {
    var start := PackStart(data);
    if start.Err? { return Err(start.error); }
    var reader := new PackfileReader(lib, start.value.0, start.value.1);
    r := ReadEntries(reader);
  }

  // ----- writing

  function EncodeObject(lib: Library, o: Object): Bytes {
    EntryHeader(TypeCode(o.kind), |o.data|) + lib.deflate(o.data)
  }

  function Encode(lib: Library, objects: seq<Object>): Bytes {
    if objects == [] then [] else EncodeObject(lib, objects[0]) + Encode(lib, objects[1..])
  }

  lemma {:induction false} EncodeAppend(lib: Library, a: seq<Object>, b: seq<Object>)
    ensures Encode(lib, a + b) == Encode(lib, a) + Encode(lib, b)
  {
    if a == [] {
      assert a + b == b;
    } else {
      assert (a + b)[1..] == a[1..] + b;
      EncodeAppend(lib, a[1..], b);
    }
  }

  function PackHeader(count: nat): Bytes
    requires count < TWO32
  {
    SIGNATURE + BigEndian(2, 4) + BigEndian(count, 4)
  }

  /** A pack of the given objects. */
  function Packed(lib: Library, objects: seq<Object>): Bytes
    requires |objects| < TWO32
  {
    var content := PackHeader(|objects|) + Encode(lib, objects);
    content + lib.checksum(content)
  }

  // ----- reading undoes writing

  /** What reading gives for a list of written objects: each object with its own hash,
      up to the first that is too large or whose content does not parse. */
  function ReadBack(objects: seq<Object>): Result<seq<Entry>, PackError> {
    if objects == [] then Ok([])
    else if |objects[0].data| > MAX_UNPACKED then Err(ObjectTooLarge)
    else match StandardObject(objects[0].kind, objects[0].data)
         case Err(e) => Err(e)
         case Ok(entry) => Prepend([entry], ReadBack(objects[1..]))
  }

  /** Lengths are 64-bit integers. */
  predicate Sized(objects: seq<Object>) { forall o :: o in objects ==> |o.data| < DeltaCodec.TWO64 }

  lemma EntryRoundTrip(lib: Library, o: Object, rest: Bytes)
    requires SelfDelimiting(lib) && |o.data| < DeltaCodec.TWO64
    ensures EntryAt(lib, EncodeObject(lib, o) + rest) ==
            if |o.data| > MAX_UNPACKED then Err(ObjectTooLarge)
            else match StandardObject(o.kind, o.data)
                 case Err(e) => Err(e)
                 case Ok(entry) => Ok((entry, rest))
  {
    var code, size := TypeCode(o.kind), |o.data|;
    AppendAssociates(EntryHeader(code, size), lib.deflate(o.data), rest);
    HeaderRoundTrip(code, size, lib.deflate(o.data) + rest);
    assert Delimits(lib, o.data, rest);
    assert size % DeltaCodec.TWO64 == size;
  }

  /** A reference delta is written as type 7, the twenty bytes of its parent's hash and
      the compressed payload: it reads back as the parent and the parsed payload. */
  lemma DeltaRoundTrip(lib: Library, parent: Bytes, payload: Bytes, rest: Bytes)
    requires SelfDelimiting(lib) && |parent| == 20 && |payload| < DeltaCodec.TWO64
    ensures EntryAt(lib, EntryHeader(7, |payload|) + parent + lib.deflate(payload) + rest) ==
            if |payload| > 10485760 then Err(ObjectTooLarge)
            else match DeltaCodec.ParsedDelta(payload)
                 case Err(e) => Err(BadDelta(e))
                 case Ok(delta) => Ok((DeltaEntry(parent, delta), rest))
  {
    var size, behind := |payload|, parent + (lib.deflate(payload) + rest);
    assert EntryHeader(7, size) + parent + lib.deflate(payload) + rest == EntryHeader(7, size) + behind;
    HeaderRoundTrip(7, size, behind);
    DeltaBody(lib, parent, payload, rest);
    assert size % DeltaCodec.TWO64 == size;
  }

  lemma DeltaBody(lib: Library, parent: Bytes, payload: Bytes, rest: Bytes)
    requires SelfDelimiting(lib) && |parent| == 20
    ensures Body(lib, 7, |payload|, parent + (lib.deflate(payload) + rest)) ==
            if |payload| > 10485760 then Err(ObjectTooLarge)
            else match DeltaCodec.ParsedDelta(payload)
                 case Err(e) => Err(BadDelta(e))
                 case Ok(delta) => Ok((DeltaEntry(parent, delta), rest))
  {
    var behind := parent + (lib.deflate(payload) + rest);
    assert behind[..20] == parent && behind[20..] == lib.deflate(payload) + rest;
    assert Delimits(lib, payload, rest);
  }

  /** The type in the first byte of an entry, by the numbers of the format. */
  predicate TypeBits(stream: Bytes, e: Entry) {
    stream != [] &&
    var bits := stream[0] / 16 % 8;
    match e
    case ObjectEntry(o, _, _) =>
      (match o.kind
       case CommitType => bits == 1
       case TreeType => bits == 2
       case BlobType => bits == 3
       case TagType => bits == 4)
    case DeltaEntry(_, _) => bits == 7
    case Trailer => false
  }

  /** The three bits above the lowest four say what is read. */
  lemma ReadTypeBits(lib: Library, stream: Bytes)
    ensures EntryAt(lib, stream).Ok? ==> TypeBits(stream, EntryAt(lib, stream).value.0)
  {
  }

  /** And what is written, with the lowest four bits of the size below them and the
      continuation bit above; then seven bits of the size at a time, the lowest first. */
  lemma WrittenHeader(lib: Library, o: Object)
    ensures var written, size := EncodeObject(lib, o), |o.data|;
            var first := match o.kind
                         case CommitType => 16
                         case TreeType => 32
                         case BlobType => 48
                         case TagType => 64;
            && (size < 16 ==> written == [first + size] + lib.deflate(o.data))
            && (16 <= size < 2048 ==> written == [first + size % 16 + 128, size / 16] + lib.deflate(o.data))
            && (2048 <= size < 262144 ==>
                  written == [first + size % 16 + 128, size / 16 % 128 + 128, size / 2048] + lib.deflate(o.data))
  {
    var size := |o.data|;
    var code := TypeCode(o.kind);
    if 16 <= size < 262144 {
      HeaderBytes(code, size);
    }
  }

  lemma HeaderBytes(code: nat, size: nat)
    requires code < 8 && 16 <= size < 262144
    ensures EntryHeader(code, size) ==
            if size < 2048 then [16 * code + size % 16 + 128, size / 16]
            else [16 * code + size % 16 + 128, size / 16 % 128 + 128, size / 2048]
  {
    var high := size / 16;
    assert high / 128 == size / 2048;
    if size < 2048 {
      assert SizeBytes(high % 128, high / 128) == [high];
    } else {
      assert SizeBytes(high / 128 % 128, high / 128 / 128) == [high / 128];
    }
  }

  /** The twelve bytes in front of a pack. */
  lemma WrittenStart(count: nat)
    requires count < TWO32
    ensures PackHeader(count) == [80, 65, 67, 75, 0, 0, 0, 2,
                                  count / 0x100_0000 % 256, count / 0x1_0000 % 256, count / 256 % 256, count % 256]
  {
    FourBytes(2);
    FourBytes(count);
  }

  /** The twenty bytes at the end of a pack are the checksum of all that is before. */
  lemma ChecksumBehind(lib: Library, objects: seq<Object>)
    requires |objects| < TWO32 && forall b: Bytes :: |lib.checksum(b)| == 20
    ensures var pack := Packed(lib, objects);
            |pack| > 20 && pack[|pack| - 20..] == lib.checksum(pack[..|pack| - 20])
  {
    var pack, content := Packed(lib, objects), PackHeader(|objects|) + Encode(lib, objects);
    assert pack[..|pack| - 20] == content;
  }

  lemma FourBytes(n: nat)
    ensures BigEndian(n, 4) == [n / 0x100_0000 % 256, n / 0x1_0000 % 256, n / 256 % 256, n % 256]
  {
    var a, b, c := n / 256, n / 0x1_0000, n / 0x100_0000;
    assert a / 256 == b && b / 256 == c;
    assert BigEndian(c, 1) == [c % 256];
    assert BigEndian(b, 2) == [c % 256, b % 256];
    assert BigEndian(a, 3) == [c % 256, b % 256, a % 256];
  }

  lemma {:induction false} EntriesRoundTrip(lib: Library, objects: seq<Object>, rest: Bytes)
    requires SelfDelimiting(lib) && Sized(objects)
    ensures EntriesOf(lib, |objects|, Encode(lib, objects) + rest) == ReadBack(objects)
  {
    if objects != [] {
      var tail := Encode(lib, objects[1..]) + rest;
      AppendAssociates(EncodeObject(lib, objects[0]), Encode(lib, objects[1..]), rest);
      EntryRoundTrip(lib, objects[0], tail);
      EntriesRoundTrip(lib, objects[1..], rest);
    }
  }

  /** The start of a pack of any version: the versions 2 and 3 are read, no others. */
  lemma StartRoundTrip(version: nat, count: nat, rest: Bytes)
    requires version < TWO32 && count < TWO32
    ensures PackStart(SIGNATURE + BigEndian(version, 4) + BigEndian(count, 4) + rest) ==
            if version == 2 || version == 3 then Ok((count, rest)) else Err(UnsupportedVersion)
  {
    var k := 4;
    var data := SIGNATURE + BigEndian(version, k) + BigEndian(count, k) + rest;
    DeltaCodec.Pow256Values();
    BigEndianRoundTrip(version, k);
    BigEndianRoundTrip(count, k);
    assert data[..4] == SIGNATURE && data[4..8] == BigEndian(version, k) && data[8..12] == BigEndian(count, k) &&
      data[12..] == rest;
  }

  /** A written pack reads back as the objects it was written from. */
  lemma PackRoundTrip(lib: Library, objects: seq<Object>)
    requires SelfDelimiting(lib) && Sized(objects) && |objects| < TWO32
    ensures PackEntries(lib, Packed(lib, objects)) == ReadBack(objects)
  {
    var content := PackHeader(|objects|) + Encode(lib, objects);
    AppendAssociates(PackHeader(|objects|), Encode(lib, objects), lib.checksum(content));
    StartRoundTrip(2, |objects|, Encode(lib, objects) + lib.checksum(content));
    EntriesRoundTrip(lib, objects, lib.checksum(content));
  }

  /** An object that survives: not too large, and of a content that parses. */
  predicate Readable(o: Object) { |o.data| <= MAX_UNPACKED && ParseContent(o).Ok? }

  /** All objects come back exactly when every one of them is readable. */
  lemma {:induction false} ReadBackIff(objects: seq<Object>)
    ensures ReadBack(objects).Ok? <==> forall o :: o in objects ==> Readable(o)
  {
    if objects != [] {
      var o := objects[0];
      ReadBackIff(objects[1..]);
      assert StandardObject(o.kind, o.data).Ok? <==> ParseContent(o).Ok?;
      assert o in objects && forall x :: x in objects[1..] ==> x in objects;
      assert forall x :: x in objects ==> x == o || x in objects[1..];
    }
  }

  /** Then they come back in order, each with its own hash and its content parsed. */
  lemma {:induction false} ReadBackGives(objects: seq<Object>, i: nat)
    requires ReadBack(objects).Ok? && i < |objects|
    ensures |ReadBack(objects).value| == |objects| && ParseContent(objects[i]).Ok?
    ensures ReadBack(objects).value[i] == ObjectEntry(objects[i], ObjectId(objects[i]), ParseContent(objects[i]).value)
  {
    if |objects| == 1 {
      assert ReadBack(objects[1..]) == Ok([]);
    } else {
      ReadBackGives(objects[1..], if i > 0 then i - 1 else 0);
    }
  }

  /** Trees built from recoverable entries can be read, and give the entries back. */
  lemma BuiltTreeReadable(entries: seq<TreeCodec.HexEntry>)
    requires forall e :: e in entries ==> TreeCodec.Recoverable(e)
    ensures var tree := TreeOrder.SortEntries(entries);
            var built := TreeCodec.Listing(tree);
            built.Ok? && ParseContent(Object(TreeType, built.value)) == Ok(TreeContent(TreeCodec.RawAll(tree)))
  {
    TreeCodec.TreeRoundTrip(entries);
  }

  /** Commits of clean people can be read, and give the commit back. */
  lemma BuiltCommitReadable(c: CommitCodec.Commit)
    requires c.author.Some? && c.committer.Some? && c.fields == map[]
    requires CommitCodec.Clean(c.author.value) && CommitCodec.Clean(c.committer.value)
    ensures ParseContent(Object(CommitType, CommitCodec.Build(c))) == Ok(CommitContent(c))
  {
    CommitCodec.CommitRoundTripIff(c);
  }
}
