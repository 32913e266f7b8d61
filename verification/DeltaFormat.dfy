/** The delta format as a relation between payloads and instructions, and why parsing
    is its inverse: every payload of the format is read as what it means, and whatever
    is read with the announced length is such a payload. */
module DeltaFormat {
  import opened GitTypes
  import opened Sequences
  import opened DeltaCodec
  import opened DeltaApply

  // ----- numbers

  /** `b` writes `v` in groups of seven bits, lowest first, all but the last one with a
      continuation bit; zero groups at the end are allowed. */
  ghost predicate NumberBytes(b: Bytes, v: nat) {
    b != [] &&
    if |b| == 1 then v == b[0] < 128
    else b[0] >= 128 && v % 128 == b[0] - 128 && NumberBytes(b[1..], v / 128)
  }

  lemma {:induction false} NumberRead(b: Bytes, v: nat, rest: Bytes)
    requires NumberBytes(b, v)
    ensures HeaderNumber(b + rest) == (v, rest)
    decreases |b|
  {
    if |b| == 1 {
      assert (b + rest)[1..] == rest;
    } else {
      NumberRead(b[1..], v / 128, rest);
      assert (b + rest)[1..] == b[1..] + rest;
    }
  }

  lemma OneMoreGroup(payload: Bytes, tail: Bytes, v: nat, rest: Bytes)
    requires payload != [] && payload[0] >= 128 && NumberBytes(tail, v) && payload[1..] == tail + rest
    ensures NumberBytes([payload[0]] + tail, payload[0] % 128 + 128 * v) && payload == [payload[0]] + tail + rest
  {
    assert ([payload[0]] + tail)[1..] == tail;
  }

  /** A number with something behind it is written as above. */
  lemma {:induction false} NumberSplit(payload: Bytes) returns (b: Bytes)
    requires HeaderNumber(payload).1 != []
    ensures NumberBytes(b, HeaderNumber(payload).0) && payload == b + HeaderNumber(payload).1
    decreases |payload|
  {
    b := [payload[0]];
    if payload[0] >= 128 {
      var tail := NumberSplit(payload[1..]);
      OneMoreGroup(payload, tail, HeaderNumber(payload[1..]).0, HeaderNumber(payload[1..]).1);
      b := [payload[0]] + tail;
    }
  }

  /** Of a number only the lowest 64 bits matter. */
  ghost predicate WritesNumber(b: Bytes, n: nat) {
    exists v: nat :: NumberBytes(b, v) && v % TWO64 == n
  }

  lemma WrittenNumberRead(b: Bytes, n: nat, rest: Bytes)
    requires WritesNumber(b, n)
    ensures HeaderNumber(b + rest).0 % TWO64 == n && HeaderNumber(b + rest).1 == rest
  {
    var v: nat :| NumberBytes(b, v) && v % TWO64 == n;
    NumberRead(b, v, rest);
  }

  lemma WrittenNumberLength(b: Bytes, n: nat)
    requires WritesNumber(b, n)
    ensures |b| >= 1 && (n >= 128 ==> |b| >= 2) && (n >= 16384 ==> |b| >= 3)
  {
    var v: nat :| NumberBytes(b, v) && v % TWO64 == n;
    assert n <= v by { ModSmaller(v); }
    if |b| == 2 { assert NumberBytes(b[1..], v / 128); }
  }

  lemma ModSmaller(v: nat)
    ensures v % TWO64 <= v
  {
  }

  // ----- operands

  /** `b` holds the bytes of `v` that bits `k` to `end` of the command flag, lowest
      first; every byte that is not flagged is zero, one that is may be. */
  ghost predicate FlaggedBytes(cmd: byte, k: nat, end: nat, v: nat, b: Bytes)
    requires k <= end <= 7
    decreases end - k
  {
    if k == end then v == 0 && b == []
    else if Bit(cmd, k) then b != [] && b[0] == v % 256 && FlaggedBytes(cmd, k + 1, end, v / 256, b[1..])
    else v % 256 == 0 && FlaggedBytes(cmd, k + 1, end, v / 256, b)
  }

  lemma {:induction false} FlaggedRead(cmd: byte, k: nat, end: nat, v: nat, b: Bytes, rest: Bytes)
    requires k <= end <= 7 && FlaggedBytes(cmd, k, end, v, b)
    ensures TakeFlagged(cmd, k, end, b + rest) == Some((v, rest))
    decreases end - k
  {
    if k == end {
      NothingInFront(rest);
    } else if Bit(cmd, k) {
      FlaggedRead(cmd, k + 1, end, v / 256, b[1..], rest);
      assert (b + rest)[1..] == b[1..] + rest;
    } else {
      FlaggedRead(cmd, k + 1, end, v / 256, b, rest);
    }
  }

  lemma OneMoreByte(cmd: byte, k: nat, end: nat, payload: Bytes, tail: Bytes, v: nat, rest: Bytes)
    requires k < end <= 7 && Bit(cmd, k) && payload != [] && payload[1..] == tail + rest
    requires FlaggedBytes(cmd, k + 1, end, v, tail)
    ensures payload == [payload[0]] + tail + rest
    ensures FlaggedBytes(cmd, k, end, payload[0] + 256 * v, [payload[0]] + tail)
  {
    assert ([payload[0]] + tail)[1..] == tail;
    assert (payload[0] + 256 * v) / 256 == v;
  }

  lemma {:induction false} FlaggedSplit(cmd: byte, k: nat, end: nat, payload: Bytes) returns (b: Bytes)
    requires k <= end <= 7 && TakeFlagged(cmd, k, end, payload).Some?
    ensures var (v, rest) := TakeFlagged(cmd, k, end, payload).value;
            payload == b + rest && FlaggedBytes(cmd, k, end, v, b)
    decreases end - k
  {
    b := [];
    if k < end {
      if Bit(cmd, k) {
        var tail := FlaggedSplit(cmd, k + 1, end, payload[1..]);
        var (v, rest) := TakeFlagged(cmd, k + 1, end, payload[1..]).value;
        OneMoreByte(cmd, k, end, payload, tail, v, rest);
        b := [payload[0]] + tail;
      } else {
        b := FlaggedSplit(cmd, k + 1, end, payload);
      }
    }
  }

  // ----- instructions

  /** How an instruction may be written. */
  datatype Code = DataCode(data: Bytes) | CopyCode(cmd: byte, offsetBytes: Bytes, sizeBytes: Bytes)

  function BytesOf(e: Code): Bytes
    requires e.DataCode? ==> |e.data| < 128
  {
    match e
    case DataCode(data) => [|data|] + data
    case CopyCode(cmd, x, y) => [cmd] + (x + y)
  }

  /** The size as written: 65536 may be written as zero. */
  predicate WrittenSize(z: nat, length: nat) {
    length == if z == 0 then 0x1_0000 else z
  }

  ghost predicate Means(e: Code, c: Change) {
    match e
    case DataCode(data) => 1 <= |data| < 128 && c == Insert(data)
    case CopyCode(cmd, x, y) =>
      cmd >= 128 && c.Copy? && FlaggedBytes(cmd, 0, 4, c.offset, x) &&
      exists z :: WrittenSize(z, c.length) && FlaggedBytes(cmd, 4, 7, z, y)
  }

  lemma {:induction false} NoFlags(k: nat, end: nat)
    requires k <= end <= 7
    ensures FlaggedBytes(0x80, k, end, 0, [])
    decreases end - k
  {
    if k < end {
      Bits0x80(k);
      NoFlags(k + 1, end);
    }
  }

  lemma Bits0x80(k: nat)
    requires k < 7
    ensures !Bit(0x80, k)
  {
    assert !Bit(64, 0) && !Bit(32, 0) && !Bit(16, 0) && !Bit(8, 0) && !Bit(4, 0) && !Bit(2, 0);
    assert !Bit(4, 1) && !Bit(8, 1) && !Bit(8, 2) && !Bit(16, 1) && !Bit(16, 2) && !Bit(16, 3);
    assert !Bit(32, 1) && !Bit(32, 2) && !Bit(32, 3) && !Bit(32, 4);
    assert !Bit(64, 1) && !Bit(64, 2) && !Bit(64, 3) && !Bit(64, 4) && !Bit(64, 5);
  }

  /** The shortest copy: no operand bytes at all. */
  lemma CopyWithoutOperands()
    ensures Means(CopyCode(0x80, [], []), Copy(0, 0x1_0000))
  {
    NoFlags(0, 4);
    NoFlags(4, 7);
    assert WrittenSize(0, 0x1_0000);
  }

  predicate InSource(c: Change, source: nat) {
    c.Copy? ==> c.offset + c.length <= source
  }

  lemma CommandRead(e: Code, c: Change, source: nat, target: nat, rest: Bytes)
    requires Means(e, c) && InSource(c, source) && SizeOf(c) <= target
    ensures BytesOf(e) + rest != [] && NextCommand(BytesOf(e) + rest, source, target) == Ok(Some((c, rest)))
    ensures SizeOf(c) > 0
  {
    FrontOfCode(e, rest);
    match e
    case DataCode(data) => DataRead(data, target, rest);
    case CopyCode(cmd, x, y) => CopyRead(cmd, x, y, c, source, target, rest);
  }

  lemma FrontOfCode(e: Code, rest: Bytes)
    requires e.DataCode? ==> |e.data| < 128
    ensures BytesOf(e) + rest != []
    ensures (BytesOf(e) + rest)[0] == if e.DataCode? then |e.data| else e.cmd
    ensures (BytesOf(e) + rest)[1..] == if e.DataCode? then e.data + rest else e.offsetBytes + (e.sizeBytes + rest)
  {
    match e
    case DataCode(data) => FirstOf(|data|, data, rest);
    case CopyCode(cmd, x, y) =>
      FirstOf(cmd, x + y, rest);
      AppendAssociates(x, y, rest);
  }

  lemma DataRead(data: Bytes, target: nat, rest: Bytes)
    requires |data| < 128 && |data| <= target
    ensures AddCommand(|data|, data + rest, target) == Ok(Some((Insert(data), rest)))
  {
    assert (data + rest)[..|data|] == data && (data + rest)[|data|..] == rest;
  }

  lemma CopyRead(cmd: byte, x: Bytes, y: Bytes, c: Change, source: nat, target: nat, rest: Bytes)
    requires Means(CopyCode(cmd, x, y), c) && InSource(c, source) && c.length <= target
    ensures CopyCommand(cmd, x + (y + rest), source, target) == Ok(Some((c, rest))) && c.length > 0
  {
    var z :| WrittenSize(z, c.length) && FlaggedBytes(cmd, 4, 7, z, y);
    FlaggedRead(cmd, 0, 4, c.offset, x, y + rest);
    FlaggedRead(cmd, 4, 7, z, y, rest);
  }

  lemma CommandSplit(payload: Bytes, source: nat, target: nat) returns (e: Code)
    requires payload != [] && NextCommand(payload, source, target).Ok? &&
             NextCommand(payload, source, target).value.Some?
    ensures var (c, rest) := NextCommand(payload, source, target).value.value;
            Means(e, c) && InSource(c, source) && SizeOf(c) <= target && payload == BytesOf(e) + rest
  {
    var cmd, tail := payload[0], payload[1..];
    if cmd >= 128 {
      var x := FlaggedSplit(cmd, 0, 4, tail);
      var (offset, middle) := Offset(cmd, tail).value;
      var y := FlaggedSplit(cmd, 4, 7, middle);
      e := CopyCode(cmd, x, y);
      var (z, rest) := Size(cmd, middle).value;
      assert WrittenSize(z, if z == 0 then 0x1_0000 else z);
      assert payload == [cmd] + tail && tail == x + (y + rest);
      assert payload == BytesOf(e) + rest;
    } else {
      e := DataCode(tail[..cmd]);
      assert payload == [cmd] + (tail[..cmd] + tail[cmd..]);
    }
  }

  // ----- instruction lists

  ghost predicate AllMean(codes: seq<Code>, changes: seq<Change>, source: nat) {
    |codes| == |changes| &&
    forall i :: 0 <= i < |codes| ==> Means(codes[i], changes[i]) && InSource(changes[i], source)
  }

  ghost function Joined(codes: seq<Code>, changes: seq<Change>, source: nat): Bytes
    requires AllMean(codes, changes, source)
  {
    if codes == [] then [] else BytesOf(codes[0]) + Joined(codes[1..], changes[1..], source)
  }

  lemma InstructionStep(payload: Bytes, source: nat, target: nat, left: nat, c: Change, rest: Bytes, after: nat)
    requires 0 < left <= target < TWO64 && payload != [] && left == SizeOf(c) + after
    requires NextCommand(payload, source, target) == Ok(Some((c, rest)))
    ensures Instructions(payload, source, target, left) == Prepend([c], Instructions(rest, source, target, after))
  {
    SmallMod(after);
  }

  lemma {:induction false} CodesRead(codes: seq<Code>, changes: seq<Change>, source: nat, target: nat, trailing: Bytes)
    requires AllMean(codes, changes, source) && TotalSize(changes) <= target < TWO64
    ensures Instructions(Joined(codes, changes, source) + trailing, source, target, TotalSize(changes)) == Ok(changes)
    decreases |codes|
  {
    if codes != [] {
      var c, more := changes[0], changes[1..];
      var after := Joined(codes[1..], more, source) + trailing;
      AppendAssociates(BytesOf(codes[0]), Joined(codes[1..], more, source), trailing);
      var payload := BytesOf(codes[0]) + after;
      assert Joined(codes, changes, source) + trailing == payload;
      CommandRead(codes[0], c, source, target, after);
      InstructionStep(payload, source, target, TotalSize(changes), c, after, TotalSize(more));
      CodesRead(codes[1..], more, source, target, trailing);
      assert changes == [c] + more;
    }
  }

  /** Instructions that fill the bytes still to come are written in the format. */
  lemma {:induction false} CodesSplit(payload: Bytes, source: nat, target: nat, left: nat)
    returns (codes: seq<Code>, trailing: Bytes)
    requires left <= target < TWO64 && Instructions(payload, source, target, left).Ok?
    requires Exact(payload, source, target, left)
    ensures var changes := Instructions(payload, source, target, left).value;
            AllMean(codes, changes, source) && payload == Joined(codes, changes, source) + trailing
    decreases |payload|
  {
    codes, trailing := [], payload;
    if left == 0 {
      NothingInFront(payload);
    } else {
      var (c, rest) := NextCommand(payload, source, target).value.value;
      CommandConsumes(payload[0], payload[1..], source, target);
      InstructionStep(payload, source, target, left, c, rest, left - SizeOf(c));
      var e := CommandSplit(payload, source, target);
      var more;
      more, trailing := CodesSplit(rest, source, target, left - SizeOf(c));
      codes := [e] + more;
      PutInFront(e, c, more, Instructions(rest, source, target, left - SizeOf(c)).value, source, trailing);
    }
  }

  lemma PutInFront(e: Code, c: Change, codes: seq<Code>, changes: seq<Change>, source: nat, trailing: Bytes)
    requires Means(e, c) && InSource(c, source) && AllMean(codes, changes, source)
    ensures AllMean([e] + codes, [c] + changes, source)
    ensures Joined([e] + codes, [c] + changes, source) + trailing ==
            BytesOf(e) + (Joined(codes, changes, source) + trailing)
  {
    assert ([e] + codes)[1..] == codes && ([c] + changes)[1..] == changes;
    AppendAssociates(BytesOf(e), Joined(codes, changes, source), trailing);
  }

  // ----- whole payloads

  /** The parts of a payload: two numbers, instructions, and bytes that are not looked at. */
  datatype Parts = Parts(source: Bytes, target: Bytes, codes: seq<Code>, trailing: Bytes)

  /** `parts` write a delta from `source` bytes with the instructions `changes`. */
  ghost predicate Writes(parts: Parts, source: nat, changes: seq<Change>) {
    && WritesNumber(parts.source, source) && WritesNumber(parts.target, TotalSize(changes))
    && AllMean(parts.codes, changes, source)
  }

  ghost function Payload(parts: Parts, source: nat, changes: seq<Change>): Bytes
    requires AllMean(parts.codes, changes, source)
  {
    parts.source + (parts.target + (Joined(parts.codes, changes, source) + parts.trailing))
  }

  lemma HeadersRead(parts: Parts, source: nat, changes: seq<Change>)
    requires Writes(parts, source, changes)
    ensures Headers(Payload(parts, source, changes)) ==
            (source, TotalSize(changes), Joined(parts.codes, changes, source) + parts.trailing)
  {
    var body := Joined(parts.codes, changes, source) + parts.trailing;
    WrittenNumberRead(parts.source, source, parts.target + body);
    WrittenNumberRead(parts.target, TotalSize(changes), body);
  }

  /** A payload with an instruction is never too short: a copy of a single byte has
      large numbers in front. */
  lemma LongEnough(parts: Parts, source: nat, changes: seq<Change>)
    requires Writes(parts, source, changes)
    ensures changes != [] || source >= 16384 ==> |Payload(parts, source, changes)| >= MIN_DELTA_SIZE
  {
    WrittenNumberLength(parts.source, source);
    WrittenNumberLength(parts.target, TotalSize(changes));
    if changes != [] {
      var e, c := parts.codes[0], changes[0];
      CodeLength(e, c);
      JoinedLength(parts.codes, changes, source);
      if |BytesOf(e)| < 2 { assert c.offset + c.length <= source; }
    }
  }

  lemma JoinedLength(codes: seq<Code>, changes: seq<Change>, source: nat)
    requires AllMean(codes, changes, source) && codes != []
    ensures |Joined(codes, changes, source)| >= |BytesOf(codes[0])| && TotalSize(changes) >= SizeOf(changes[0])
  {
  }

  lemma CodeLength(e: Code, c: Change)
    requires Means(e, c)
    ensures |BytesOf(e)| >= 2 || (c.Copy? && c.length == 0x1_0000)
  {
    if e.CopyCode? && e.sizeBytes == [] {
      var z :| WrittenSize(z, c.length) && FlaggedBytes(e.cmd, 4, 7, z, []);
      NoBytesNoValue(e.cmd, 4, 7, z);
    }
  }

  lemma {:induction false} NoBytesNoValue(cmd: byte, k: nat, end: nat, v: nat)
    requires k <= end <= 7 && FlaggedBytes(cmd, k, end, v, [])
    ensures v == 0
    decreases end - k
  {
    if k < end { NoBytesNoValue(cmd, k + 1, end, v / 256); }
  }

  /** Every payload of the format is read as what it means, unless it has fewer than
      four bytes, which takes an empty target and a source below 16 KiB. */
  lemma PayloadRead(parts: Parts, source: nat, changes: seq<Change>)
    requires Writes(parts, source, changes)
    ensures var payload := Payload(parts, source, changes);
            ParsedDelta(payload) ==
              if |payload| < MIN_DELTA_SIZE then Err(PayloadTooShort) else Ok(Delta(source, changes))
    ensures |Payload(parts, source, changes)| < MIN_DELTA_SIZE ==> changes == [] && source < 16384
  {
    HeadersRead(parts, source, changes);
    LongEnough(parts, source, changes);
    CodesRead(parts.codes, changes, source, TotalSize(changes), parts.trailing);
  }

  /** Whatever is read with the announced length is a payload of the format. */
  lemma PayloadSplit(payload: Bytes, source: nat, changes: seq<Change>) returns (parts: Parts)
    requires changes != [] && ParsedDelta(payload) == Ok(Delta(source, changes))
    requires TotalSize(changes) == Headers(payload).1
    ensures Writes(parts, source, changes) && payload == Payload(parts, source, changes)
  {
    var h := Headers(payload);
    InstructionsFillIff(h.2, h.0, h.1, h.1);
    var codes, trailing := CodesSplit(h.2, h.0, h.1, h.1);
    var rest := HeaderNumber(payload).1;
    var first := NumberSplit(payload);
    var second := NumberSplit(rest);
    parts := Parts(first, second, codes, trailing);
  }

  /** The format exactly: a payload is read as these instructions, with the target
      length it announces, if and only if it is one of the ways to write them. */
  lemma DeltaFormatIff(payload: Bytes, source: nat, changes: seq<Change>)
    requires changes != []
    ensures (ParsedDelta(payload) == Ok(Delta(source, changes)) && TotalSize(changes) == Headers(payload).1) <==>
            exists parts :: Writes(parts, source, changes) && payload == Payload(parts, source, changes)
  {
    if ParsedDelta(payload) == Ok(Delta(source, changes)) && TotalSize(changes) == Headers(payload).1 {
      var parts := PayloadSplit(payload, source, changes);
    }
    if exists parts :: Writes(parts, source, changes) && payload == Payload(parts, source, changes) {
      var parts :| Writes(parts, source, changes) && payload == Payload(parts, source, changes);
      PayloadRead(parts, source, changes);
      HeadersRead(parts, source, changes);
    }
  }

  // ----- one way to write each delta

  function EncodeNumber(n: nat): Bytes {
    if n < 128 then [n] else [128 + n % 128] + EncodeNumber(n / 128)
  }

  lemma {:induction false} EncodedNumber(n: nat)
    ensures NumberBytes(EncodeNumber(n), n)
    ensures |EncodeNumber(n)| >= 2 <==> n >= 128
    ensures |EncodeNumber(n)| >= 3 <==> n >= 16384
  {
    if n >= 128 {
      EncodedNumber(n / 128);
      assert EncodeNumber(n)[1..] == EncodeNumber(n / 128);
    }
  }

  /** The non-zero bytes among the lowest `n` of `v`, lowest first. */
  function NonZeroBytes(v: nat, n: nat): Bytes {
    if n == 0 then []
    else (if v % 256 != 0 then [v % 256] else []) + NonZeroBytes(v / 256, n - 1)
  }

  /** One bit for each of the lowest `n` bytes of `v`: whether it is non-zero. */
  function FlagBits(v: nat, n: nat): nat {
    if n == 0 then 0 else (if v % 256 != 0 then 1 else 0) + 2 * FlagBits(v / 256, n - 1)
  }

  lemma {:induction false} FlagBitsBound(v: nat, n: nat)
    ensures n == 3 ==> FlagBits(v, n) < 8
    ensures n == 4 ==> FlagBits(v, n) < 16
  {
    if n == 4 { FlagBitsBound(v / 256, 3); }
    if n == 3 {
      assert FlagBits(v / 256 / 256 / 256, 0) == 0;
      assert FlagBits(v / 256 / 256, 1) <= 1;
      assert FlagBits(v / 256, 2) <= 3;
    }
  }

  function CopyCommandByte(offset: nat, length: nat): byte {
    FlagBitsBound(offset, 4);
    FlagBitsBound(length, 3);
    128 + 16 * FlagBits(length, 3) + FlagBits(offset, 4)
  }

  predicate Encodable(c: Change, source: nat) {
    match c
    case Insert(data) => 1 <= |data| <= 127
    case Copy(offset, length) =>
      offset < 0x1_0000_0000 && 1 <= length < 0x100_0000 && offset + length <= source
  }

  /** Only bytes that are not zero are written. */
  function Encode(c: Change): Code {
    match c
    case Insert(data) => DataCode(data)
    case Copy(offset, length) =>
      CopyCode(CopyCommandByte(offset, length), NonZeroBytes(offset, 4), NonZeroBytes(length, 3))
  }

  function Shr(b: byte, k: nat): byte {
    if k == 0 then b else Shr(b / 2, k - 1)
  }

  lemma {:induction false} BitIsShr(b: byte, k: nat)
    requires k < 8
    ensures Bit(b, k) <==> Shr(b, k) % 2 == 1
    ensures Shr(b, k + 1) == Shr(b, k) / 2
  {
    if k > 0 { BitIsShr(b / 2, k - 1); }
  }

  function Doubled(high: nat, n: nat): nat {
    if n == 0 then high else 2 * Doubled(high, n - 1)
  }

  /** The lowest flag is bit `k`, the others are those of the higher bytes. */
  lemma FlagStep(cmd: byte, k: nat, v: nat, n: nat, high: nat)
    requires k < 8 && n > 0 && Shr(cmd, k) == FlagBits(v, n) + Doubled(high, n)
    ensures Bit(cmd, k) <==> v % 256 != 0
    ensures Shr(cmd, k + 1) == FlagBits(v / 256, n - 1) + Doubled(high, n - 1)
  {
    BitIsShr(cmd, k);
    assert Shr(cmd, k) == (if v % 256 != 0 then 1 else 0) + 2 * (FlagBits(v / 256, n - 1) + Doubled(high, n - 1));
  }

  lemma HighBytes(v: nat, n: nat)
    requires n > 0 && v < Pow256(n)
    ensures v / 256 < Pow256(n - 1)
  {
  }

  /** If the command's bits from `k` on are the flags of `v`, its non-zero bytes write it. */
  lemma {:induction false} FlagsMatch(cmd: byte, k: nat, end: nat, v: nat, high: nat)
    requires k <= end <= 7 && v < Pow256(end - k)
    requires Shr(cmd, k) == FlagBits(v, end - k) + Doubled(high, end - k)
    ensures FlaggedBytes(cmd, k, end, v, NonZeroBytes(v, end - k))
    decreases end - k
  {
    if k < end {
      FlagStep(cmd, k, v, end - k, high);
      HighBytes(v, end - k);
      FlagsMatch(cmd, k + 1, end, v / 256, high);
      NonZeroStep(v, end - k);
    }
  }

  lemma NonZeroStep(v: nat, n: nat)
    requires n > 0
    ensures v % 256 == 0 ==> NonZeroBytes(v, n) == NonZeroBytes(v / 256, n - 1)
    ensures v % 256 != 0 ==> NonZeroBytes(v, n) != [] && NonZeroBytes(v, n)[0] == v % 256
    ensures v % 256 != 0 ==> NonZeroBytes(v, n)[1..] == NonZeroBytes(v / 256, n - 1)
  {
    NothingInFront(NonZeroBytes(v / 256, n - 1));
  }

  lemma Doubled3And4(h: nat)
    ensures Doubled(h, 3) == 8 * h && Doubled(h, 4) == 16 * h
  {
    assert Doubled(h, 1) == 2 * h;
    assert Doubled(h, 2) == 4 * h;
  }

  lemma Shr4(b: byte)
    ensures Shr(b, 0) == b && Shr(b, 4) == b / 16
  {
    BitIsShr(b, 0);
    BitIsShr(b, 1);
    BitIsShr(b, 2);
    BitIsShr(b, 3);
  }

  lemma EncodeMeans(c: Change, source: nat)
    requires Encodable(c, source)
    ensures Means(Encode(c), c) && InSource(c, source)
  {
    if c.Copy? {
      Pow256Values();
      FlagBitsBound(c.offset, 4);
      FlagBitsBound(c.length, 3);
      Doubled3And4(8 + FlagBits(c.length, 3));
      Doubled3And4(1);
      Shr4(CopyCommandByte(c.offset, c.length));
      FlagsMatch(CopyCommandByte(c.offset, c.length), 0, 4, c.offset, 8 + FlagBits(c.length, 3));
      FlagsMatch(CopyCommandByte(c.offset, c.length), 4, 7, c.length, 1);
      assert WrittenSize(c.length, c.length);
    }
  }

  function EncodeDelta(source: nat, changes: seq<Change>): Parts {
    Parts(EncodeNumber(source), EncodeNumber(TotalSize(changes)),
      seq(|changes|, i requires 0 <= i < |changes| => Encode(changes[i])), [])
  }

  /** Every delta with instructions that fit the format has a payload; parsing it gives
      the delta back, except that one with an empty target is refused as too short
      unless its source is at least 16 KiB. */
  lemma DeltaRoundTripIff(source: nat, changes: seq<Change>)
    requires forall c :: c in changes ==> Encodable(c, source)
    requires source < TWO64 && TotalSize(changes) < TWO64
    ensures Writes(EncodeDelta(source, changes), source, changes)
    ensures ParsedDelta(Payload(EncodeDelta(source, changes), source, changes)) ==
            if changes != [] || source >= 16384 then Ok(Delta(source, changes)) else Err(PayloadTooShort)
  {
    var parts := EncodeDelta(source, changes);
    forall i | 0 <= i < |changes| ensures Means(parts.codes[i], changes[i]) && InSource(changes[i], source) {
      EncodeMeans(changes[i], source);
    }
    EncodedNumber(source);
    EncodedNumber(TotalSize(changes));
    SmallMod(source);
    SmallMod(TotalSize(changes));
    PayloadRead(parts, source, changes);
    LongEnough(parts, source, changes);
    if changes == [] { assert Payload(parts, source, changes) == EncodeNumber(source) + EncodeNumber(0); }
  }
}
