/** The delta payload of a packed object: parsing it, applying it, and the encoding
    that parsing undoes. */
module DeltaCodec {
  import opened GitTypes
  import opened Sequences

  const TWO64: nat := 0x1_0000_0000_0000_0000

  /** One instruction of a delta. */
  datatype Change = Insert(data: Bytes) | Copy(offset: nat, length: nat)

  datatype Delta = Delta(sourceLength: nat, changes: seq<Change>)

  datatype DeltaError =
    | PayloadTooShort
    | MissingCommand
    | ReservedCommand
    | MissingOffsetByte
    | MissingSizeByte
    | MissingData
    | SizeMismatch
    | OutOfBounds
    | EmptyCopy

  /** Bit `k` of a byte, the lowest being bit 0. */
  predicate Bit(b: byte, k: nat)
    requires k < 8
  {
    if k == 0 then b % 2 == 1 else Bit(b / 2, k - 1)
  }

  // ----- the size header

  /** The little-endian base-128 number at the front of `b`, and what follows it. The
      number ends at a byte without continuation bit or with the input. */
  function HeaderNumber(b: Bytes): (r: (nat, Bytes))
    ensures |r.1| <= |b| && (b != [] ==> |r.1| < |b|)
  {
    if b == [] then (0, [])
    else if b[0] < 128 || |b| == 1 then (b[0] % 128, b[1..])
    else (b[0] % 128 + 128 * HeaderNumber(b[1..]).0, HeaderNumber(b[1..]).1)
  }

  /** `x` shifted left by `7 * j` bits. */
  function Shifted(x: nat, j: nat): nat {
    if j == 0 then x else 128 * Shifted(x, j - 1)
  }

  lemma {:induction false} ShiftedSum(a: nat, b: nat, j: nat)
    ensures Shifted(a + 128 * b, j) == Shifted(a, j) + Shifted(b, j + 1)
  {
    if j > 0 { ShiftedSum(a, b, j - 1); }
  }

  lemma ModAdd(a: nat, b: nat)
    ensures (a % TWO64 + b) % TWO64 == (a + b) % TWO64
  {
    ModShift(a % TWO64 + b, a / TWO64);
  }

  lemma {:induction false} ModShift(a: nat, q: nat)
    ensures (a + TWO64 * q) % TWO64 == a % TWO64
    decreases q
  {
    if q > 0 {
      ModShift(a, q - 1);
      assert a + TWO64 * q == (a + TWO64 * (q - 1)) + TWO64;
    }
  }

  /** Reads a size header. Each byte's seven bits are or-ed in above the earlier ones,
      which adds them; bits beyond the 64th are lost. */
  method DeltaHeaderSize(b: Bytes) returns (size: nat, rest: Bytes)
    ensures size == HeaderNumber(b).0 % TWO64 && rest == HeaderNumber(b).1
  {
    if |b| == 0 { return 0, b; }
    var j := 0;
    size := 0;
    ghost var sum: nat := 0;
    while true
      invariant j < |b| && size == sum % TWO64
      invariant HeaderNumber(b).0 == sum + Shifted(HeaderNumber(b[j..]).0, j)
      invariant HeaderNumber(b).1 == HeaderNumber(b[j..]).1
      decreases |b| - j
    {
      var cmd := b[j];
      assert b[j..][0] == cmd && b[j..][1..] == b[j + 1..];
      ModAdd(sum, Shifted(cmd % 128, j));
      size := (size + Shifted(cmd % 128, j)) % TWO64;
      sum := sum + Shifted(cmd % 128, j);
      if cmd < 128 || j + 1 == |b| {
        return size, b[j + 1..];
      }
      ShiftedSum(cmd % 128, HeaderNumber(b[j + 1..]).0, j);
      j := j + 1;
    }
  }

  // ----- the operands of a copy

  /** The little-endian number of which bits `k` to `end` of the command byte flag
      the bytes that are present; absent bytes are zero. */
  function TakeFlagged(cmd: byte, k: nat, end: nat, payload: Bytes): (r: Option<(nat, Bytes)>)
    requires k <= end <= 7
    ensures r.Some? ==> |r.value.1| <= |payload|
    decreases end - k, |payload|
  {
    if k == end then Some((0, payload))
    else if !Bit(cmd, k) then Raised(0, TakeFlagged(cmd, k + 1, end, payload))
    else if payload == [] then None
    else Raised(payload[0], TakeFlagged(cmd, k + 1, end, payload[1..]))
  }

  /** The number one byte place up, with `digit` below it. */
  function Raised(digit: nat, r: Option<(nat, Bytes)>): Option<(nat, Bytes)> {
    match r
    case None => None
    case Some((high, rest)) => Some((digit + 256 * high, rest))
  }

  /** The number `r` moved up to `place`, with `low` below it. */
  function Above(low: nat, place: nat, r: Option<(nat, Bytes)>): Option<(nat, Bytes)> {
    match r
    case None => None
    case Some((high, rest)) => Some((low + place * high, rest))
  }

  function Offset(cmd: byte, payload: Bytes): Option<(nat, Bytes)> { TakeFlagged(cmd, 0, 4, payload) }

  function Size(cmd: byte, payload: Bytes): Option<(nat, Bytes)> { TakeFlagged(cmd, 4, 7, payload) }

  function Placed(low: nat, place: nat, digit: nat): nat { low + place * digit }

  lemma TakeStep(cmd: byte, k: nat, end: nat, low: nat, place: nat, rest: Bytes)
    requires k < end <= 7
    ensures Above(low, place, TakeFlagged(cmd, k, end, rest)) ==
            if !Bit(cmd, k) then Above(low, 256 * place, TakeFlagged(cmd, k + 1, end, rest))
            else if rest == [] then None
            else Above(Placed(low, place, rest[0]), 256 * place, TakeFlagged(cmd, k + 1, end, rest[1..]))
  {
    var present := Bit(cmd, k) && rest != [];
    var digit, tail := if present then rest[0] else 0, if present then rest[1..] else rest;
    AboveRaised(low, place, digit, TakeFlagged(cmd, k + 1, end, tail));
  }

  lemma AboveRaised(low: nat, place: nat, digit: nat, r: Option<(nat, Bytes)>)
    ensures Above(low, place, Raised(digit, r)) == Above(Placed(low, place, digit), 256 * place, r)
  {
    match r
    case None =>
    case Some((high, _)) => assert place * (digit + 256 * high) == place * digit + (256 * place) * high;
  }

  /** Ors the next payload byte into `value` at `place` if bit `k` flags it. */
  method TakeByte(cmd: byte, k: nat, end: nat, value: nat, place: nat, payload: Bytes)
    returns (ok: bool, value': nat, rest: Bytes)
    requires k < end <= 7
    ensures Above(value, place, TakeFlagged(cmd, k, end, payload)) ==
            if ok then Above(value', 256 * place, TakeFlagged(cmd, k + 1, end, rest)) else None
  {
    TakeStep(cmd, k, end, value, place, payload);
    if Bit(cmd, k) {
      if |payload| == 0 { return false, value, payload; }
      ok, value', rest := true, Placed(value, place, payload[0]), payload[1..];
    } else {
      ok, value', rest := true, value, payload;
    }
  }

  /** Reads the flagged bytes of the copy offset, lowest first. */
  method ParseOffset(cmd: byte, payload: Bytes) returns (r: Result<(nat, Bytes), DeltaError>)
    ensures r == match Offset(cmd, payload)
                 case None => Err(MissingOffsetByte)
                 case Some(v) => Ok(v)
  {
    AboveNothing(Offset(cmd, payload));
    var ok, offset, rest := TakeByte(cmd, 0, 4, 0, 1, payload);
    if !ok { return Err(MissingOffsetByte); }
    ok, offset, rest := TakeByte(cmd, 1, 4, offset, 0x100, rest);
    if !ok { return Err(MissingOffsetByte); }
    ok, offset, rest := TakeByte(cmd, 2, 4, offset, 0x1_0000, rest);
    if !ok { return Err(MissingOffsetByte); }
    ok, offset, rest := TakeByte(cmd, 3, 4, offset, 0x100_0000, rest);
    if !ok { return Err(MissingOffsetByte); }
    r := Ok((offset, rest));
  }

  /** Reads the flagged bytes of the copy size, lowest first. */
  method ParseSize(cmd: byte, payload: Bytes) returns (r: Result<(nat, Bytes), DeltaError>)
    ensures r == match Size(cmd, payload)
                 case None => Err(MissingSizeByte)
                 case Some(v) => Ok(v)
  {
    AboveNothing(Size(cmd, payload));
    var ok, size, rest := TakeByte(cmd, 4, 7, 0, 1, payload);
    if !ok { return Err(MissingSizeByte); }
    ok, size, rest := TakeByte(cmd, 5, 7, size, 0x100, rest);
    if !ok { return Err(MissingSizeByte); }
    ok, size, rest := TakeByte(cmd, 6, 7, size, 0x1_0000, rest);
    if !ok { return Err(MissingSizeByte); }
    r := Ok((size, rest));
  }

  lemma AboveNothing(r: Option<(nat, Bytes)>)
    ensures Above(0, 1, r) == r
  {
  }

  // ----- one instruction

  /** What one command byte makes of the payload: an instruction with what follows it,
      `None` when the instruction is out of range and parsing stops, or an error. */
  type Parsed = Result<Option<(Change, Bytes)>, DeltaError>

  function SizeOf(c: Change): nat {
    match c
    case Insert(data) => |data|
    case Copy(_, length) => length
  }

  function CopyCommand(cmd: byte, payload: Bytes, source: nat, target: nat): Parsed {
    match Offset(cmd, payload)
    case None => Err(MissingOffsetByte)
    case Some((offset, rest)) =>
      match Size(cmd, rest)
      case None => Err(MissingSizeByte)
      case Some((size, tail)) =>
        var length := if size == 0 then 0x1_0000 else size;
        if length > target || offset + length > source then Ok(None)
        else Ok(Some((Copy(offset, length), tail)))
  }

  function AddCommand(cmd: byte, payload: Bytes, target: nat): Parsed {
    if cmd > target then Ok(None)
    else if |payload| < cmd then Err(MissingData)
    else Ok(Some((Insert(payload[..cmd]), payload[cmd..])))
  }

  function Command(cmd: byte, payload: Bytes, source: nat, target: nat): Parsed {
    if cmd >= 128 then CopyCommand(cmd, payload, source, target)
    else if cmd != 0 then AddCommand(cmd, payload, target)
    else Err(ReservedCommand)
  }

  /** The flagged bytes bound the operands well below 64 bits, so the wrap-around
      check on their sum never fires. */
  lemma {:induction false} TakeFlaggedBound(cmd: byte, k: nat, end: nat, payload: Bytes)
    requires k <= end <= 7
    ensures TakeFlagged(cmd, k, end, payload).Some? ==> TakeFlagged(cmd, k, end, payload).value.0 < Pow256(end - k)
    decreases end - k
  {
    if k < end {
      TakeFlaggedBound(cmd, k + 1, end, if Bit(cmd, k) && payload != [] then payload[1..] else payload);
    }
  }

  lemma OperandsBound(cmd: byte, payload: Bytes, rest: Bytes)
    ensures Offset(cmd, payload).Some? ==> Offset(cmd, payload).value.0 < 0x1_0000_0000
    ensures Size(cmd, rest).Some? ==> Size(cmd, rest).value.0 < 0x100_0000
  {
    Pow256Values();
    TakeFlaggedBound(cmd, 0, 4, payload);
    TakeFlaggedBound(cmd, 4, 7, rest);
  }

  lemma Pow256Values()
    ensures Pow256(3) == 0x100_0000 && Pow256(4) == 0x1_0000_0000
  {
    assert Pow256(1) == 0x100;
    assert Pow256(2) == 0x1_0000;
  }

  function Pow256(n: nat): nat {
    if n == 0 then 1 else 256 * Pow256(n - 1)
  }

  method ParseCopyCommand(cmd: byte, payload: Bytes, source: nat, target: nat) returns (r: Parsed)
    requires source < TWO64 && target < TWO64
    ensures r == CopyCommand(cmd, payload, source, target)
  {
    var o := ParseOffset(cmd, payload);
    if o.Err? { return Err(o.error); }
    var (offset, rest) := o.value;
    var z := ParseSize(cmd, rest);
    if z.Err? { return Err(z.error); }
    var (size, tail) := z.value;
    if size == 0 { size := 0x1_0000; }
    OperandsBound(cmd, payload, rest);
    var end := (offset + size) % TWO64;
    if size > target || end > source || end < offset { return Ok(None); }
    r := Ok(Some((Copy(offset, size), tail)));
  }

  method ParseDeltaCommand(cmd: byte, payload: Bytes, source: nat, target: nat) returns (r: Parsed)
    requires source < TWO64 && target < TWO64
    ensures r == Command(cmd, payload, source, target)
  {
    if cmd >= 128 {
      r := ParseCopyCommand(cmd, payload, source, target);
    } else if cmd != 0 {
      r := AddCommand(cmd, payload, target);
    } else {
      r := Err(ReservedCommand);
    }
  }

  lemma CommandConsumes(cmd: byte, payload: Bytes, source: nat, target: nat)
    ensures var r := Command(cmd, payload, source, target);
            r.Ok? && r.value.Some? ==>
              |r.value.value.1| <= |payload| && 0 < SizeOf(r.value.value.0) <= target &&
              (r.value.value.0.Copy? ==> r.value.value.0.offset + r.value.value.0.length <= source)
  {
  }

  // ----- the whole payload

  /** The instructions of `payload`, with `left` bytes of the target still to come.
      An out-of-range instruction or an overshoot ends the list quietly. */
  function Instructions(payload: Bytes, source: nat, target: nat, left: int): Result<seq<Change>, DeltaError>
    decreases |payload|
  {
    if left <= 0 || left > target then Ok([])
    else if payload == [] then Err(MissingCommand)
    else match Command(payload[0], payload[1..], source, target)
         case Err(e) => Err(e)
         case Ok(None) => Ok([])
         case Ok(Some((c, rest))) =>
           CommandConsumes(payload[0], payload[1..], source, target);
           Prepend([c], Instructions(rest, source, target, (left - SizeOf(c)) % TWO64))
  }

  const MIN_DELTA_SIZE := 4

  /** Source length, target length and instruction bytes of a payload. */
  function Headers(payload: Bytes): (nat, nat, Bytes) {
    var first := HeaderNumber(payload);
    var second := HeaderNumber(first.1);
    (first.0 % TWO64, second.0 % TWO64, second.1)
  }

  function WithSource(source: nat, r: Result<seq<Change>, DeltaError>): Result<Delta, DeltaError> {
    match r
    case Err(e) => Err(e)
    case Ok(cs) => Ok(Delta(source, cs))
  }

  function ParsedDelta(payload: Bytes): Result<Delta, DeltaError> {
    if |payload| < MIN_DELTA_SIZE then Err(PayloadTooShort)
    else
      var h := Headers(payload);
      WithSource(h.0, Instructions(h.2, h.0, h.1, h.1))
  }

  /** The instructions parsed so far and those of the rest are the whole. */
  ghost predicate ParsedSoFar(whole: Result<seq<Change>, DeltaError>, changes: seq<Change>,
                              body: Bytes, source: nat, target: nat, left: int)
  {
    whole == Prepend(changes, Instructions(body, source, target, left))
  }

  /** What the next command means for the whole. */
  lemma AfterCommand(whole: Result<seq<Change>, DeltaError>, changes: seq<Change>,
                     body: Bytes, source: nat, target: nat, left: int)
    requires ParsedSoFar(whole, changes, body, source, target, left) && 0 < left <= target
    ensures body == [] ==> whole == Err(MissingCommand)
    ensures body != [] ==>
              match Command(body[0], body[1..], source, target)
              case Err(e) => whole == Err(e)
              case Ok(None) => whole == Ok(changes)
              case Ok(Some((c, rest))) =>
                |rest| < |body| &&
                ParsedSoFar(whole, changes + [c], rest, source, target, (left - SizeOf(c)) % TWO64)
  {
    if body != [] {
      var r := Command(body[0], body[1..], source, target);
      NothingBehind(changes);
      CommandConsumes(body[0], body[1..], source, target);
      if r.Ok? && r.value.Some? {
        var (c, rest) := r.value.value;
        PrependTwice(changes, [c], Instructions(rest, source, target, (left - SizeOf(c)) % TWO64));
      }
    }
  }

  method ParseDelta(payload: Bytes) returns (r: Result<Delta, DeltaError>)
    ensures r == ParsedDelta(payload)
  {
    if |payload| < MIN_DELTA_SIZE { return Err(PayloadTooShort); }
    var source, rest := DeltaHeaderSize(payload);
    var target, body := DeltaHeaderSize(rest);
    var left := target;
    var changes: seq<Change> := [];
    ghost var whole := Instructions(body, source, target, target);
    PrependNothing(whole);
    while 0 < left && left <= target
      invariant left < TWO64 && ParsedSoFar(whole, changes, body, source, target, left)
      decreases |body|
    {
      AfterCommand(whole, changes, body, source, target, left);
      if |body| == 0 { return Err(MissingCommand); }
      var cmd, payload' := body[0], body[1..];
      var one := ParseDeltaCommand(cmd, payload', source, target);
      if one.Err? { return Err(one.error); }
      if one.value.None? { return Ok(Delta(source, changes)); }
      var (change, rest') := one.value.value;
      changes := changes + [change];
      left := (left - SizeOf(change)) % TWO64;
      body := rest';
    }
    NothingBehind(changes);
    r := Ok(Delta(source, changes));
  }
}
