/** The pkt-line framing: packets with a length in hexadecimal, and the errors
    that a packet's content announces. */
module PktLine {
  import opened GitTypes
  import opened ByteText
  import opened Sequences

  const LENGTH_SIZE := 4
  const MAX_DATA_SIZE := 65516
  const MAX_SIZE := 65520

  // ----- writing

  /** `%04x`. */
  function LengthPrefix(n: nat): Bytes { Padded(Numeral(n, 16)) }

  function Padded(s: Bytes): (r: Bytes)
    ensures |r| >= 4
    decreases 4 - |s|
  {
    if |s| >= 4 then s else Padded([48] + s)
  }

  datatype Pack = PackLine(data: Bytes) | FlushPacket | DelimiterPacket | ResponseEndPacket

  datatype PacketError =
    | DataTooLarge
    | ReadFailed
    | BadLength
    | LengthTooLarge(length: nat)
    | Truncated
    | ServerError(severity: Severity, message: Bytes)
    | UnpackError(status: Bytes)
    | ReferenceError(refName: Bytes, reason: Bytes)

  datatype Severity = Err | Error | Fatal

  const FLUSH: Bytes := [48, 48, 48, 48]

  function Marshal(p: Pack): Result<Bytes, PacketError> {
    match p
    case PackLine(data) =>
      if |data| > MAX_DATA_SIZE then Result.Err(DataTooLarge) else Ok(LengthPrefix(|data| + 4) + data)
    case FlushPacket => Ok(FLUSH)
    case DelimiterPacket => Ok([48, 48, 48, 49])
    case ResponseEndPacket => Ok([48, 48, 48, 50])
  }

  /** The packets one after the other; the first that cannot be written is an error. */
  function Marshalled(packs: seq<Pack>): Result<Bytes, PacketError> {
    if packs == [] then Ok([]) else Joined(Marshal(packs[0]), Marshalled(packs[1..]))
  }

  function Joined(first: Result<Bytes, PacketError>, second: Result<Bytes, PacketError>): Result<Bytes, PacketError> {
    if first.Err? then first
    else if second.Err? then second
    else Ok(first.value + second.value)
  }

  lemma JoinedAssociates(a: Result<Bytes, PacketError>, b: Result<Bytes, PacketError>, c: Result<Bytes, PacketError>)
    ensures Joined(a, Joined(b, c)) == Joined(Joined(a, b), c)
  {
    if a.Ok? && b.Ok? && c.Ok? { assert a.value + (b.value + c.value) == (a.value + b.value) + c.value; }
  }

  /** The packets, and a flush packet if there was none among them. */
  function Formatted(packs: seq<Pack>): Result<Bytes, PacketError> {
    Marshalled(if FlushPacket in packs then packs else packs + [FlushPacket])
  }

  lemma {:induction false} MarshalledAppend(a: seq<Pack>, b: seq<Pack>)
    ensures Marshalled(a + b) == Joined(Marshalled(a), Marshalled(b))
  {
    if a == [] {
      assert a + b == b;
      if Marshalled(b).Ok? { assert [] + Marshalled(b).value == Marshalled(b).value; }
    } else {
      assert (a + b)[1..] == a[1..] + b;
      MarshalledAppend(a[1..], b);
      JoinedAssociates(Marshal(a[0]), Marshalled(a[1..]), Marshalled(b));
    }
  }

  lemma OnePacket(p: Pack)
    ensures Marshalled([p]) == Marshal(p)
  {
    assert [p][1..] == [] && Marshalled([]) == Ok([]);
    if Marshal(p).Ok? { assert Marshal(p).value + [] == Marshal(p).value; }
  }

  method FormatPacks(packs: seq<Pack>) returns (r: Result<Bytes, PacketError>)
    ensures r == Formatted(packs)
  {
    var written: Bytes, flushed := [], false;
    for i := 0 to |packs|
      invariant Marshalled(packs[..i]) == Ok(written)
      invariant flushed <==> FlushPacket in packs[..i]
    {
      TakeOneMore(packs, i);
      assert packs == packs[..i + 1] + packs[i + 1..];
      OnePacket(packs[i]);
      MarshalledAppend(packs[..i], [packs[i]]);
      var marshalled := Marshal(packs[i]);
      if marshalled.Err? {
        MarshalledAppend(packs[..i + 1], packs[i + 1..]);
        MarshalledAppend(packs, [FlushPacket]);
        return Result.Err(marshalled.error);
      }
      written := written + marshalled.value;
      if packs[i] == FlushPacket { flushed := true; }
    }
    TakeAll(packs);
    if !flushed {
      OnePacket(FlushPacket);
      MarshalledAppend(packs, [FlushPacket]);
      written := written + Marshal(FlushPacket).value;
    }
    r := Ok(written);
  }

  // ----- what a packet's content announces

  const ERR_PREFIX: Bytes := [69, 82, 82, 32]
  const ERROR_PREFIX: Bytes := [101, 114, 114, 111, 114, 58]
  const FATAL_PREFIX: Bytes := [102, 97, 116, 97, 108, 58]
  const NG_PREFIX: Bytes := [110, 103, 32]
  const UNPACK: Bytes := [117, 110, 112, 97, 99, 107]
  const UNPACK_PREFIX: Bytes := [117, 110, 112, 97, 99, 107, 32]
  const OK: Bytes := [111, 107]
  const UPDATE_FAILED: Bytes := [117, 112, 100, 97, 116, 101, 32, 102, 97, 105, 108, 101, 100]

  const LINE_END: set<byte> := {9, 10, 13, 32}

  predicate Contains(s: Bytes, p: Bytes) {
    HasPrefix(s, p) || (s != [] && Contains(s[1..], p))
  }

  /** `error:` or `fatal:`, directly or on side-band channel 3. */
  predicate IsErrorOrFatal(data: Bytes) {
    HasPrefix(data, ERROR_PREFIX) || HasPrefix(data, FATAL_PREFIX) ||
    (|data| > 1 && data[0] == 3 && (HasPrefix(data[1..], ERROR_PREFIX) || HasPrefix(data[1..], FATAL_PREFIX)))
  }

  function ErrorOrFatal(data: Bytes): PacketError
    requires IsErrorOrFatal(data)
  {
    var text := if HasPrefix(data, ERROR_PREFIX) || HasPrefix(data, FATAL_PREFIX) then data else data[1..];
    var message := text[6..];
    if Contains(message, UNPACK) then UnpackError(message)
    else ServerError(if HasPrefix(text, ERROR_PREFIX) then Error else Fatal, message)
  }

  function ReferenceFailure(data: Bytes): PacketError
    requires HasPrefix(data, NG_PREFIX)
  {
    var trimmed := TrimRight(data[3..], LINE_END);
    match Cut(trimmed, SPACE)
    case Some((refName, reason)) => ReferenceError(refName, reason)
    case None => ReferenceError(trimmed, UPDATE_FAILED)
  }

  function DetectError(data: Bytes): Option<PacketError> {
    if HasPrefix(data, ERR_PREFIX) then Some(ServerError(Severity.Err, data[4..]))
    else if IsErrorOrFatal(data) then Some(ErrorOrFatal(data))
    else if HasPrefix(data, NG_PREFIX) then Some(ReferenceFailure(data))
    else if HasPrefix(data, UNPACK_PREFIX) then
      if TrimRight(data[7..], LINE_END) == OK then None else Some(UnpackError(data[7..]))
    else None
  }

  // ----- reading

  /** What a reader still has to give, and whether it ends in a failure. */
  datatype Source = Source(bytes: Bytes, broken: bool)

  datatype Outcome = Line(data: Bytes) | EndOfStream | Failed(error: PacketError)

  /** What a data packet amounts to: a line, unless it announces an error. */
  function Content(data: Bytes): Outcome {
    match DetectError(data)
    case Some(e) => Failed(e)
    case None => Line(data)
  }

  /** The next packet with content, and the source behind it. Special and empty
      packets are passed over, except the two that end the stream. */
  function NextPacket(s: Source): (r: (Outcome, Source))
    ensures |r.1.bytes| <= |s.bytes| && r.1.broken == s.broken && (r.0.Line? ==> |r.1.bytes| < |s.bytes|)
    decreases |s.bytes|
  {
    if |s.bytes| < LENGTH_SIZE then (if s.broken then Failed(ReadFailed) else EndOfStream, Source([], s.broken))
    else
      var rest := s.bytes[LENGTH_SIZE..];
      match ParseUnsigned(s.bytes[..LENGTH_SIZE], 16, 0x1_0000)
      case None => (Failed(BadLength), Source(rest, s.broken))
      case Some(length) =>
        if length == 0 || length == 2 then (EndOfStream, Source(rest, s.broken))
        else if length > MAX_SIZE then (Failed(LengthTooLarge(length)), Source(rest, s.broken))
        else if length <= LENGTH_SIZE then NextPacket(Source(rest, s.broken))
        else if |rest| < length - LENGTH_SIZE
          then (Failed(if s.broken then ReadFailed else Truncated), Source([], s.broken))
        else
          var data := rest[..length - LENGTH_SIZE];
          (Content(data), Source(rest[length - LENGTH_SIZE..], s.broken))
  }

  class Parser {
    var source: Source

    constructor (s: Source)
      ensures source == s
    {
      source := s;
    }

    /** Reads as many bytes as are wanted, or what is left. */
    method ReadFull(n: nat) returns (r: Result<Bytes, Bytes>)
      modifies this
      ensures n <= |old(source).bytes| ==>
                r == Ok(old(source).bytes[..n]) && source == old(source).(bytes := old(source).bytes[n..])
      ensures n > |old(source).bytes| ==> r == Result.Err(old(source).bytes) && source == old(source).(bytes := [])
    {
      if n <= |source.bytes| {
        r, source := Ok(source.bytes[..n]), source.(bytes := source.bytes[n..]);
      } else {
        r, source := Result.Err(source.bytes), source.(bytes := []);
      }
    }

    method Next() returns (r: Outcome)
      modifies this
      ensures (r, source) == NextPacket(old(source))
    {
      while true
        invariant NextPacket(source) == NextPacket(old(source))
        decreases |source.bytes|
      {
        var head := ReadFull(LENGTH_SIZE);
        if head.Err? {
          return if source.broken then Failed(ReadFailed) else EndOfStream;
        }
        var length := ParseUnsigned(head.value, 16, 0x1_0000);
        if length.None? { return Failed(BadLength); }
        if length.value == 0 { return EndOfStream; }
        if length.value > MAX_SIZE { return Failed(LengthTooLarge(length.value)); }
        if length.value < LENGTH_SIZE {
          if length.value == 2 { return EndOfStream; }
        } else if length.value > LENGTH_SIZE {
          var data := ReadFull(length.value - LENGTH_SIZE);
          if data.Err? { return Failed(if source.broken then ReadFailed else Truncated); }
          return Content(data.value);
        }
      }
    }
  }

  /** All lines up to the end or the first failure. */
  function AllPackets(s: Source): (seq<Bytes>, Outcome)
    decreases |s.bytes|
  {
    var (r, rest) := NextPacket(s);
    match r
    case Line(data) => var (lines, end) := AllPackets(rest); ([data] + lines, end)
    case _ => ([], r)
  }

  /** The lines read so far and those still to come, across one more line. */
  lemma OneMorePacket(seen: seq<Bytes>, s: Source)
    requires NextPacket(s).0.Line?
    ensures var (line, rest) := NextPacket(s);
            seen + AllPackets(s).0 == (seen + [line.data]) + AllPackets(rest).0 && AllPackets(s).1 == AllPackets(rest).1
  {
    var (line, rest) := NextPacket(s);
    assert seen + ([line.data] + AllPackets(rest).0) == (seen + [line.data]) + AllPackets(rest).0;
  }

  // ----- reading undoes writing

  lemma {:induction false} PaddedValue(s: Bytes, base: nat)
    requires s != [] && NumeralValue(s, base).Some? && base > 0
    ensures NumeralValue(Padded(s), base) == NumeralValue(s, base)
    ensures |s| <= 4 ==> |Padded(s)| == 4
    decreases 4 - |s|
  {
    if |s| < 4 {
      ZeroInFront(s, base);
      PaddedValue([48] + s, base);
    }
  }

  lemma {:induction false} ZeroInFront(s: Bytes, base: nat)
    requires NumeralValue(s, base).Some? && base > 0
    ensures NumeralValue([48] + s, base) == NumeralValue(s, base)
  {
    var t := [48] + s;
    if s == [] {
      assert t == [48] && t[..0] == [];
      assert NumeralValue([], base) == Some(0);
    } else {
      assert t[..|t| - 1] == [48] + s[..|s| - 1];
      ZeroInFront(s[..|s| - 1], base);
    }
  }

  function Power(base: nat, k: nat): nat { if k == 0 then 1 else base * Power(base, k - 1) }

  lemma QuotientBelow(n: nat, base: nat, p: nat)
    requires base > 0 && n < base * p
    ensures n / base < p
  {
    if n / base >= p {
      assert base * (n / base) >= base * p by { Monotone(base, p, n / base); }
      assert false;
    }
  }

  lemma Monotone(base: nat, p: nat, q: nat)
    requires p <= q
    ensures base * p <= base * q
  {
  }

  /** A number below a power of the base has at most that many digits. */
  lemma {:induction false} NumeralLength(n: nat, base: nat, k: nat)
    requires 2 <= base <= 16 && n < Power(base, k) && k > 0
    ensures |Numeral(n, base)| <= k
    decreases k
  {
    if n >= base {
      Divided(n, base);
      QuotientBelow(n, base, Power(base, k - 1));
      if k > 1 { NumeralLength(n / base, base, k - 1); }
    }
  }

  lemma PrefixRoundTrip(n: nat)
    requires n < 0x1_0000
    ensures |LengthPrefix(n)| == LENGTH_SIZE
    ensures ParseUnsigned(LengthPrefix(n), 16, 0x1_0000) == Some(n)
  {
    var base, k := 16, 4;
    SixteenToFour(base);
    NumeralLength(n, base, k);
    NumeralRoundTrip(n, base);
    PaddedValue(Numeral(n, base), base);
  }

  lemma SixteenToFour(base: nat)
    requires base == 16
    ensures Power(base, 4) == 0x1_0000
  {
    assert Power(base, 1) == 16;
    assert Power(base, 2) == 256;
    assert Power(base, 3) == 4096;
  }

  /** What a list of data packets delivers: empty ones are passed over, and the first
      that announces an error ends the list. */
  function Delivered(lines: seq<Bytes>): (seq<Bytes>, Outcome) {
    if lines == [] then ([], EndOfStream)
    else if lines[0] == [] then Delivered(lines[1..])
    else match DetectError(lines[0])
         case Some(e) => ([], Failed(e))
         case None => var (rest, end) := Delivered(lines[1..]); ([lines[0]] + rest, end)
  }

  /** What packets of any kind deliver: delimiters are passed over too, and a flush or a
      response end is the end. */
  function Told(packs: seq<Pack>): (seq<Bytes>, Outcome) {
    if packs == [] then ([], EndOfStream)
    else match packs[0]
         case FlushPacket => ([], EndOfStream)
         case ResponseEndPacket => ([], EndOfStream)
         case DelimiterPacket => Told(packs[1..])
         case PackLine(data) =>
           if data == [] then Told(packs[1..])
           else match DetectError(data)
                case Some(e) => ([], Failed(e))
                case None => var (rest, end) := Told(packs[1..]); ([data] + rest, end)
  }

  function PackLines(lines: seq<Bytes>): seq<Pack> {
    if lines == [] then [] else [PackLine(lines[0])] + PackLines(lines[1..])
  }

  predicate Fits(line: Bytes) { |line| <= MAX_DATA_SIZE }

  lemma PacketAtFront(line: Bytes, rest: Bytes, broken: bool)
    requires Fits(line)
    ensures NextPacket(Source(LengthPrefix(|line| + 4) + line + rest, broken)) ==
            if line == [] then NextPacket(Source(rest, broken))
            else (Content(line), Source(rest, broken))
  {
    var prefix := LengthPrefix(|line| + 4);
    var bytes := prefix + line + rest;
    PrefixRoundTrip(|line| + 4);
    assert bytes[..LENGTH_SIZE] == prefix && bytes[LENGTH_SIZE..] == line + rest;
    assert (line + rest)[..|line|] == line && (line + rest)[|line|..] == rest;
  }

  /** What every length of four digits means. */
  lemma EveryLength(n: nat, rest: Bytes, broken: bool)
    requires n < 0x1_0000
    ensures var behind := Source(rest, broken);
            NextPacket(Source(LengthPrefix(n) + rest, broken)) ==
            if n == 0 || n == 2 then (EndOfStream, behind)
            else if n <= 4 then NextPacket(behind)
            else if n > 65520 then (Failed(LengthTooLarge(n)), behind)
            else if |rest| < n - 4 then (Failed(if broken then ReadFailed else Truncated), Source([], broken))
            else (Content(rest[..n - 4]), Source(rest[n - 4..], broken))
  {
    var prefix := LengthPrefix(n);
    PrefixRoundTrip(n);
    assert (prefix + rest)[..LENGTH_SIZE] == prefix && (prefix + rest)[LENGTH_SIZE..] == rest;
  }

  lemma FlushAtFront(rest: Bytes, broken: bool)
    ensures NextPacket(Source(FLUSH + rest, broken)) == (EndOfStream, Source(rest, broken))
  {
    var bytes := FLUSH + rest;
    var base := 16;
    assert bytes[..4] == FLUSH && bytes[4..] == rest;
    ZeroText(base);
  }

  lemma ZeroText(base: nat)
    requires base > 0
    ensures NumeralValue(FLUSH, base) == Some(0)
  {
    assert NumeralValue([], base) == Some(0);
    ZeroInFront([], base);
    assert [48] + [] == [48];
    ThreeZeros(48, base);
  }

  lemma ThreeZeros(digit: byte, base: nat)
    requires base > 0 && NumeralValue([digit], base).Some?
    ensures NumeralValue([48, 48, 48, digit], base) == NumeralValue([digit], base)
  {
    ZeroInFront([digit], base);
    assert [48] + [digit] == [48, digit];
    ZeroInFront([48, digit], base);
    assert [48] + [48, digit] == [48, 48, digit];
    ZeroInFront([48, 48, digit], base);
    assert [48] + [48, 48, digit] == [48, 48, 48, digit];
  }

  /** A delimiter packet is passed over. */
  lemma DelimiterAtFront(rest: Bytes, broken: bool)
    ensures NextPacket(Source([48, 48, 48, 49] + rest, broken)) == NextPacket(Source(rest, broken))
  {
    var bytes: Bytes := [48, 48, 48, 49] + rest;
    var base := 16;
    assert bytes[..4] == [48, 48, 48, 49] && bytes[4..] == rest;
    assert NumeralValue([], base) == Some(0) && [49][..0] == [];
    ThreeZeros(49, base);
  }

  /** A response-end packet ends the stream like a flush. */
  lemma ResponseEndAtFront(rest: Bytes, broken: bool)
    ensures NextPacket(Source([48, 48, 48, 50] + rest, broken)) == (EndOfStream, Source(rest, broken))
  {
    var bytes: Bytes := [48, 48, 48, 50] + rest;
    var base := 16;
    assert bytes[..4] == [48, 48, 48, 50] && bytes[4..] == rest;
    assert NumeralValue([], base) == Some(0) && [50][..0] == [];
    ThreeZeros(50, base);
  }

  predicate PacksFit(packs: seq<Pack>) { forall p :: p in packs && p.PackLine? ==> Fits(p.data) }

  lemma {:induction false} PacksMarshal(packs: seq<Pack>)
    requires PacksFit(packs)
    ensures Marshalled(packs).Ok?
  {
    if packs != [] {
      assert packs[0] in packs;
      PacksMarshal(packs[1..]);
    }
  }

  /** What reading starts with when a written packet is in front. */
  function InFront(p: Pack, rest: Source): (Outcome, Source) {
    match p
    case PackLine(data) => if data == [] then NextPacket(rest) else (Content(data), rest)
    case FlushPacket => (EndOfStream, rest)
    case DelimiterPacket => NextPacket(rest)
    case ResponseEndPacket => (EndOfStream, rest)
  }

  lemma PackAtFront(p: Pack, rest: Bytes, broken: bool)
    requires p.PackLine? ==> Fits(p.data)
    ensures Marshal(p).Ok? && NextPacket(Source(Marshal(p).value + rest, broken)) == InFront(p, Source(rest, broken))
  {
    match p
    case PackLine(data) => PacketAtFront(data, rest, broken);
    case FlushPacket => FlushAtFront(rest, broken);
    case DelimiterPacket => DelimiterAtFront(rest, broken);
    case ResponseEndPacket => ResponseEndAtFront(rest, broken);
  }

  /** What is read depends on the next packet and what comes after it only. */
  lemma SameNext(a: Source, b: Source)
    requires NextPacket(a) == NextPacket(b)
    ensures AllPackets(a) == AllPackets(b)
  {
  }

  lemma NextLine(s: Source, data: Bytes, rest: Source)
    requires NextPacket(s) == (Content(data), rest)
    ensures AllPackets(s) == match DetectError(data)
                             case Some(e) => ([], Failed(e))
                             case None => ([data] + AllPackets(rest).0, AllPackets(rest).1)
  {
  }

  /** Packets deliver what they tell, if the stream ends among them or behind them. */
  lemma {:induction false} PacksDeliver(packs: seq<Pack>, rest: Bytes)
    requires PacksFit(packs) && Marshalled(packs).Ok?
    requires FlushPacket in packs || NextPacket(Source(rest, false)).0 == EndOfStream
    ensures AllPackets(Source(Marshalled(packs).value + rest, false)) == Told(packs)
  {
    if packs == [] {
      NothingInFront(rest);
    } else {
      assert packs[0] in packs;
      var p, more := packs[0], Marshalled(packs[1..]).value + rest;
      AppendAssociates(Marshal(p).value, Marshalled(packs[1..]).value, rest);
      PackAtFront(p, more, false);
      var all, after := Source(Marshal(p).value + more, false), Source(more, false);
      if p != FlushPacket && p != ResponseEndPacket { PacksDeliver(packs[1..], rest); }
      if p.PackLine? && p.data != [] {
        NextLine(all, p.data, after);
      } else if p == DelimiterPacket || p.PackLine? {
        SameNext(all, after);
      }
    }
  }

  /** A flush packet behind the others changes nothing. */
  lemma {:induction false} FlushBehind(packs: seq<Pack>)
    ensures Told(packs + [FlushPacket]) == Told(packs)
  {
    if packs != [] {
      assert (packs + [FlushPacket])[0] == packs[0] && (packs + [FlushPacket])[1..] == packs[1..] + [FlushPacket];
      FlushBehind(packs[1..]);
    }
  }

  /** Whatever packets are written, reading delivers what they tell. */
  lemma AllKindsRoundTrip(packs: seq<Pack>, rest: Bytes)
    requires PacksFit(packs)
    ensures Formatted(packs).Ok?
    ensures AllPackets(Source(Formatted(packs).value + rest, false)) == Told(packs)
  {
    var written := if FlushPacket in packs then packs else packs + [FlushPacket];
    PacksMarshal(written);
    PacksDeliver(written, rest);
    FlushBehind(packs);
  }

  /** Data packets followed by a flush packet parse back to what they deliver. */
  lemma PacketsRoundTrip(lines: seq<Bytes>, rest: Bytes)
    requires forall l :: l in lines ==> Fits(l)
    ensures Formatted(PackLines(lines)).Ok?
    ensures AllPackets(Source(Formatted(PackLines(lines)).value + rest, false)) == Delivered(lines)
  {
    LinesTell(lines);
    AllKindsRoundTrip(PackLines(lines), rest);
  }

  lemma {:induction false} LinesTell(lines: seq<Bytes>)
    requires forall l :: l in lines ==> Fits(l)
    ensures PacksFit(PackLines(lines)) && Told(PackLines(lines)) == Delivered(lines)
  {
    if lines != [] {
      assert Fits(lines[0]);
      LinesTell(lines[1..]);
      assert PackLines(lines)[1..] == PackLines(lines[1..]);
    }
  }

  /** A packet that starts with the four bytes of `ERR ` fails the read with what is
      behind them, whatever was delivered before it and whatever comes after it. */
  lemma {:induction false} ErrPacketFails(before: seq<Bytes>, message: Bytes, after: seq<Bytes>, rest: Bytes)
    requires forall l :: l in before ==> l != [] && DetectError(l).None?
    requires forall l :: l in before + [[69, 82, 82, 32] + message] + after ==> Fits(l)
    ensures var lines := before + [[69, 82, 82, 32] + message] + after;
            Formatted(PackLines(lines)).Ok? &&
            AllPackets(Source(Formatted(PackLines(lines)).value + rest, false)) ==
              (before, Failed(ServerError(Severity.Err, message)))
  {
    var packet: Bytes := [69, 82, 82, 32] + message;
    assert packet[..4] == [69, 82, 82, 32] && packet[4..] == message;
    PacketsRoundTrip(before + [packet] + after, rest);
    ErrDelivered(before, packet, after);
  }

  lemma {:induction false} ErrDelivered(before: seq<Bytes>, packet: Bytes, after: seq<Bytes>)
    requires forall l :: l in before ==> l != [] && DetectError(l).None?
    requires packet != [] && DetectError(packet).Some?
    ensures Delivered(before + [packet] + after) == (before, Failed(DetectError(packet).value))
  {
    var lines := before + [packet] + after;
    if before == [] {
      assert lines[0] == packet;
    } else {
      assert before[0] in before && lines[0] == before[0] && lines[1..] == before[1..] + [packet] + after;
      forall l | l in before[1..] ensures l != [] && DetectError(l).None? {
        assert l in before;
      }
      ErrDelivered(before[1..], packet, after);
      assert before == [before[0]] + before[1..];
    }
  }

  /** One line as a packet, and a flush packet. */
  function LineAndFlush(line: Bytes): Bytes { LengthPrefix(|line| + 4) + line + FLUSH }

  /** A receiver reads the line, then the end, and is left right before what follows. */
  lemma LineAndFlushParse(line: Bytes, rest: Bytes)
    requires line != [] && Fits(line) && DetectError(line).None?
    ensures var (first, after) := NextPacket(Source(LineAndFlush(line) + rest, false));
            first == Line(line) && NextPacket(after) == (EndOfStream, Source(rest, false))
  {
    AppendAssociates(LengthPrefix(|line| + 4) + line, FLUSH, rest);
    PacketAtFront(line, FLUSH + rest, false);
    FlushAtFront(rest, false);
  }
}
