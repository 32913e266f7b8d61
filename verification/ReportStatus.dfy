/** Reading the answer to a push: the report-status verdict, bare or multiplexed. */
module ReportStatus {
  import opened GitTypes
  import opened ByteText
  import opened Sequences
  import opened PktLine

  const PROGRESS_LIMIT := 65536

  function Concat(parts: seq<Bytes>): Bytes {
    if parts == [] then [] else parts[0] + Concat(parts[1..])
  }

  lemma {:induction false} ConcatAppend(parts: seq<Bytes>, last: Bytes)
    ensures Concat(parts + [last]) == Concat(parts) + last
  {
    if parts == [] {
      assert Concat([last]) == last + Concat([]) by { assert [last][1..] == []; }
      assert parts + [last] == [last];
    } else {
      assert (parts + [last])[1..] == parts[1..] + [last];
      ConcatAppend(parts[1..], last);
    }
  }

  /** The part of a byte stream that fits below the limit. */
  function Take(s: Bytes, limit: nat): Bytes { if |s| <= limit then s else s[..limit] }

  lemma TakeOfTake(s: Bytes, more: Bytes, limit: nat)
    ensures Take(Take(s, limit) + more, limit) == Take(s + more, limit)
  {
  }

  // ----- remote messages

  class RemoteProgressBuffer {
    var payloads: seq<Bytes>
    var used: nat

    ghost predicate Valid()
      reads this
    {
      used == |Concat(payloads)| <= PROGRESS_LIMIT
    }

    constructor ()
      ensures Valid() && Concat(payloads) == []
    {
      payloads, used := [], 0;
    }

    /** Keeps the payload as far as the budget goes. */
    method Append(payload: Bytes)
      requires Valid()
      modifies this
      ensures Valid() && Concat(payloads) == Take(old(Concat(payloads)) + payload, PROGRESS_LIMIT)
    {
      if |payload| == 0 || used >= PROGRESS_LIMIT {
        assert |payload| == 0 ==> Concat(payloads) + payload == Concat(payloads);
        return;
      }
      var remain := PROGRESS_LIMIT - used;
      if |payload| > remain {
        ConcatAppend(payloads, payload[..remain]);
        payloads := payloads + [payload[..remain]];
        used := PROGRESS_LIMIT;
        return;
      }
      ConcatAppend(payloads, payload);
      payloads := payloads + [payload];
      used := used + |payload|;
    }
  }

  predicate LineBreak(c: byte) { c == 10 || c == 13 }

  /** The pieces between line breaks, empty ones included. */
  function Pieces(s: Bytes): (r: seq<Bytes>)
    ensures r != []
  {
    if s == [] then [[]]
    else
      var rest := Pieces(s[1..]);
      if LineBreak(s[0]) then [[]] + rest else [[s[0]] + rest[0]] + rest[1..]
  }

  /** The piece without trailing blanks, unless nothing but blanks is left. */
  function Message(piece: Bytes): seq<Bytes> {
    var kept := TrimRight(piece, LINE_END);
    if TrimSpace(kept) == [] then [] else [kept]
  }

  function FlatMap<A, B>(f: A -> seq<B>, s: seq<A>): seq<B> {
    if s == [] then [] else f(s[0]) + FlatMap(f, s[1..])
  }

  lemma {:induction false} FlatMapAppend<A, B>(f: A -> seq<B>, s: seq<A>, last: A)
    ensures FlatMap(f, s + [last]) == FlatMap(f, s) + f(last)
  {
    if s == [] {
      assert s + [last] == [last] && [last][1..] == [];
    } else {
      assert (s + [last])[1..] == s[1..] + [last];
      FlatMapAppend(f, s[1..], last);
      assert f(s[0]) + (FlatMap(f, s[1..]) + f(last)) == (f(s[0]) + FlatMap(f, s[1..])) + f(last);
    }
  }

  /** The messages of a progress stream. */
  function Messages(s: Bytes): seq<Bytes> { FlatMap(Message, Pieces(s)) }

  method DecodeRemoteProgress(packets: seq<Bytes>) returns (messages: seq<Bytes>)
    ensures messages == Messages(Concat(packets))
  {
    var stream: Bytes := [];
    for i := 0 to |packets|
      invariant stream == Concat(packets[..i])
    {
      TakeOneMore(packets, i);
      ConcatAppend(packets[..i], packets[i]);
      stream := stream + packets[i];
    }
    TakeAll(packets);
    var pieces := Pieces(stream);
    messages := [];
    for i := 0 to |pieces|
      invariant messages == FlatMap(Message, pieces[..i])
    {
      TakeOneMore(pieces, i);
      FlatMapAppend(Message, pieces[..i], pieces[i]);
      messages := messages + Message(pieces[i]);
    }
    TakeAll(pieces);
  }

  // ----- the report inside channel 1

  const UNPACK_OK: Bytes := [117, 110, 112, 97, 99, 107, 32, 111, 107]

  predicate IsUnpackOk(line: Bytes) { TrimRight(line, LINE_END) == UNPACK_OK }

  predicate AnyUnpackOk(lines: seq<Bytes>) {
    lines != [] && (IsUnpackOk(lines[0]) || AnyUnpackOk(lines[1..]))
  }

  /** Four hexadecimal digits in front. */
  predicate LooksLikePktLine(s: Bytes) {
    |s| >= 4 && DigitValue(s[0]).Some? && DigitValue(s[1]).Some? && DigitValue(s[2]).Some? && DigitValue(s[3]).Some?
  }

  /** The stream as pkt-lines: whether one says "unpack ok", or the first error. */
  function NestedScan(stream: Bytes): Result<bool, PacketError> {
    var (lines, end) := AllPackets(Source(stream, false));
    if end.Failed? then Result.Err(end.error) else Ok(AnyUnpackOk(lines))
  }

  const RAW_BLANKS: set<byte> := {9, 13, 32}

  /** The stream as plain lines. */
  function RawScan(lines: seq<Bytes>): Result<bool, PacketError> {
    if lines == [] then Ok(false)
    else
      var line := TrimRight(lines[0], RAW_BLANKS);
      if line == [] then RawScan(lines[1..])
      else match RawLine(line)
           case Err(e) => Result.Err(e)
           case Ok(saw) => Either(saw, RawScan(lines[1..]))
  }

  function RawLine(line: Bytes): Result<bool, PacketError> {
    if |line| > MAX_DATA_SIZE then Result.Err(DataTooLarge)
    else match DetectError(line)
         case Some(e) => Result.Err(e)
         case None => Ok(IsUnpackOk(line))
  }

  function Either(saw: bool, r: Result<bool, PacketError>): Result<bool, PacketError> {
    match r
    case Err(e) => Result.Err(e)
    case Ok(b) => Ok(saw || b)
  }

  function ReportIn(stream: Bytes): Result<bool, PacketError> {
    if stream == [] then Ok(false)
    else if LooksLikePktLine(stream) then NestedScan(stream)
    else RawScan(Lines(stream))
  }

  lemma {:induction false} AnyOkAppend(lines: seq<Bytes>, last: Bytes)
    ensures AnyUnpackOk(lines + [last]) <==> AnyUnpackOk(lines) || IsUnpackOk(last)
  {
    if lines == [] {
      assert lines + [last] == [last];
    } else {
      assert (lines + [last])[1..] == lines[1..] + [last];
      AnyOkAppend(lines[1..], last);
    }
  }

  method ScanNestedPktLineStream(payload: Bytes) returns (r: Result<bool, PacketError>)
    ensures r == NestedScan(payload)
  {
    var inner := new Parser(Source(payload, false));
    var sawUnpackOk := false;
    ghost var seen: seq<Bytes> := [];
    while true
      invariant !inner.source.broken && sawUnpackOk == AnyUnpackOk(seen)
      invariant AllPackets(Source(payload, false)).0 == seen + AllPackets(inner.source).0
      invariant AllPackets(Source(payload, false)).1 == AllPackets(inner.source).1
      decreases |inner.source.bytes|
    {
      ghost var was := inner.source;
      var next := inner.Next();
      match next
      case Line(line) =>
        OneMorePacket(seen, was);
        AnyOkAppend(seen, line);
        seen := seen + [line];
        if IsUnpackOk(line) { sawUnpackOk := true; }
      case EndOfStream =>
        assert seen + [] == seen;
        return Ok(sawUnpackOk);
      case Failed(e) => return Result.Err(e);
    }
  }

  lemma EitherTwice(a: bool, b: bool, r: Result<bool, PacketError>)
    ensures Either(a, Either(b, r)) == Either(a || b, r)
  {
  }

  /** One raw line, wrapped as a packet of its own and parsed. */
  lemma WrappedLine(line: Bytes)
    requires line != [] && |line| <= MAX_DATA_SIZE
    ensures NextPacket(Source(LengthPrefix(|line| + 4) + line, false)).0 ==
            Content(line)
  {
    PacketAtFront(line, [], false);
    assert LengthPrefix(|line| + 4) + line + [] == LengthPrefix(|line| + 4) + line;
  }

  /** Wraps one line as a packet and lets the parser look at it. */
  method ScanRawLine(line: Bytes) returns (r: Result<bool, PacketError>)
    requires line != []
    ensures r == RawLine(line)
  {
    var packet := Marshal(PackLine(line));
    if packet.Err? { return Result.Err(packet.error); }
    WrappedLine(line);
    var inner := new Parser(Source(packet.value, false));
    var parsed := inner.Next();
    if parsed.Failed? { return Result.Err(parsed.error); }
    r := Ok(parsed.Line? && IsUnpackOk(parsed.data));
  }

  method ScanRawReportStatusStream(payload: Bytes) returns (r: Result<bool, PacketError>)
    ensures r == RawScan(Lines(payload))
  {
    var lines, sawUnpackOk := Lines(payload), false;
    assert lines[0..] == lines;
    for i := 0 to |lines|
      invariant RawScan(lines) == Either(sawUnpackOk, RawScan(lines[i..]))
    {
      assert lines[i..][0] == lines[i] && lines[i..][1..] == lines[i + 1..];
      var line := TrimRight(lines[i], RAW_BLANKS);
      if |line| > 0 {
        var scanned := ScanRawLine(line);
        if scanned.Err? { return scanned; }
        EitherTwice(sawUnpackOk, scanned.value, RawScan(lines[i + 1..]));
        if scanned.value { sawUnpackOk := true; }
      }
    }
    r := Ok(sawUnpackOk);
  }

  /** Detects the encoding from the first four bytes, however they are split over
      packets, and scans the joined stream accordingly. */
  method ScanSideBandReportStatus(packets: seq<Bytes>) returns (r: Result<bool, PacketError>)
    ensures r == ReportIn(Concat(packets))
  {
    var prefix: Bytes, joined: Bytes := [], [];
    for i := 0 to |packets|
      invariant joined == Concat(packets[..i]) && prefix == Take(joined, 4)
    {
      TakeOneMore(packets, i);
      ConcatAppend(packets[..i], packets[i]);
      TakeOfTake(joined, packets[i], 4);
      if |prefix| < 4 {
        var need := 4 - |prefix|;
        prefix := prefix + if |packets[i]| < need then packets[i] else packets[i][..need];
      }
      joined := joined + packets[i];
    }
    TakeAll(packets);
    if |prefix| == 0 { return Ok(false); }
    if LooksLikePktLine(prefix) {
      r := ScanNestedPktLineStream(joined);
    } else {
      r := ScanRawReportStatusStream(joined);
    }
  }

  // ----- the whole response

  datatype ReportError = Protocol(error: PacketError) | MissingReportStatus

  datatype Verdict = Accepted | Rejected(error: ReportError, messages: seq<Bytes>)

  /** What the packets read so far amount to. */
  datatype Scan = Scan(sawUnpackOk: bool, sawContent: bool, channel1: Bytes, channel2: Bytes)

  /** What one packet adds; a message on channel 3 is fatal. */
  function ScanLine(st: Scan, line: Bytes): Result<Scan, PacketError> {
    if line == [] then Ok(st)
    else if line[0] == 2 then Ok(st.(channel2 := st.channel2 + line[1..]))
    else if line[0] == 3 then
      if |line| == 1 then Ok(st) else Result.Err(ServerError(Fatal, line[1..]))
    else if line[0] == 1 then
      Ok(st.(channel1 := st.channel1 + line[1..], sawContent := st.sawContent || |line| > 1))
    else Ok(st.(sawUnpackOk := st.sawUnpackOk || IsUnpackOk(line), sawContent := true))
  }

  function ScanLines(st: Scan, lines: seq<Bytes>, end: Outcome): (Scan, Option<PacketError>)
    decreases lines
  {
    if lines == [] then (st, if end.Failed? then Some(end.error) else None)
    else match ScanLine(st, lines[0])
         case Err(e) => (st, Some(e))
         case Ok(next) => ScanLines(next, lines[1..], end)
  }

  const NOTHING := Scan(false, false, [], [])

  function Conclude(st: Scan, error: Option<PacketError>): Verdict {
    var messages := Messages(Take(st.channel2, PROGRESS_LIMIT));
    if error.Some? then Rejected(Protocol(error.value), messages)
    else match ReportIn(st.channel1)
         case Err(e) => Rejected(Protocol(e), messages)
         case Ok(saw) =>
           if !st.sawUnpackOk && !saw && st.sawContent then Rejected(MissingReportStatus, messages) else Accepted
  }

  function ResponseVerdict(body: Source): Verdict {
    var (lines, end) := AllPackets(body);
    var (st, error) := ScanLines(NOTHING, lines, end);
    Conclude(st, error)
  }

  /** Sorts one packet into progress, channel 1 or the bare report. */
  method ClassifyReceivePackLine(line: Bytes, sideBandPackets: seq<Bytes>, progress: RemoteProgressBuffer)
    returns (sawUnpackOk: bool, sawContent: bool, packets: seq<Bytes>, error: Option<PacketError>)
    requires progress.Valid()
    modifies progress
    ensures progress.Valid()
    ensures var st := Scan(false, false, Concat(sideBandPackets), []);
            match ScanLine(st, line)
            case Err(e) => error == Some(e) && Concat(progress.payloads) == old(Concat(progress.payloads))
            case Ok(next) =>
              error.None? && sawUnpackOk == next.sawUnpackOk && sawContent == next.sawContent &&
              Concat(packets) == next.channel1 &&
              Concat(progress.payloads) == Take(old(Concat(progress.payloads)) + next.channel2, PROGRESS_LIMIT)
    ensures |line| > 1 && line[0] == 3 ==> error == Some(ServerError(Fatal, line[1..]))
  {
    sawUnpackOk, sawContent, packets, error := false, false, sideBandPackets, None;
    assert Concat(progress.payloads) + [] == Concat(progress.payloads);
    if |line| == 0 { return; }
    if line[0] == 2 {
      assert [] + line[1..] == line[1..];
      progress.Append(line[1..]);
    } else if line[0] == 3 {
      if |line| > 1 { error := Some(ServerError(Fatal, line[1..])); }
    } else if line[0] == 1 {
      ConcatAppend(sideBandPackets, line[1..]);
      packets, sawContent := sideBandPackets + [line[1..]], |line| > 1;
    } else {
      sawUnpackOk, sawContent := IsUnpackOk(line), true;
    }
  }

  /** The scan so far, as the loop holds it: progress only as far as it is kept. */
  ghost predicate Holds(st: Scan, sawUnpackOk: bool, sawContent: bool, packets: seq<Bytes>, progress: Bytes) {
    st.sawUnpackOk == sawUnpackOk && st.sawContent == sawContent && st.channel1 == Concat(packets) &&
    progress == Take(st.channel2, PROGRESS_LIMIT)
  }

  lemma ScanLineAdds(st: Scan, line: Bytes)
    ensures var alone := ScanLine(Scan(false, false, st.channel1, []), line);
            match ScanLine(st, line)
            case Err(e) => alone == Result.Err(e)
            case Ok(next) =>
              alone.Ok? && next.channel1 == alone.value.channel1 &&
                next.channel2 == st.channel2 + alone.value.channel2 &&
              next.sawUnpackOk == (st.sawUnpackOk || alone.value.sawUnpackOk) &&
              next.sawContent == (st.sawContent || alone.value.sawContent)
  {
    assert st.channel2 + [] == st.channel2;
    if line != [] { assert [] + line[1..] == line[1..]; }
  }

  /** A rejection with the messages that came along. */
  method Reject(error: ReportError, progress: RemoteProgressBuffer) returns (r: Verdict)
    ensures r == Rejected(error, Messages(Concat(progress.payloads)))
  {
    var messages := DecodeRemoteProgress(progress.payloads);
    r := Rejected(error, messages);
  }

  /** The verdict once all packets have been read. */
  method ConcludeResponse(unpackOk: bool, sawContent: bool, sideBandPackets: seq<Bytes>,
                          progress: RemoteProgressBuffer, ghost st: Scan)
    returns (r: Verdict)
    requires Holds(st, unpackOk, sawContent, sideBandPackets, Concat(progress.payloads))
    ensures r == Conclude(st, None)
  {
    var sawUnpackOk := unpackOk;
    if |sideBandPackets| > 0 {
      var scanned := ScanSideBandReportStatus(sideBandPackets);
      if scanned.Err? {
        r := Reject(Protocol(scanned.error), progress);
        return;
      }
      if scanned.value { sawUnpackOk := true; }
    }
    if !sawUnpackOk && sawContent {
      r := Reject(MissingReportStatus, progress);
      return;
    }
    r := Accepted;
  }

  /** One more line of the scan, as the loop holds it. */
  lemma HoldsOneMore(st: Scan, line: Bytes, sawUnpackOk: bool, sawContent: bool, packets: seq<Bytes>, progress: Bytes,
                     ok: bool, content: bool, packets': seq<Bytes>, progress': Bytes)
    requires Holds(st, sawUnpackOk, sawContent, packets, progress)
    requires var alone := ScanLine(Scan(false, false, Concat(packets), []), line);
             alone.Ok? && ok == alone.value.sawUnpackOk && content == alone.value.sawContent &&
             Concat(packets') == alone.value.channel1 &&
               progress' == Take(progress + alone.value.channel2, PROGRESS_LIMIT)
    ensures ScanLine(st, line).Ok?
    ensures Holds(ScanLine(st, line).value, sawUnpackOk || ok, sawContent || content, packets', progress')
  {
    ScanLineAdds(st, line);
    TakeOfTake(st.channel2, ScanLine(Scan(false, false, Concat(packets), []), line).value.channel2, PROGRESS_LIMIT);
  }

  /** The scan of the response is that of the rest, from `st` on. */
  ghost predicate Continues(body: Source, st: Scan, rest: Source) {
    ScanLines(NOTHING, AllPackets(body).0, AllPackets(body).1) == ScanLines(st, AllPackets(rest).0, AllPackets(rest).1)
  }

  lemma ScanEnds(body: Source, st: Scan, s: Source)
    requires Continues(body, st, s) && !NextPacket(s).0.Line?
    ensures ResponseVerdict(body) == Conclude(st, if NextPacket(s).0.Failed? then Some(NextPacket(s).0.error) else None)
  {
  }

  lemma ScanGoesOn(body: Source, st: Scan, s: Source)
    requires Continues(body, st, s) && NextPacket(s).0.Line?
    ensures match ScanLine(st, NextPacket(s).0.data)
            case Err(e) => ResponseVerdict(body) == Conclude(st, Some(e))
            case Ok(next) => Continues(body, next, NextPacket(s).1)
  {
    var (line, rest) := NextPacket(s);
    OneMorePacket([], s);
    assert AllPackets(s).0 == [line.data] + AllPackets(rest).0;
    assert AllPackets(s).0[1..] == AllPackets(rest).0;
  }

  lemma Rejects(st: Scan, e: PacketError)
    ensures Conclude(st, Some(e)) == Rejected(Protocol(e), Messages(Take(st.channel2, PROGRESS_LIMIT)))
  {
  }

  method ParseReceivePackResponse(body: Source) returns (r: Verdict)
    ensures r == ResponseVerdict(body)
  {
    var parser := new Parser(body);
    var progress := new RemoteProgressBuffer();
    var sawUnpackOk, sawContent, sideBandPackets: seq<Bytes> := false, false, [];
    ghost var st := NOTHING;
    while true
      invariant progress.Valid() && Holds(st, sawUnpackOk, sawContent, sideBandPackets, Concat(progress.payloads))
      invariant Continues(body, st, parser.source)
      decreases |parser.source.bytes|
    {
      ghost var was, before := parser.source, Concat(progress.payloads);
      var next := parser.Next();
      if next.EndOfStream? {
        ScanEnds(body, st, was);
        break;
      }
      if next.Failed? {
        ScanEnds(body, st, was);
        Rejects(st, next.error);
        r := Reject(Protocol(next.error), progress);
        return;
      }
      ScanGoesOn(body, st, was);
      var ok, content, packets, failure := ClassifyReceivePackLine(next.data, sideBandPackets, progress);
      if failure.Some? {
        ScanLineAdds(st, next.data);
        Rejects(st, failure.value);
        r := Reject(Protocol(failure.value), progress);
        return;
      }
      HoldsOneMore(st, next.data, sawUnpackOk, sawContent, sideBandPackets, before,
                   ok, content, packets, Concat(progress.payloads));
      st := ScanLine(st, next.data).value;
      sideBandPackets, sawUnpackOk, sawContent := packets, sawUnpackOk || ok, sawContent || content;
    }
    r := ConcludeResponse(sawUnpackOk, sawContent, sideBandPackets, progress, st);
  }
}
