/** What the verdict on a push depends on: two byte streams, and what the report says. */
module ReportVerdict {
  import opened GitTypes
  import opened ByteText
  import opened Sequences
  import opened PktLine
  import opened ReportStatus

  // ----- chunking

  /** One packet of a multiplexed response: report data or progress. */
  datatype Chunk = ReportData(payload: Bytes) | Progress(payload: Bytes)

  function ChunkLine(c: Chunk): Bytes {
    match c
    case ReportData(payload) => [1] + payload
    case Progress(payload) => [2] + payload
  }

  function ChunkLines(cs: seq<Chunk>): seq<Bytes> {
    if cs == [] then [] else [ChunkLine(cs[0])] + ChunkLines(cs[1..])
  }

  function ReportBytes(cs: seq<Chunk>): Bytes {
    if cs == [] then [] else (if cs[0].ReportData? then cs[0].payload else []) + ReportBytes(cs[1..])
  }

  function ProgressBytes(cs: seq<Chunk>): Bytes {
    if cs == [] then [] else (if cs[0].Progress? then cs[0].payload else []) + ProgressBytes(cs[1..])
  }

  predicate AllFit(cs: seq<Chunk>) { forall c :: c in cs ==> Fits(ChunkLine(c)) }

  lemma ChannelHasNoError(line: Bytes)
    requires line != [] && (line[0] == 1 || line[0] == 2)
    ensures DetectError(line).None?
  {
    DiffersAt(line, ERR_PREFIX, 0);
    DiffersAt(line, ERROR_PREFIX, 0);
    DiffersAt(line, FATAL_PREFIX, 0);
    DiffersAt(line, NG_PREFIX, 0);
    DiffersAt(line, UNPACK_PREFIX, 0);
  }

  /** Multiplexed packets are delivered as they are. */
  lemma {:induction false} ChunksDelivered(cs: seq<Chunk>)
    ensures Delivered(ChunkLines(cs)) == (ChunkLines(cs), EndOfStream)
  {
    if cs != [] {
      ChannelHasNoError(ChunkLine(cs[0]));
      ChunksDelivered(cs[1..]);
      assert ChunkLines(cs)[1..] == ChunkLines(cs[1..]);
    }
  }

  lemma ChunkScan(st: Scan, c: Chunk)
    ensures ScanLine(st, ChunkLine(c)) ==
            Ok(match c
               case ReportData(payload) =>
                 st.(channel1 := st.channel1 + payload, sawContent := st.sawContent || payload != [])
               case Progress(payload) => st.(channel2 := st.channel2 + payload))
  {
    assert ChunkLine(c)[1..] == c.payload;
  }

  /** Scanning multiplexed packets collects the two streams. */
  lemma {:induction false} ChunksScan(st: Scan, cs: seq<Chunk>)
    ensures ScanLines(st, ChunkLines(cs), EndOfStream) ==
            (Scan(st.sawUnpackOk, st.sawContent || ReportBytes(cs) != [],
                  st.channel1 + ReportBytes(cs), st.channel2 + ProgressBytes(cs)), None)
    decreases cs
  {
    if cs == [] {
      assert st.channel1 + [] == st.channel1 && st.channel2 + [] == st.channel2;
    } else {
      ChunkScan(st, cs[0]);
      assert ChunkLines(cs)[1..] == ChunkLines(cs[1..]);
      var next := ScanLine(st, ChunkLine(cs[0])).value;
      ChunksScan(next, cs[1..]);
      NothingBehind(st.channel1);
      NothingBehind(st.channel2);
      AppendAssociates(st.channel1, if cs[0].ReportData? then cs[0].payload else [], ReportBytes(cs[1..]));
      AppendAssociates(st.channel2, if cs[0].Progress? then cs[0].payload else [], ProgressBytes(cs[1..]));
    }
  }

  /** The verdict on two byte streams. */
  function StreamVerdict(report: Bytes, progress: Bytes): Verdict {
    Conclude(Scan(false, report != [], report, progress), None)
  }

  /** A response split into packets. */
  function Multiplexed(cs: seq<Chunk>): Bytes
    requires AllFit(cs)
  {
    ChunksFit(cs);
    PacketsRoundTrip(ChunkLines(cs), []);
    Formatted(PackLines(ChunkLines(cs))).value
  }

  lemma {:induction false} ChunksFit(cs: seq<Chunk>)
    requires AllFit(cs)
    ensures forall l :: l in ChunkLines(cs) ==> Fits(l)
  {
    if cs != [] {
      assert cs[0] in cs;
      ChunksFit(cs[1..]);
    }
  }

  lemma VerdictFrom(body: Source, lines: seq<Bytes>, end: Outcome, st: Scan, error: Option<PacketError>)
    requires AllPackets(body) == (lines, end) && ScanLines(NOTHING, lines, end) == (st, error)
    ensures ResponseVerdict(body) == Conclude(st, error)
    ensures Conclude(st, error).Accepted? <==>
              error.None? && ReportIn(st.channel1).Ok? &&
                (st.sawUnpackOk || ReportIn(st.channel1).value || !st.sawContent)
  {
  }

  /** However the streams are cut into packets and interleaved, the verdict, remote
      messages included, is that on the two streams. */
  lemma VerdictOnStreams(cs: seq<Chunk>)
    requires AllFit(cs)
    ensures ResponseVerdict(Source(Multiplexed(cs), false)) == StreamVerdict(ReportBytes(cs), ProgressBytes(cs))
  {
    ChunksFit(cs);
    PacketsRoundTrip(ChunkLines(cs), []);
    assert Multiplexed(cs) + [] == Multiplexed(cs);
    ChunksDelivered(cs);
    ChunksScan(NOTHING, cs);
    NothingInFront(ReportBytes(cs));
    NothingInFront(ProgressBytes(cs));
    VerdictFrom(Source(Multiplexed(cs), false), ChunkLines(cs), EndOfStream,
                Scan(false, ReportBytes(cs) != [], ReportBytes(cs), ProgressBytes(cs)), None);
  }

  lemma StreamAccepted(report: Bytes, progress: Bytes)
    ensures StreamVerdict(report, progress).Accepted? <==>
              ReportIn(report).Ok? && (ReportIn(report).value || report == [])
  {
  }

  lemma ChunkingDoesNotMatter(a: seq<Chunk>, b: seq<Chunk>)
    requires AllFit(a) && AllFit(b)
    requires ReportBytes(a) == ReportBytes(b) && ProgressBytes(a) == ProgressBytes(b)
    ensures ResponseVerdict(Source(Multiplexed(a), false)) == ResponseVerdict(Source(Multiplexed(b), false))
  {
    VerdictOnStreams(a);
    VerdictOnStreams(b);
  }

  // ----- what a report says

  datatype ReportLine = UnpackStatus(status: Bytes) | RefOk(name: Bytes) | RefRejected(name: Bytes, reason: Bytes)

  const OK_PREFIX: Bytes := [111, 107, 32]

  function Text(l: ReportLine): Bytes {
    match l
    case UnpackStatus(status) => UNPACK_PREFIX + status
    case RefOk(name) => OK_PREFIX + name
    case RefRejected(name, reason) => NG_PREFIX + name + [SPACE] + reason
  }

  /** A line as the report grammar has it: on one line, with a status or a name. */
  predicate Proper(l: ReportLine) {
    NEWLINE !in Text(l) &&
    match l
    case UnpackStatus(status) => status != [] && status[0] !in LINE_END
    case RefOk(name) => true
    case RefRejected(name, _) => name != [] && name[0] !in LINE_END
  }

  predicate AllProper(report: seq<ReportLine>) { forall l :: l in report ==> Proper(l) }

  predicate SaysOk(l: ReportLine) { l.UnpackStatus? && TrimRight(l.status, LINE_END) == OK }

  predicate Refuses(l: ReportLine) { l.RefRejected? || (l.UnpackStatus? && !SaysOk(l)) }

  /** The report says "unpack ok" and refuses nothing. */
  ghost predicate SaysAccepted(report: seq<ReportLine>) {
    (exists l :: l in report && SaysOk(l)) && forall l :: l in report ==> !Refuses(l)
  }

  /** The text of a line up to trailing blanks. */
  predicate Carries(text: Bytes, l: ReportLine) {
    TrimRight(text, LINE_END) == TrimRight(Text(l), LINE_END)
  }

  lemma {:induction false} TrimmedRest(s: Bytes, blanks: set<byte>)
    ensures forall c :: c in s[|TrimRight(s, blanks)|..] ==> c in blanks
  {
    if s != [] && s[|s| - 1] in blanks {
      var t := TrimRight(s[..|s| - 1], blanks);
      TrimmedRest(s[..|s| - 1], blanks);
      assert s[|t|..] == s[..|s| - 1][|t|..] + [s[|s| - 1]];
    }
  }

  /** Trimming leaves a front that ends where the back is not blank. */
  lemma {:induction false} TrimKeepsFront(front: Bytes, back: Bytes, blanks: set<byte>)
    requires back != [] && back[0] !in blanks
    ensures TrimRight(front + back, blanks) == front + TrimRight(back, blanks)
    ensures TrimRight(back, blanks) != []
  {
    var s := front + back;
    if back[|back| - 1] in blanks {
      assert s[..|s| - 1] == front + back[..|back| - 1];
      TrimKeepsFront(front, back[..|back| - 1], blanks);
    }
  }

  lemma PrefixKept(text: Bytes, trimmed: Bytes, p: Bytes)
    requires trimmed <= text && |p| <= |trimmed|
    ensures HasPrefix(text, p) == HasPrefix(trimmed, p)
  {
    assert text[..|p|] == trimmed[..|p|];
  }

  /** A text that starts with `u` can only announce a failed unpacking. */
  lemma UnpackErrors(text: Bytes)
    requires text != [] && text[0] == 117
    ensures DetectError(text).Some? <==> HasPrefix(text, UNPACK_PREFIX) && TrimRight(text[7..], LINE_END) != OK
  {
    DiffersAt(text, ERR_PREFIX, 0);
    DiffersAt(text, ERROR_PREFIX, 0);
    DiffersAt(text, FATAL_PREFIX, 0);
    DiffersAt(text, NG_PREFIX, 0);
  }

  lemma OkErrors(text: Bytes)
    requires text != [] && text[0] == 111
    ensures DetectError(text).None?
  {
    DiffersAt(text, ERR_PREFIX, 0);
    DiffersAt(text, ERROR_PREFIX, 0);
    DiffersAt(text, FATAL_PREFIX, 0);
    DiffersAt(text, NG_PREFIX, 0);
    DiffersAt(text, UNPACK_PREFIX, 0);
  }

  /** What is behind a front that survives trimming is trimmed alike. */
  lemma TrimmedBehind(text: Bytes, front: Bytes, back: Bytes, blanks: set<byte>)
    requires TrimRight(text, blanks) == front + back && back != []
    ensures HasPrefix(text, front) && TrimRight(text[|front|..], blanks) == back
  {
    var t := TrimRight(text, blanks);
    var rest := text[|t|..];
    TrimmedRest(text, blanks);
    assert t[|t| - 1] == back[|back| - 1];
    assert text[..|front|] == t[..|front|] == front;
    assert text[|front|..] == back + rest;
    TrimRightBlanks(back, blanks, rest);
  }

  /** A text that carries a status consists of the prefix, the trimmed status and blanks. */
  lemma UnpackParts(text: Bytes, status: Bytes)
    requires Proper(UnpackStatus(status)) && Carries(text, UnpackStatus(status))
    ensures TrimRight(text, LINE_END) == UNPACK_PREFIX + TrimRight(status, LINE_END)
    ensures HasPrefix(text, UNPACK_PREFIX) && TrimRight(text[7..], LINE_END) == TrimRight(status, LINE_END)
  {
    TrimKeepsFront(UNPACK_PREFIX, status, LINE_END);
    TrimmedBehind(text, UNPACK_PREFIX, TrimRight(status, LINE_END), LINE_END);
  }

  lemma SentinelParts(trimmed: Bytes)
    ensures UNPACK_PREFIX + trimmed == UNPACK_OK <==> trimmed == OK
  {
    assert UNPACK_OK == UNPACK_PREFIX + OK;
    assert (UNPACK_PREFIX + trimmed)[7..] == trimmed && UNPACK_OK[7..] == OK;
  }

  lemma CarriesUnpack(text: Bytes, status: Bytes)
    requires Proper(UnpackStatus(status)) && Carries(text, UnpackStatus(status))
    ensures text != [] && text[0] > 3
    ensures DetectError(text).Some? <==> Refuses(UnpackStatus(status))
    ensures IsUnpackOk(text) <==> SaysOk(UnpackStatus(status))
  {
    UnpackParts(text, status);
    assert text[0] == text[..7][0] == UNPACK_PREFIX[0];
    UnpackErrors(text);
    SentinelParts(TrimRight(status, LINE_END));
  }

  lemma CarriesOk(text: Bytes, name: Bytes)
    requires Carries(text, RefOk(name))
    ensures text != [] && text[0] > 3 && DetectError(text).None? && !IsUnpackOk(text)
  {
    var l := OK_PREFIX + name;
    TrimKeepsFront([], OK_PREFIX + name, LINE_END);
    assert [] + l == l;
    var t := TrimRight(text, LINE_END);
    assert t[0] == l[0] == 111 && t[0] == text[0];
    OkErrors(text);
  }

  lemma CarriesNg(text: Bytes, name: Bytes, reason: Bytes)
    requires Proper(RefRejected(name, reason)) && Carries(text, RefRejected(name, reason))
    ensures text != [] && text[0] > 3 && DetectError(text).Some?
  {
    var back := name + [SPACE] + reason;
    assert NG_PREFIX + back == Text(RefRejected(name, reason));
    TrimKeepsFront(NG_PREFIX, back, LINE_END);
    var t := TrimRight(text, LINE_END);
    PrefixKept(text, t, NG_PREFIX);
    assert t[..3] == NG_PREFIX;
    NgIsRejection(text);
    assert text[0] == text[..3][0];
  }

  /** Trimming stops inside the back unless that is all blank. */
  lemma {:induction false} TrimInBack(front: Bytes, back: Bytes, blanks: set<byte>)
    requires TrimRight(back, blanks) != []
    ensures TrimRight(front + back, blanks) == front + TrimRight(back, blanks)
  {
    var s := front + back;
    if back[|back| - 1] in blanks {
      assert s[..|s| - 1] == front + back[..|back| - 1];
      TrimInBack(front, back[..|back| - 1], blanks);
    }
  }

  lemma {:induction false} TrimmedToNothing(s: Bytes, blanks: set<byte>)
    requires TrimRight(s, blanks) == []
    ensures forall c :: c in s ==> c in blanks
  {
    TrimmedRest(s, blanks);
    assert s[0..] == s;
  }

  lemma RejectionTrimmed(name: Bytes, reason: Bytes)
    requires name != [] && name[|name| - 1] !in LINE_END
    ensures TrimRight(name + [SPACE] + reason, LINE_END) ==
            if TrimRight(reason, LINE_END) == [] then name else name + [SPACE] + TrimRight(reason, LINE_END)
  {
    if TrimRight(reason, LINE_END) == [] {
      TrimmedToNothing(reason, LINE_END);
      AppendAssociates(name, [SPACE], reason);
      TrimRightBlanks(name, LINE_END, [SPACE] + reason);
    } else {
      TrimInBack(name + [SPACE], reason, LINE_END);
    }
  }

  lemma NoCut(s: Bytes, sep: byte)
    requires sep !in s
    ensures Cut(s, sep).None?
  {
    CutSplits(s, sep);
  }

  lemma RejectionCut(name: Bytes, trimmed: Bytes)
    requires SPACE !in name
    ensures Cut(name, SPACE).None? && Cut(name + [SPACE] + trimmed, SPACE) == Some((name, trimmed))
  {
    NoCut(name, SPACE);
    CutAt(name, SPACE, trimmed);
  }

  /** A rejected reference is reported by its name and with the remote's reason,
      or a standard one if there is none. */
  lemma RejectionNamesReference(name: Bytes, reason: Bytes)
    requires name != [] && SPACE !in name && name[|name| - 1] !in LINE_END
    ensures DetectError(Text(RefRejected(name, reason))) ==
            Some(ReferenceError(name, if TrimRight(reason, LINE_END) == [] then UPDATE_FAILED
              else TrimRight(reason, LINE_END)))
  {
    var text := Text(RefRejected(name, reason));
    RejectionText(name, reason);
    NgIsRejection(text);
    RejectionTrimmed(name, reason);
    RejectionCut(name, TrimRight(reason, LINE_END));
  }

  lemma RejectionText(name: Bytes, reason: Bytes)
    ensures HasPrefix(Text(RefRejected(name, reason)), NG_PREFIX)
    ensures Text(RefRejected(name, reason))[3..] == name + [SPACE] + reason
  {
  }

  lemma NgIsRejection(text: Bytes)
    requires HasPrefix(text, NG_PREFIX)
    ensures DetectError(text) == Some(ReferenceFailure(text))
  {
    assert text[0] == text[..3][0];
    DiffersAt(text, ERR_PREFIX, 0);
    DiffersAt(text, ERROR_PREFIX, 0);
    DiffersAt(text, FATAL_PREFIX, 0);
  }

  /** A text that carries a report line announces an error exactly when the line
      refuses, and is the success sentinel exactly when the line says so. */
  lemma CarriesMeaning(text: Bytes, l: ReportLine)
    requires Proper(l) && Carries(text, l)
    ensures text != [] && text[0] > 3
    ensures DetectError(text).Some? <==> Refuses(l)
    ensures DetectError(text).None? ==> (IsUnpackOk(text) <==> SaysOk(l))
  {
    match l
    case UnpackStatus(status) => CarriesUnpack(text, status);
    case RefOk(name) => CarriesOk(text, name);
    case RefRejected(name, reason) => CarriesNg(text, name, reason);
  }

  ghost predicate CarriesAll(texts: seq<Bytes>, report: seq<ReportLine>) {
    |texts| == |report| && forall i :: 0 <= i < |texts| ==> Proper(report[i]) && Carries(texts[i], report[i])
  }

  predicate AnySaysOk(report: seq<ReportLine>) { report != [] && (SaysOk(report[0]) || AnySaysOk(report[1..])) }

  predicate AnyRefuses(report: seq<ReportLine>) { report != [] && (Refuses(report[0]) || AnyRefuses(report[1..])) }

  lemma {:induction false} SaysAcceptedIff(report: seq<ReportLine>)
    ensures AnySaysOk(report) <==> exists l :: l in report && SaysOk(l)
    ensures AnyRefuses(report) <==> exists l :: l in report && Refuses(l)
  {
    if report != [] {
      SaysAcceptedIff(report[1..]);
      assert forall l :: l in report <==> l == report[0] || l in report[1..];
    }
  }

  lemma CarriesTail(texts: seq<Bytes>, report: seq<ReportLine>)
    requires CarriesAll(texts, report) && report != []
    ensures CarriesAll(texts[1..], report[1..])
  {
    forall i | 0 <= i < |texts| - 1 ensures Proper(report[1..][i]) && Carries(texts[1..][i], report[1..][i]) {
      assert Proper(report[i + 1]) && Carries(texts[i + 1], report[i + 1]);
    }
  }

  lemma FirstDelivered(text: Bytes, l: ReportLine, rest: seq<Bytes>)
    requires Proper(l) && Carries(text, l)
    ensures Refuses(l) ==> Delivered([text] + rest).1.Failed?
    ensures !Refuses(l) ==>
              Delivered([text] + rest) == ([text] + Delivered(rest).0, Delivered(rest).1) &&
                (IsUnpackOk(text) <==> SaysOk(l))
  {
    CarriesMeaning(text, l);
    assert ([text] + rest)[1..] == rest;
  }

  /** Delivery fails exactly when the report refuses something; otherwise all its
      lines arrive, among them the sentinel if the report has it. */
  lemma {:induction false} ReportDelivered(texts: seq<Bytes>, report: seq<ReportLine>)
    requires CarriesAll(texts, report)
    ensures Delivered(texts).1.Failed? <==> AnyRefuses(report)
    ensures !AnyRefuses(report) ==>
              Delivered(texts) == (texts, EndOfStream) && (AnyUnpackOk(texts) <==> AnySaysOk(report))
  {
    if report != [] {
      FirstDelivered(texts[0], report[0], texts[1..]);
      CarriesTail(texts, report);
      ReportDelivered(texts[1..], report[1..]);
      assert texts == [texts[0]] + texts[1..];
    }
  }

  /** Bare report lines are scanned as such. */
  lemma {:induction false} ReportScanned(st: Scan, texts: seq<Bytes>, report: seq<ReportLine>)
    requires CarriesAll(texts, report)
    ensures ScanLines(st, texts, EndOfStream) ==
            (Scan(st.sawUnpackOk || AnyUnpackOk(texts), st.sawContent || texts != [], st.channel1, st.channel2), None)
    decreases texts
  {
    if report != [] {
      CarriesMeaning(texts[0], report[0]);
      CarriesTail(texts, report);
      ReportScanned(ScanLine(st, texts[0]).value, texts[1..], report[1..]);
    }
  }

  lemma {:induction false} ScanFails(st: Scan, lines: seq<Bytes>, e: PacketError)
    ensures ScanLines(st, lines, Failed(e)).1.Some?
    decreases lines
  {
    if lines != [] && ScanLine(st, lines[0]).Ok? { ScanFails(ScanLine(st, lines[0]).value, lines[1..], e); }
  }

  /** The report as packets of its own. */
  lemma BareReportVerdict(texts: seq<Bytes>, report: seq<ReportLine>)
    requires CarriesAll(texts, report) && report != [] && forall t :: t in texts ==> Fits(t)
    ensures Formatted(PackLines(texts)).Ok?
    ensures ResponseVerdict(Source(Formatted(PackLines(texts)).value, false)).Accepted? <==> SaysAccepted(report)
  {
    PacketsRoundTrip(texts, []);
    var body := Formatted(PackLines(texts)).value;
    assert body + [] == body;
    ReportDelivered(texts, report);
    SaysAcceptedIff(report);
    var (lines, end) := Delivered(texts);
    if AnyRefuses(report) {
      ScanFails(NOTHING, lines, end.error);
      var (st, error) := ScanLines(NOTHING, lines, end);
      VerdictFrom(Source(body, false), lines, end, st, error);
    } else {
      ReportScanned(NOTHING, texts, report);
      VerdictFrom(Source(body, false), texts, EndOfStream, Scan(AnyUnpackOk(texts), true, [], []), None);
    }
  }

  /** What a report stream of packets amounts to. */
  lemma NestedReportIn(texts: seq<Bytes>)
    requires Formatted(PackLines(texts)).Ok? && forall t :: t in texts ==> Fits(t)
    ensures Formatted(PackLines(texts)).value != []
    ensures ReportIn(Formatted(PackLines(texts)).value) ==
            if Delivered(texts).1.Failed? then Result.Err(Delivered(texts).1.error)
              else Ok(AnyUnpackOk(Delivered(texts).0))
  {
    var body := Formatted(PackLines(texts)).value;
    PacketsRoundTrip(texts, []);
    NothingBehind(body);
    NestedLooksNested(texts);
  }

  lemma NestedSays(texts: seq<Bytes>, report: seq<ReportLine>)
    requires CarriesAll(texts, report) && Formatted(PackLines(texts)).Ok? && forall t :: t in texts ==> Fits(t)
    ensures Formatted(PackLines(texts)).value != []
    ensures ReportIn(Formatted(PackLines(texts)).value) == Ok(true) <==> SaysAccepted(report)
  {
    NestedReportIn(texts);
    ReportDelivered(texts, report);
    SaysAcceptedIff(report);
  }

  /** The report as packets inside channel 1, however that is cut up. */
  lemma NestedReportVerdict(texts: seq<Bytes>, report: seq<ReportLine>, cs: seq<Chunk>)
    requires CarriesAll(texts, report) && forall t :: t in texts ==> Fits(t)
    requires AllFit(cs) && Formatted(PackLines(texts)).Ok? && ReportBytes(cs) == Formatted(PackLines(texts)).value
    ensures ResponseVerdict(Source(Multiplexed(cs), false)).Accepted? <==> SaysAccepted(report)
  {
    VerdictOnStreams(cs);
    NestedSays(texts, report);
    StreamAccepted(ReportBytes(cs), ProgressBytes(cs));
  }

  lemma {:induction false} DigitsInFront(s: Bytes)
    requires |s| <= 4 && forall c :: c in s ==> DigitValue(c).Some?
    ensures |Padded(s)| == 4 && forall c :: c in Padded(s) ==> DigitValue(c).Some?
    decreases 4 - |s|
  {
    if |s| < 4 { DigitsInFront([48] + s); }
  }

  lemma PrefixIsDigits(n: nat)
    requires n < 0x1_0000
    ensures |LengthPrefix(n)| == 4 && LooksLikePktLine(LengthPrefix(n))
  {
    var base, k := 16, 4;
    PrefixRoundTrip(n);
    SixteenToFour(base);
    NumeralLength(n, base, k);
    NumeralDigits(n, base);
    DigitsInFront(Numeral(n, base));
    assert forall i :: 0 <= i < 4 ==> LengthPrefix(n)[i] in LengthPrefix(n);
  }

  /** A pkt-line stream is recognized by its first length. */
  lemma NestedLooksNested(texts: seq<Bytes>)
    requires Formatted(PackLines(texts)).Ok? && forall t :: t in texts ==> Fits(t)
    ensures LooksLikePktLine(Formatted(PackLines(texts)).value)
  {
    var body, packs := Formatted(PackLines(texts)).value, PackLines(texts);
    var written := if FlushPacket in packs then packs else packs + [FlushPacket];
    if texts == [] {
      OnePacket(FlushPacket);
      assert written == [FlushPacket];
    } else {
      assert Fits(texts[0]) && written[0] == PackLine(texts[0]);
      var prefix := LengthPrefix(|texts[0]| + 4);
      PrefixIsDigits(|texts[0]| + 4);
      assert prefix <= body by {
        assert Marshal(written[0]).value == prefix + texts[0];
      }
      assert forall i :: 0 <= i < 4 ==> body[i] == prefix[i];
    }
  }

  // ----- raw lines

  /** The report as plain lines. */
  function RawText(report: seq<ReportLine>): Bytes {
    if report == [] then [] else Text(report[0]) + [NEWLINE] + RawText(report[1..])
  }

  function RawLines(report: seq<ReportLine>): seq<Bytes> {
    if report == [] then [[]] else [Text(report[0])] + RawLines(report[1..])
  }

  lemma {:induction false} RawTextSplits(report: seq<ReportLine>)
    requires AllProper(report)
    ensures Lines(RawText(report)) == RawLines(report)
  {
    if report != [] {
      assert Proper(report[0]);
      CutAt(Text(report[0]), NEWLINE, RawText(report[1..]));
      RawTextSplits(report[1..]);
    }
  }

  lemma {:induction false} TrimMore(s: Bytes, some: set<byte>, all: set<byte>)
    requires some <= all
    ensures TrimRight(TrimRight(s, some), all) == TrimRight(s, all)
  {
    if s != [] && s[|s| - 1] in some { TrimMore(s[..|s| - 1], some, all); }
  }

  predicate RawFits(report: seq<ReportLine>) { forall l :: l in report ==> Fits(Text(l)) }

  lemma {:induction false} RawReportScanned(report: seq<ReportLine>)
    requires RawFits(report) && AllProper(report)
    ensures RawScan(RawLines(report)).Err? <==> AnyRefuses(report)
    ensures !AnyRefuses(report) ==> RawScan(RawLines(report)) == Ok(AnySaysOk(report))
  {
    if report == [] {
      assert RawLines(report)[1..] == [];
    } else {
      var l := report[0];
      assert Proper(l) && Fits(Text(l));
      var line := TrimRight(Text(l), RAW_BLANKS);
      TrimMore(Text(l), RAW_BLANKS, LINE_END);
      CarriesMeaning(line, l);
      RawReportScanned(report[1..]);
      assert RawLines(report)[1..] == RawLines(report[1..]);
    }
  }

  lemma RawLooksRaw(report: seq<ReportLine>)
    requires report != []
    ensures RawText(report) != [] && !LooksLikePktLine(RawText(report))
  {
    var c := RawText(report)[0];
    assert c == Text(report[0])[0];
    assert c == 117 || c == 111 || c == 110;
  }

  lemma RawReportIn(report: seq<ReportLine>)
    requires report != [] && AllProper(report) && RawFits(report)
    ensures RawText(report) != []
    ensures ReportIn(RawText(report)) == RawScan(RawLines(report))
  {
    RawLooksRaw(report);
    RawTextSplits(report);
  }

  /** The report as plain lines inside channel 1, however that is cut up. */
  lemma RawReportVerdict(report: seq<ReportLine>, cs: seq<Chunk>)
    requires report != [] && AllProper(report) && RawFits(report)
    requires AllFit(cs) && ReportBytes(cs) == RawText(report)
    ensures ResponseVerdict(Source(Multiplexed(cs), false)).Accepted? <==> SaysAccepted(report)
  {
    VerdictOnStreams(cs);
    RawReportIn(report);
    StreamAccepted(RawText(report), ProgressBytes(cs));
    RawReportScanned(report);
    SaysAcceptedIff(report);
  }

  /** A digit of a length: 0 to 9, A to F or a to f. */
  predicate HexDigit(c: byte) { 48 <= c <= 57 || 65 <= c <= 70 || 97 <= c <= 102 }

  lemma LooksLikeLength(s: Bytes)
    ensures LooksLikePktLine(s) <==>
              |s| >= 4 && HexDigit(s[0]) && HexDigit(s[1]) && HexDigit(s[2]) && HexDigit(s[3])
  {
  }

  /** What channel 1 holds are packets exactly if it starts with four such digits. */
  lemma ReportEncoding(s: Bytes)
    requires s != []
    ensures ReportIn(s) == if |s| >= 4 && HexDigit(s[0]) && HexDigit(s[1]) && HexDigit(s[2]) && HexDigit(s[3])
                           then NestedScan(s) else RawScan(Lines(s))
  {
    LooksLikeLength(s);
  }

  /** Tabs, carriage returns and blanks at the end of a raw line make no difference. */
  lemma RawTrailingBlanks(line: Bytes, t: Bytes, rest: seq<Bytes>)
    requires forall c :: c in t ==> c == 9 || c == 13 || c == 32
    ensures RawScan([line + t] + rest) == RawScan([line] + rest)
  {
    var kept := TrimRight(line, RAW_BLANKS);
    TrimmedRest(line, RAW_BLANKS);
    var blanks := line[|kept|..];
    assert line + t == kept + (blanks + t);
    TrimRightBlanks(kept, RAW_BLANKS, blanks + t);
    assert ([line + t] + rest)[1..] == rest && ([line] + rest)[1..] == rest;
  }

  // ----- the messages

  lemma {:induction false} PiecesAt(line: Bytes, brk: byte, rest: Bytes)
    requires LineBreak(brk) && forall c :: c in line ==> !LineBreak(c)
    ensures Pieces(line + [brk] + rest) == [line] + Pieces(rest)
  {
    var s := line + [brk] + rest;
    if line == [] {
      assert s[1..] == rest;
    } else {
      assert s[1..] == line[1..] + [brk] + rest;
      PiecesAt(line[1..], brk, rest);
      assert line[0] in line && [line[0]] + line[1..] == line;
      assert ([line[1..]] + Pieces(rest))[1..] == Pieces(rest);
    }
  }

  /** Every line of the progress stream is a message without its trailing blanks, in
      order, unless it is blank; either kind of line break ends it. */
  lemma MessagesLineByLine(line: Bytes, brk: byte, rest: Bytes)
    requires LineBreak(brk) && forall c :: c in line ==> !LineBreak(c)
    ensures Messages(line + [brk] + rest) ==
            (if TrimSpace(TrimRight(line, LINE_END)) == [] then [] else [TrimRight(line, LINE_END)]) + Messages(rest)
  {
    PiecesAt(line, brk, rest);
    assert ([line] + Pieces(rest))[1..] == Pieces(rest);
  }

  // ----- nothing said

  /** A packet that says nothing about the outcome: progress, or a channel byte alone. */
  predicate Silent(line: Bytes) { line != [] && (line[0] == 2 || line == [1] || line == [3]) }

  lemma {:induction false} SilentScan(st: Scan, lines: seq<Bytes>)
    requires forall l :: l in lines ==> Silent(l)
    ensures var (end, error) := ScanLines(st, lines, EndOfStream);
            error.None? && end.channel1 == st.channel1 && end.sawUnpackOk == st.sawUnpackOk &&
            end.sawContent == st.sawContent
    decreases lines
  {
    if lines != [] {
      assert Silent(lines[0]);
      NothingBehind(st.channel1);
      assert lines[0] == [1] ==> lines[0][1..] == [];
      SilentScan(ScanLine(st, lines[0]).value, lines[1..]);
    }
  }

  /** An answer without any report is a success. */
  lemma SilenceIsAccepted(body: Source)
    requires AllPackets(body).1 == EndOfStream && forall l :: l in AllPackets(body).0 ==> Silent(l)
    ensures ResponseVerdict(body) == Accepted
  {
    SilentScan(NOTHING, AllPackets(body).0);
  }

  // ----- channel 3

  /** A message on channel 3. */
  predicate IsFatal(line: Bytes) { |line| > 1 && line[0] == 3 }

  /** The progress stream in these lines. */
  function ProgressIn(lines: seq<Bytes>): Bytes {
    if lines == [] then []
    else (if lines[0] != [] && lines[0][0] == 2 then lines[0][1..] else []) + ProgressIn(lines[1..])
  }

  /** Scanning stops at the first message on channel 3, with the progress before it. */
  lemma {:induction false} FatalScan(st: Scan, lines: seq<Bytes>, end: Outcome, i: nat)
    requires i < |lines| && IsFatal(lines[i]) && forall j :: 0 <= j < i ==> !IsFatal(lines[j])
    ensures ScanLines(st, lines, end).1 == Some(ServerError(Fatal, lines[i][1..]))
    ensures ScanLines(st, lines, end).0.channel2 == st.channel2 + ProgressIn(lines[..i])
    decreases i
  {
    if i == 0 {
      NothingBehind(st.channel2);
      assert lines[..0] == [];
    } else {
      var next := ScanLine(st, lines[0]).value;
      assert lines[1..][i - 1] == lines[i] && lines[..i][1..] == lines[1..][..i - 1];
      FatalScan(next, lines[1..], end, i - 1);
      var mine := if lines[0] != [] && lines[0][0] == 2 then lines[0][1..] else [];
      NothingBehind(st.channel2);
      assert next.channel2 == st.channel2 + mine;
      AppendAssociates(st.channel2, mine, ProgressIn(lines[1..][..i - 1]));
    }
  }

  /** Whatever came before it, a message on channel 3 that announces nothing by its
      prefix rejects the push: with exactly that message, and with the messages of
      the progress before it. */
  lemma ChannelThreeRejects(body: Source, i: nat)
    requires i < |AllPackets(body).0| && IsFatal(AllPackets(body).0[i])
    requires forall j :: 0 <= j < i ==> !IsFatal(AllPackets(body).0[j])
    ensures var lines := AllPackets(body).0;
            ResponseVerdict(body) == Rejected(Protocol(ServerError(Fatal, lines[i][1..])),
                                              Messages(Take(ProgressIn(lines[..i]), PROGRESS_LIMIT)))
  {
    var (lines, end) := AllPackets(body);
    FatalScan(NOTHING, lines, end, i);
    NothingInFront(ProgressIn(lines[..i]));
  }

  function NonEmpty(lines: seq<Bytes>): seq<Bytes> {
    if lines == [] then [] else (if lines[0] == [] then [] else [lines[0]]) + NonEmpty(lines[1..])
  }

  lemma {:induction false} DeliveredFront(lines: seq<Bytes>, more: seq<Bytes>)
    requires forall l :: l in lines ==> DetectError(l).None?
    ensures Delivered(lines + more) == (NonEmpty(lines) + Delivered(more).0, Delivered(more).1)
  {
    if lines == [] {
      assert lines + more == more;
      NothingInFront(Delivered(more).0);
    } else {
      assert (lines + more)[1..] == lines[1..] + more;
      assert lines[0] in lines && (lines + more)[0] == lines[0];
      DeliveredFront(lines[1..], more);
      if lines[0] == [] {
        NothingInFront(NonEmpty(lines[1..]));
      } else {
        AppendAssociates([lines[0]], NonEmpty(lines[1..]), Delivered(more).0);
      }
    }
  }

  lemma {:induction false} NonEmptyQuiet(lines: seq<Bytes>)
    requires forall l :: l in lines ==> !IsFatal(l)
    ensures forall l :: l in NonEmpty(lines) ==> !IsFatal(l)
    ensures ProgressIn(NonEmpty(lines)) == ProgressIn(lines)
  {
    if lines != [] {
      assert lines[0] in lines;
      NonEmptyQuiet(lines[1..]);
      var front := if lines[0] == [] then [] else [lines[0]];
      assert front + NonEmpty(lines[1..]) == NonEmpty(lines);
      if lines[0] != [] {
        assert NonEmpty(lines)[1..] == NonEmpty(lines[1..]);
      } else {
        NothingInFront(NonEmpty(lines[1..]));
      }
    }
  }

  /** The same of written packets: any that announce no error, then a message on
      channel 3, then any others. */
  lemma RefusedOnChannelThree(lines: seq<Bytes>, message: Bytes, more: seq<Bytes>, rest: Bytes)
    requires message != [] && DetectError([3] + message).None?
    requires forall l :: l in lines ==> DetectError(l).None? && !IsFatal(l)
    requires forall l :: l in lines + [[3] + message] + more ==> Fits(l)
    ensures var written := Formatted(PackLines(lines + [[3] + message] + more));
            written.Ok? &&
            ResponseVerdict(Source(written.value + rest, false)) ==
              Rejected(Protocol(ServerError(Fatal, message)), Messages(Take(ProgressIn(lines), PROGRESS_LIMIT)))
  {
    var fatal := [3] + message;
    var all := lines + [fatal] + more;
    PacketsRoundTrip(all, rest);
    var body := Source(Formatted(PackLines(all)).value + rest, false);
    FatalDelivered(lines, fatal, more);
    NonEmptyQuiet(lines);
    var front := NonEmpty(lines);
    assert AllPackets(body).0[..|front|] == front;
    ChannelThreeRejects(body, |front|);
    assert fatal[1..] == message;
  }

  lemma FatalDelivered(lines: seq<Bytes>, fatal: Bytes, more: seq<Bytes>)
    requires forall l :: l in lines ==> DetectError(l).None?
    requires fatal != [] && DetectError(fatal).None?
    ensures Delivered(lines + [fatal] + more).0 == NonEmpty(lines) + ([fatal] + Delivered(more).0)
  {
    assert lines + [fatal] + more == lines + ([fatal] + more);
    DeliveredFront(lines, [fatal] + more);
    assert ([fatal] + more)[1..] == more;
  }

  lemma {:induction false} ContainsIff(s: Bytes, p: Bytes)
    ensures Contains(s, p) <==> exists i :: 0 <= i <= |s| && HasPrefix(s[i..], p)
  {
    if Contains(s, p) {
      if HasPrefix(s, p) {
        assert s[0..] == s;
      } else {
        ContainsIff(s[1..], p);
        var i :| 0 <= i <= |s| - 1 && HasPrefix(s[1..][i..], p);
        DropTwice(s, 1, i);
      }
    }
    forall i | 0 <= i <= |s| && HasPrefix(s[i..], p) ensures Contains(s, p) {
      if i == 0 {
        assert s[0..] == s;
      } else {
        DropTwice(s, 1, i - 1);
        ContainsIff(s[1..], p);
      }
    }
  }

  /** An error or a fatal message, bare or on channel 3: a failed unpacking if it speaks
      of one, and otherwise the server's error with the message behind the colon. */
  lemma ErrorsMean(message: Bytes, fatal: bool)
    ensures var text := (if fatal then FATAL_PREFIX else ERROR_PREFIX) + message;
            var meant := if exists i :: 0 <= i <= |message| && HasPrefix(message[i..], UNPACK)
                         then UnpackError(message) else ServerError(if fatal then Fatal else Error, message);
            DetectError(text) == DetectError([3] + text) == Some(meant)
  {
    var prefix := if fatal then FATAL_PREFIX else ERROR_PREFIX;
    var text := prefix + message;
    assert text[..6] == prefix && text[6..] == message;
    if fatal { DiffersAt(text, ERROR_PREFIX, 0); }
    ContainsIff(message, UNPACK);
    ChannelThreeErrors(text);
  }

  /** An error or a fatal message means the same on channel 3 as bare. */
  lemma ChannelThreeErrors(text: Bytes)
    requires HasPrefix(text, ERROR_PREFIX) || HasPrefix(text, FATAL_PREFIX)
    ensures DetectError(text) == DetectError([3] + text) == Some(ErrorOrFatal(text))
  {
    assert text[0] == text[..6][0];
    DiffersAt(text, ERR_PREFIX, 0);
    var data := [3] + text;
    assert data[1..] == text;
    DiffersAt(data, ERR_PREFIX, 0);
    DiffersAt(data, ERROR_PREFIX, 0);
    DiffersAt(data, FATAL_PREFIX, 0);
  }
}
