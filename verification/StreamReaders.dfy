/** The readers a fetched pack comes through: the size cap on the response body and
    the demultiplexer of its packets. */
module StreamReaders {
  import opened GitTypes
  import ByteText
  import opened Sequences
  import opened PktLine
  import opened ReportStatus
  import opened ReportVerdict

  datatype ReadError = EndOfFile | ResponseTooLarge | BodyFailed

  // ----- the capped body

  /** A response body. How much a read gives, and whether the end is announced with
      the last bytes or after them, is up to the network. */
  class Body {
    var bytes: Bytes
    const end: ReadError

    constructor (content: Bytes, end: ReadError)
      requires end != ResponseTooLarge
      ensures bytes == content && this.end == end
    {
      this.bytes, this.end := content, end;
    }

    method Read(p: array<byte>, from: nat, to: nat) returns (n: nat, err: Option<ReadError>)
      requires from < to <= p.Length
      modifies this, p
      ensures n <= to - from && n <= |old(bytes)| && bytes == old(bytes)[n..]
      ensures p[..from] == old(p[..from]) && p[from..from + n] == old(bytes)[..n]
      ensures err.Some? ==> bytes == [] && err == Some(end)
      ensures n > 0 || err.Some?
    {
      if |bytes| == 0 { return 0, Some(end); }
      n :| 0 < n <= |bytes| && n <= to - from;
      ghost var was, given := p[..from], bytes[..n];
      for i := 0 to n
        invariant p[..from] == was && bytes == old(bytes)
        invariant forall k :: 0 <= k < i ==> p[from + k] == bytes[k]
      {
        p[from + i] := bytes[i];
      }
      assert p[from..from + n] == given;
      bytes := bytes[n..];
      var early: bool :| true;
      err := if early && |bytes| == 0 then Some(end) else None;
    }
  }

  class LimitedReadCloser {
    const body: Body
    const limit: nat
    var remaining: nat
    var err: Option<ReadError>
    ghost const whole: Bytes
    ghost var delivered: Bytes

    ghost predicate Valid()
      reads this, body
    {
      && |delivered| + remaining == limit
      && body.end != ResponseTooLarge
      && (err.None? ==> whole == delivered + body.bytes)
      && (err == Some(ResponseTooLarge) ==> |whole| > limit && delivered == whole[..limit])
      && (err.Some? && err != Some(ResponseTooLarge) ==>
            err == Some(body.end) && |whole| <= limit && delivered == whole)
    }

    constructor (body: Body, limit: nat)
      requires limit > 0 && body.end != ResponseTooLarge
      ensures Valid() && this.body == body && this.limit == limit && delivered == [] && whole == body.bytes
    {
      this.body, this.limit, this.remaining, this.err := body, limit, limit, None;
      this.whole, this.delivered := body.bytes, [];
    }

    /** What is still to be delivered: the body up to the cap, ending in a failure if
        the body is longer. */
    ghost function Rest(): Source
      requires Valid()
      reads this, body
    {
      Source(if |delivered| <= |Take(whole, limit)| then Take(whole, limit)[|delivered|..] else [],
             |whole| > limit || body.end != EndOfFile)
    }

    /** Delivers the next bytes of the capped body, in order and once. The error comes
        with or after the last of them, stays, and is the cap's only when the body is
        longer than the cap. */
    method Read(p: array<byte>, from: nat, to: nat) returns (n: nat, failed: Option<ReadError>)
      requires Valid() && from <= to <= p.Length
      modifies this, body, p
      ensures Valid() && n <= to - from && failed == (if from < to || old(err).Some? then err else None)
      ensures p[..from] == old(p[..from]) && delivered == old(delivered) + p[from..from + n]
      ensures delivered <= Take(whole, limit)
      ensures old(err).Some? ==> n == 0 && err == old(err)
      ensures err.Some? ==> delivered == Take(whole, limit) && (err == Some(ResponseTooLarge) <==> |whole| > limit)
      ensures n > 0 || from == to || failed.Some?
    {
      assert delivered + [] == delivered;
      if err.Some? { return 0, err; }
      if from == to { return 0, None; }
      var end := to;
      if to - from - 1 > remaining { end := from + remaining + 1; }
      ghost var rest := body.bytes;
      n, failed := body.Read(p, from, end);
      assert rest == rest[..n] + body.bytes;
      if n <= remaining {
        remaining := remaining - n;
        delivered := delivered + p[from..from + n];
        if failed.Some? { err := failed; }
        return n, failed;
      }
      assert p[from..from + remaining] == rest[..remaining];
      n := remaining;
      delivered := delivered + p[from..from + n];
      remaining := 0;
      err := Some(ResponseTooLarge);
      failed := err;
    }

    /** `got` has been delivered since `start`. */
    ghost predicate Got(start: Bytes, got: Bytes)
      reads this, body
    {
      Valid() && delivered == start + got && delivered <= Take(whole, limit)
    }

    /** Reads on behind the first `n` bytes of the slice. */
    method ReadMore(p: array<byte>, n: nat, ghost start: Bytes) returns (k: nat, failed: Option<ReadError>)
      requires n < p.Length && Got(start, p[..n])
      modifies this, body, p
      ensures n + k <= p.Length && Got(start, p[..n + k])
      ensures failed.Some? ==> err == failed && delivered == Take(whole, limit)
      ensures k > 0 || failed.Some?
    {
      ghost var before := p[..n];
      k, failed := Read(p, n, p.Length);
      assert p[..n + k] == before + p[n..n + k];
      AppendAssociates(start, before, p[n..n + k]);
    }

    /** `io.ReadFull` on the capped body is reading from its abstract source. */
    method ReadFull(p: array<byte>) returns (n: nat, failed: Option<ReadError>)
      requires Valid()
      modifies this, body, p
      ensures Valid() && n <= p.Length
      ensures failed.None? <==> p.Length <= |old(Rest()).bytes|
      ensures p[..n] == Take(old(Rest()).bytes, p.Length)
      ensures Rest() == old(Rest()).(bytes := old(Rest()).bytes[n..])
      ensures failed.Some? ==> (failed != Some(EndOfFile) <==> old(Rest()).broken)
    {
      n, failed := 0, None;
      ghost var start := delivered;
      DeliveredWithin(this);
      NothingBehind(start);
      while n < p.Length && failed.None?
        invariant n <= p.Length && Got(start, p[..n])
        invariant failed.Some? ==> err == failed && delivered == Take(whole, limit)
        decreases p.Length - n, failed.None?
      {
        var k;
        k, failed := ReadMore(p, n, start);
        n := n + k;
      }
      Delivery(start, p[..n], Take(whole, limit));
      if n == p.Length { failed := None; }
    }
  }

  lemma Delivery(start: Bytes, more: Bytes, all: Bytes)
    requires start + more <= all
    ensures all[|start|..][..|more|] == more && all[|start + more|..] == all[|start|..][|more|..]
    ensures start + more == all ==> all[|start|..] == more
  {
  }

  lemma DeliveredWithin(r: LimitedReadCloser)
    requires r.Valid()
    ensures r.delivered <= Take(r.whole, r.limit)
  {
  }

  // ----- the demultiplexer

  datatype MuxEnd = MuxEndOfFile | PacketFailure(error: PacketError) | FatalMessage(text: Bytes) | InvalidStatus

  /** The pack data of the packets, and how it ends. Progress is passed over. */
  function Demux(lines: seq<Bytes>, end: Outcome): (Bytes, MuxEnd)
    decreases lines
  {
    if lines == [] then ([], if end.Failed? then PacketFailure(end.error) else MuxEndOfFile)
    else if lines[0] == [] || lines[0][0] == 2 then Demux(lines[1..], end)
    else if lines[0][0] == 1 then
      var (rest, last) := Demux(lines[1..], end);
      (lines[0][1..] + rest, last)
    else ([], if lines[0][0] == 3 then FatalMessage(lines[0][1..]) else InvalidStatus)
  }

  function DemuxSource(s: Source): (Bytes, MuxEnd) {
    Demux(AllPackets(s).0, AllPackets(s).1)
  }

  /** The next packet decides how the rest is demultiplexed. */
  lemma DemuxStep(s: Source)
    ensures var (r, rest) := NextPacket(s);
            DemuxSource(s) ==
            match r
            case EndOfStream => ([], MuxEndOfFile)
            case Failed(e) => ([], PacketFailure(e))
            case Line(data) =>
              if data == [] || data[0] == 2 then DemuxSource(rest)
              else if data[0] == 1 then (data[1..] + DemuxSource(rest).0, DemuxSource(rest).1)
              else ([], if data[0] == 3 then FatalMessage(data[1..]) else InvalidStatus)
  {
    var (r, rest) := NextPacket(s);
    if r.Line? { OneMorePacket([], s); NothingInFront(AllPackets(s).0); NothingInFront([r.data]); }
  }

  class MultiplexedReader {
    const parser: Parser
    var buffer: Bytes
    var eof: bool
    var err: Option<MuxEnd>
    ghost const whole: (Bytes, MuxEnd)
    ghost var delivered: Bytes

    ghost predicate Valid()
      reads this, parser
    {
      && (eof || err.Some? ==> whole.0 == delivered + buffer)
      && (eof ==> whole.1 == MuxEndOfFile && err.None?)
      && (err.Some? ==> whole.1 == err.value && err.value != MuxEndOfFile && buffer == [])
      && (!eof && err.None? ==>
            whole == (delivered + (buffer + DemuxSource(parser.source).0), DemuxSource(parser.source).1))
    }

    constructor (parser: Parser)
      ensures Valid() && this.parser == parser && delivered == [] && whole == DemuxSource(parser.source)
    {
      this.parser, buffer, eof, err := parser, [], false, None;
      whole, delivered := DemuxSource(parser.source), [];
      new;
      NothingInFront(whole.0);
    }

    /** Copies the front of the data into the caller's slice. */
    method CopyOut(p: array<byte>, data: Bytes) returns (n: nat)
      modifies p
      ensures n == (if p.Length <= |data| then p.Length else |data|) && p[..n] == data[..n]
    {
      n := if p.Length <= |data| then p.Length else |data|;
      for i := 0 to n
        invariant p[..i] == data[..i]
      {
        p[i] := data[i];
        assert data[..i + 1] == data[..i] + [data[i]];
        assert p[..i + 1] == p[..i] + [p[i]];
      }
    }

    /** Delivers the next pack data, in order and once; the end is reported only when
        all of it has been delivered. */
    method Read(p: array<byte>) returns (n: nat, failed: Option<MuxEnd>)
      requires Valid()
      modifies this, parser, p
      ensures Valid() && n <= p.Length && delivered == old(delivered) + p[..n]
      ensures delivered <= whole.0
      ensures failed.Some? ==> n == 0 && failed == Some(whole.1) && delivered == whole.0
      ensures n > 0 || p.Length == 0 || failed.Some?
      ensures old(err).Some? ==> failed == old(err)
    {
      n := 0;
      assert p[..0] == [] && delivered + [] == delivered;
      if err.Some? {
        assert delivered + buffer == delivered;
        return 0, err;
      }
      if eof && |buffer| == 0 {
        assert delivered + buffer == delivered;
        return 0, Some(MuxEndOfFile);
      }
      if |buffer| > 0 {
        n := CopyOut(p, buffer);
        Handed(delivered, buffer, n, if eof then [] else DemuxSource(parser.source).0);
        delivered, buffer, failed := delivered + p[..n], buffer[n..], None;
        assert eof ==> buffer + [] == buffer;
        return;
      }
      NothingInFront(DemuxSource(parser.source).0);
      while true
        invariant Valid() && !eof && err.None? && buffer == [] && n == 0 && p[..] == old(p[..])
        invariant delivered == old(delivered)
        decreases |parser.source.bytes|
      {
        NothingInFront(DemuxSource(parser.source).0);
        DemuxStep(parser.source);
        var packet := parser.Next();
        NothingInFront(DemuxSource(parser.source).0);
        if packet.EndOfStream? {
          eof := true;
          return 0, Some(MuxEndOfFile);
        }
        if packet.Failed? {
          err := Some(PacketFailure(packet.error));
          return 0, err;
        }
        var data := packet.data;
        if |data| > 0 {
          if data[0] == 1 {
            if |data| > 1 {
              n := CopyOut(p, data[1..]);
              Handed(delivered, data[1..], n, DemuxSource(parser.source).0);
              delivered, buffer, failed := delivered + p[..n], data[1..][n..], None;
              return;
            }
            NothingInFront(DemuxSource(parser.source).0);
          } else if data[0] == 3 {
            err := Some(FatalMessage(data[1..]));
            return 0, err;
          } else if data[0] != 2 {
            err := Some(InvalidStatus);
            return 0, err;
          }
        }
      }
    }
  }

  lemma Handed(delivered: Bytes, data: Bytes, n: nat, rest: Bytes)
    requires n <= |data|
    ensures delivered + (data + rest) == (delivered + data[..n]) + (data[n..] + rest)
    ensures delivered + data == (delivered + data[..n]) + data[n..]
  {
  }

  // ----- the stack of both

  /** A multiplexed response gives exactly the bytes of its data channel, in order. */
  lemma {:induction false} DemuxChunks(cs: seq<Chunk>)
    ensures Demux(ChunkLines(cs), EndOfStream) == (ReportBytes(cs), MuxEndOfFile)
  {
    if cs != [] {
      DemuxChunks(cs[1..]);
      assert ChunkLine(cs[0])[1..] == cs[0].payload;
      assert ChunkLines(cs)[1..] == ChunkLines(cs[1..]);
      NothingInFront(ReportBytes(cs[1..]));
    }
  }

  lemma MultiplexedDelivers(cs: seq<Chunk>)
    requires AllFit(cs)
    ensures DemuxSource(Source(Multiplexed(cs), false)) == (ReportBytes(cs), MuxEndOfFile)
  {
    ChunksFit(cs);
    PacketsRoundTrip(ChunkLines(cs), []);
    assert Multiplexed(cs) + [] == Multiplexed(cs);
    ChunksDelivered(cs);
    DemuxChunks(cs);
  }

  /** How the pack data ends at a packet on another channel. */
  function StopAt(line: Bytes): MuxEnd
    requires line != []
  {
    if line[0] == 3 then FatalMessage(line[1..]) else InvalidStatus
  }

  lemma {:induction false} DemuxUntil(cs: seq<Chunk>, last: Bytes, more: seq<Bytes>, end: Outcome)
    requires last != [] && last[0] != 1 && last[0] != 2
    ensures Demux(ChunkLines(cs) + ([last] + more), end) == (ReportBytes(cs), StopAt(last))
  {
    var lines := ChunkLines(cs) + ([last] + more);
    if cs == [] {
      assert lines == [last] + more;
    } else {
      assert ChunkLines(cs)[1..] == ChunkLines(cs[1..]);
      assert lines[0] == ChunkLine(cs[0]) && lines[1..] == ChunkLines(cs[1..]) + ([last] + more);
      assert ChunkLine(cs[0])[1..] == cs[0].payload;
      DemuxUntil(cs[1..], last, more, end);
      NothingInFront(ReportBytes(cs[1..]));
    }
  }

  /** A packet on channel 3 ends the pack data with its message, and one on a channel
      that does not exist with an error: what came before is delivered, nothing of what
      comes after it is. */
  lemma OtherChannelStops(cs: seq<Chunk>, last: Bytes, more: seq<Bytes>, rest: Bytes)
    requires last != [] && last[0] != 1 && last[0] != 2 && DetectError(last).None?
    requires forall l :: l in ChunkLines(cs) + [last] + more ==> Fits(l)
    ensures var written := Formatted(PackLines(ChunkLines(cs) + [last] + more));
            written.Ok? &&
            DemuxSource(Source(written.value + rest, false)) ==
              (ReportBytes(cs), if last[0] == 3 then FatalMessage(last[1..]) else InvalidStatus)
  {
    var lines := ChunkLines(cs);
    PacketsRoundTrip(lines + [last] + more, rest);
    ChunksQuiet(cs);
    FatalDelivered(lines, last, more);
    DemuxUntil(cs, last, Delivered(more).0, Delivered(lines + [last] + more).1);
  }

  lemma {:induction false} ChunksQuiet(cs: seq<Chunk>)
    ensures NonEmpty(ChunkLines(cs)) == ChunkLines(cs)
    ensures forall l :: l in ChunkLines(cs) ==> DetectError(l).None?
  {
    if cs != [] {
      ChannelHasNoError(ChunkLine(cs[0]));
      ChunksQuiet(cs[1..]);
      assert ChunkLines(cs)[1..] == ChunkLines(cs[1..]);
    }
  }

  /** Cutting a response off changes nothing before the cut: either the packet is
      read alike, or the cut is reported. */
  lemma {:induction false} CutPacket(full: Source, cut: Source)
    requires cut.bytes <= full.bytes && cut.broken
    ensures var (r, rest) := NextPacket(cut);
            r == Failed(ReadFailed) ||
            (NextPacket(full).0 == r && rest.bytes <= NextPacket(full).1.bytes)
    decreases |cut.bytes|
  {
    if |cut.bytes| >= LENGTH_SIZE {
      PrefixSlices(cut.bytes, full.bytes, LENGTH_SIZE);
      var a, b := cut.bytes[LENGTH_SIZE..], full.bytes[LENGTH_SIZE..];
      match ByteText.ParseUnsigned(cut.bytes[..LENGTH_SIZE], 16, 0x1_0000)
      case None =>
      case Some(length) =>
        if length <= LENGTH_SIZE {
          CutPacket(Source(b, full.broken), Source(a, cut.broken));
        } else if length <= MAX_SIZE && |a| >= length - LENGTH_SIZE {
          PrefixSlices(a, b, length - LENGTH_SIZE);
        }
    }
  }

  /** The size cap is honest: a response that runs into it yields a part of the pack
      data and an error, never an end of file, unless the full response would have
      given the same data and ended in the same way. */
  lemma {:induction false} CapIsHonest(full: Source, cut: Source)
    requires cut.bytes <= full.bytes && cut.broken
    ensures DemuxSource(cut).0 <= DemuxSource(full).0
    ensures DemuxSource(cut).1 == PacketFailure(ReadFailed) || DemuxSource(cut) == DemuxSource(full)
    decreases |cut.bytes|
  {
    CutPacket(full, cut);
    DemuxStep(cut);
    DemuxStep(full);
    var (r, rest) := NextPacket(cut);
    if r.Line? { CapIsHonest(NextPacket(full).1, rest); }
  }
}
