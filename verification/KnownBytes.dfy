/** What the formats look like on the wire, spelled out in the characters and numbers
    of their documentation. */
module KnownBytes {
  import opened GitTypes
  import opened ByteText
  import opened PktLine
  import opened DeltaCodec
  import CommitCodec
  import TreeCodec
  import ReportStatus

  /** The bytes are the characters of the text. */
  predicate Spells(b: Bytes, text: string) {
    |b| == |text| && forall i :: 0 <= i < |b| ==> b[i] == text[i] as int
  }

  // ----- digits

  lemma DigitIs(d: nat)
    requires d < 16
    ensures DigitChar(d) == "0123456789abcdef"[d] as int
  {
  }

  /** Each byte in two digits, the higher one first. */
  lemma {:induction false} HexAt(b: Bytes, k: nat)
    requires k < |b|
    ensures EncodeHex(b)[2 * k] == "0123456789abcdef"[b[k] / 16] as int
    ensures EncodeHex(b)[2 * k + 1] == "0123456789abcdef"[b[k] % 16] as int
  {
    if k == 0 {
      DigitIs(b[0] / 16);
      DigitIs(b[0] % 16);
    } else {
      HexAt(b[1..], k - 1);
    }
  }

  lemma NumeralStep(n: nat, base: nat)
    requires 2 <= base <= 16
    ensures Numeral(n, base) == if n < base then [DigitChar(n)] else Numeral(n / base, base) + [DigitChar(n % base)]
  {
  }

  lemma ThreeDigits(n: nat, base: nat)
    requires base == 16 && n < 0x1000
    ensures Padded([48] + Numeral(n, base)) ==
            [48, DigitChar(n / 256), DigitChar(n / 16 % 16), DigitChar(n % 16)]
  {
    NumeralStep(n, base);
    NumeralStep(n / 16, base);
    NumeralStep(n / 256, base);
    assert n / 16 / 16 == n / 256;
    if n < 16 {
      assert Padded([48] + [DigitChar(n)]) == [48, 48, 48, DigitChar(n)] by {
        assert [48] + ([48] + [DigitChar(n)]) == [48, 48, DigitChar(n)];
        assert Padded([48, 48, DigitChar(n)]) == [48] + [48, 48, DigitChar(n)];
      }
    } else if n < 256 {
      assert Padded([48] + Numeral(n, base)) == [48] + ([48] + Numeral(n, base));
    }
  }

  /** The length of a packet in four digits, the highest first. */
  lemma PrefixDigits(n: nat)
    requires n < 0x1_0000
    ensures LengthPrefix(n) == [DigitChar(n / 4096), DigitChar(n / 256 % 16), DigitChar(n / 16 % 16), DigitChar(n % 16)]
  {
    var base := 16;
    if n < 4096 {
      ThreeDigits(n, base);
      SixteenToFour(base);
      NumeralLength(n, base, 3);
    } else {
      NumeralStep(n, base);
      NumeralStep(n / 16, base);
      NumeralStep(n / 256, base);
      NumeralStep(n / 4096, base);
      assert n / 16 / 16 == n / 256 && n / 256 / 16 == n / 4096;
    }
  }

  // ----- keywords

  lemma PacketKeywords()
    ensures Spells(ERR_PREFIX, "ERR ") && Spells(ERROR_PREFIX, "error:") && Spells(FATAL_PREFIX, "fatal:")
    ensures Spells(NG_PREFIX, "ng ") && Spells(UNPACK_PREFIX, "unpack ") && Spells(UNPACK, "unpack")
    ensures Spells(OK, "ok") && Spells(ReportStatus.UNPACK_OK, "unpack ok") && Spells(UPDATE_FAILED, "update failed")
  {
  }

  lemma SpecialPackets()
    ensures Marshal(FlushPacket).Ok? && Spells(Marshal(FlushPacket).value, "0000")
    ensures Marshal(DelimiterPacket).Ok? && Spells(Marshal(DelimiterPacket).value, "0001")
    ensures Marshal(ResponseEndPacket).Ok? && Spells(Marshal(ResponseEndPacket).value, "0002")
  {
  }

  lemma CommitKeywords()
    ensures Spells(CommitCodec.TREE, "tree") && Spells(CommitCodec.PARENT, "parent")
    ensures Spells(CommitCodec.AUTHOR, "author") && Spells(CommitCodec.COMMITTER, "committer")
    ensures Spells(CommitCodec.GPGSIG, "gpgsig")
  {
  }

  // ----- trees and commits

  /** In octal the modes are 40000, 160000 and 100644. */
  lemma ModeTexts(base: nat)
    requires base == 8
    ensures Numeral(MODE_TREE, base) == [52, 48, 48, 48, 48]
    ensures Numeral(MODE_GITLINK, base) == [49, 54, 48, 48, 48, 48]
    ensures Numeral(MODE_FILE, base) == [49, 48, 48, 54, 52, 52]
  {
    OctalSteps(MODE_TREE, base);
    OctalSteps(MODE_GITLINK, base);
    OctalSteps(MODE_FILE, base);
  }

  lemma OctalSteps(n: nat, base: nat)
    requires base == 8 && 0x1000 <= n < 0x4_0000
    ensures Numeral(n, base) ==
            (if n < 0x8000 then [] else [DigitChar(n / 0x8000)]) +
            [DigitChar(n / 0x1000 % 8), DigitChar(n / 512 % 8), DigitChar(n / 64 % 8), DigitChar(n / 8 % 8),
             DigitChar(n % 8)]
  {
    var a, b, c, d, e := n / 8, n / 64, n / 512, n / 0x1000, n / 0x8000;
    assert a / 8 == b && b / 8 == c && c / 8 == d && d / 8 == e;
    var front := Numeral(d, base);
    assert front == (if d < 8 then [] else [DigitChar(e)]) + [DigitChar(d % 8)] by {
      NumeralStep(d, base);
      NumeralStep(e, base);
    }
    NumeralStep(c, base);
    NumeralStep(b, base);
    NumeralStep(a, base);
    NumeralStep(n, base);
    FourBehind(front, DigitChar(c % 8), DigitChar(b % 8), DigitChar(a % 8), DigitChar(n % 8));
  }

  lemma FourBehind(front: Bytes, a: byte, b: byte, c: byte, d: byte)
    ensures front + [a] + [b] + [c] + [d] == front + [a, b, c, d]
  {
  }

  /** A file's line in a tree object: the mode, a blank, the name, a NUL and the hash. */
  lemma FileLine(n: Name, digest: Bytes)
    ensures TreeCodec.Listing([TreeEntry(MODE_FILE, n, EncodeHex(digest))]) ==
            Result.Ok([49, 48, 48, 54, 52, 52, 32] + n + [0] + digest)
  {
    var base := 8;
    ModeTexts(base);
    HexRoundTrip(digest);
    assert [49, 48, 48, 54, 52, 52, 32] == [49, 48, 48, 54, 52, 52] + [32];
    OneListed(TreeEntry(MODE_FILE, n, EncodeHex(digest)), digest);
  }

  lemma OneListed(e: TreeCodec.HexEntry, digest: Bytes)
    requires DecodeHex(e.hash) == Some(digest)
    ensures TreeCodec.Listing([e]) == Result.Ok(Numeral(e.mode, 8) + [32] + e.name + [0] + digest)
  {
    var es, line := [e], Numeral(e.mode, 8) + [32] + e.name + [0] + digest;
    assert es[1..] == [];
    assert line + [] == line;
  }

  /** `key value` and a newline. */
  ghost predicate IsLine(line: Bytes, key: string, value: Bytes) {
    |line| == |key| + |value| + 2 && Spells(line[..|key|], key) && line[|key|] == 32 &&
    line[|key| + 1..|line| - 1] == value && line[|line| - 1] == 10
  }

  lemma HeaderIsLine(key: Bytes, text: string, value: Bytes)
    requires Spells(key, text)
    ensures IsLine(CommitCodec.HeaderLine(key, value), text, value)
  {
    var line := CommitCodec.HeaderLine(key, value);
    assert line[..|key|] == key && line[|key| + 1..|line| - 1] == value;
  }

  /** The layout of a commit with a parent: its lines in Git's order, an empty line
      and the message. */
  lemma CommitLayout(c: CommitCodec.Commit)
    returns (tree: Bytes, parent: Bytes, author: Bytes, committer: Bytes, gpgsig: Bytes)
    requires c.author.Some? && c.committer.Some? && c.parent != CommitCodec.ZERO_DIGEST
    ensures CommitCodec.Build(c) == tree + (parent + (author + (committer + (gpgsig + ([10] + c.message)))))
    ensures IsLine(tree, "tree", EncodeHex(c.tree)) && IsLine(parent, "parent", EncodeHex(c.parent))
    ensures IsLine(author, "author", PersonText(c.author.value))
    ensures IsLine(committer, "committer", PersonText(c.committer.value))
    ensures if c.signature == [] then gpgsig == [] else IsLine(gpgsig, "gpgsig", CommitCodec.Indent(c.signature))
  {
    CommitKeywords();
    tree, parent := CommitCodec.HeaderLine(CommitCodec.TREE, EncodeHex(c.tree)), CommitCodec.ParentHeader(c.parent);
    author := CommitCodec.HeaderLine(CommitCodec.AUTHOR, PersonText(c.author.value));
    committer := CommitCodec.HeaderLine(CommitCodec.COMMITTER, PersonText(c.committer.value));
    gpgsig := CommitCodec.SignatureHeader(c.signature);
    HeaderIsLine(CommitCodec.TREE, "tree", EncodeHex(c.tree));
    HeaderIsLine(CommitCodec.PARENT, "parent", EncodeHex(c.parent));
    HeaderIsLine(CommitCodec.AUTHOR, "author", PersonText(c.author.value));
    HeaderIsLine(CommitCodec.COMMITTER, "committer", PersonText(c.committer.value));
    HeaderIsLine(CommitCodec.GPGSIG, "gpgsig", CommitCodec.Indent(c.signature));
    PersonIs(c.author.value);
    PersonIs(c.committer.value);
  }

  /** `name <email> seconds zone`. */
  function PersonText(p: Person): Bytes {
    p.name + [32, 60] + p.email + [62, 32] + FormatInt(p.timestamp) + [32] + p.timezone
  }

  lemma PersonIs(p: Person)
    ensures CommitCodec.FormatIdentity(p) == PersonText(p)
  {
    assert [32, 60] == [32] + [60] && [62, 32] == [62] + [32];
    Flatten(p.name, [32], [60], p.email, [62], [32], FormatInt(p.timestamp), p.timezone);
  }

  lemma Flatten(a: Bytes, b: Bytes, c: Bytes, d: Bytes, e: Bytes, f: Bytes, g: Bytes, h: Bytes)
    ensures a + b + c + d + e + (f + (g + b + h)) == a + (b + c) + d + (e + f) + g + b + h
  {
  }

  // ----- delta commands

  /** An insertion: its length, then its bytes. */
  lemma InsertCommand(data: Bytes, rest: Bytes, source: nat, target: nat)
    requires 0 < |data| < 128 && |data| <= target
    ensures Command(|data|, data + rest, source, target) == Result.Ok(Some((Insert(data), rest)))
  {
    assert (data + rest)[..|data|] == data && (data + rest)[|data|..] == rest;
  }

  function FourBytes(a: byte, b: byte, c: byte, d: byte): nat {
    var w: nat, x: nat, y: nat, z: nat := a, b, c, d;
    w + 0x100 * x + 0x1_0000 * y + 0x100_0000 * z
  }

  /** In a byte whose lowest `n` bits are set, bit `k` is set. */
  lemma {:induction false} LowBits(n: nat, b: byte, k: nat)
    requires k < n <= 8 && b == [0, 1, 3, 7, 15, 31, 63, 127, 255][n]
    ensures Bit(b, k)
  {
    if k > 0 { LowBits(n - 1, b / 2, k - 1); }
  }

  lemma TakeOne(k: nat, end: nat, x: byte, rest: Bytes)
    requires k < end <= 7
    ensures TakeFlagged(255, k, end, [x] + rest) == Raised(x, TakeFlagged(255, k + 1, end, rest))
  {
    LowBits(8, 255, k);
    assert ([x] + rest)[1..] == rest;
  }

  lemma OffsetBytes(o: Bytes, rest: Bytes)
    requires |o| == 4
    ensures Offset(255, o + rest) == Some((FourBytes(o[0], o[1], o[2], o[3]), rest))
  {
    TakeOne(0, 4, o[0], [o[1]] + ([o[2]] + ([o[3]] + rest)));
    TakeOne(1, 4, o[1], [o[2]] + ([o[3]] + rest));
    TakeOne(2, 4, o[2], [o[3]] + rest);
    TakeOne(3, 4, o[3], rest);
    assert o + rest == [o[0]] + ([o[1]] + ([o[2]] + ([o[3]] + rest)));
  }

  lemma SizeBytes(s: Bytes, rest: Bytes)
    requires |s| == 3
    ensures Size(255, s + rest) == Some((FourBytes(s[0], s[1], s[2], 0), rest))
  {
    TakeOne(4, 7, s[0], [s[1]] + ([s[2]] + rest));
    TakeOne(5, 7, s[1], [s[2]] + rest);
    TakeOne(6, 7, s[2], rest);
    assert s + rest == [s[0]] + ([s[1]] + ([s[2]] + rest));
  }

  /** A copy with all its operand bytes: four of the offset and three of the size, the
      lowest first. */
  lemma FullCopyCommand(o: Bytes, s: Bytes, rest: Bytes, source: nat, target: nat)
    requires |o| == 4 && |s| == 3 && 0 < FourBytes(s[0], s[1], s[2], 0) <= target
    requires FourBytes(o[0], o[1], o[2], o[3]) + FourBytes(s[0], s[1], s[2], 0) <= source
    ensures Command(255, o + s + rest, source, target) ==
            Result.Ok(Some((Copy(FourBytes(o[0], o[1], o[2], o[3]), FourBytes(s[0], s[1], s[2], 0)), rest)))
  {
    assert o + s + rest == o + (s + rest);
    OffsetBytes(o, s + rest);
    SizeBytes(s, rest);
  }
}
