/** Numbers and byte strings as text, and the cuts the text formats are parsed with. */
module ByteText {
  import opened GitTypes
  import opened Sequences

  const SPACE: byte := 32
  const NEWLINE: byte := 10
  const NUL: byte := 0

  // ----- digits

  function DigitChar(d: nat): byte
    requires d < 16
  {
    if d < 10 then 48 + d else 87 + d
  }

  /** A digit of either case. */
  function DigitValue(c: byte): Option<nat> {
    if 48 <= c <= 57 then Some(c - 48)
    else if 97 <= c <= 102 then Some(c - 87)
    else if 65 <= c <= 70 then Some(c - 55)
    else None
  }

  /** `n` in the given base, without leading zeros. */
  function Numeral(n: nat, base: nat): (s: Bytes)
    requires 2 <= base <= 16
    ensures s != []
    decreases n
  {
    if n < base then [DigitChar(n)]
    else
      Divided(n, base);
      Numeral(n / base, base) + [DigitChar(n % base)]
  }

  lemma Divided(n: nat, base: nat)
    requires 2 <= base <= n
    ensures n / base < n && base * (n / base) + n % base == n
  {
    var q := n / base;
    assert base * q == 2 * q + (base - 2) * q;
  }

  lemma {:induction false} NumeralDigits(n: nat, base: nat)
    requires 2 <= base <= 16
    ensures forall c :: c in Numeral(n, base) ==> 48 <= c <= 57 || (base > 10 && 97 <= c <= 102)
    decreases n
  {
    if n >= base {
      Divided(n, base);
      NumeralDigits(n / base, base);
    }
  }

  /** The value of a string of digits, if that is what it is. */
  function NumeralValue(s: Bytes, base: nat): Option<nat> {
    if s == [] then Some(0)
    else match (NumeralValue(s[..|s| - 1], base), DigitValue(s[|s| - 1]))
         case (Some(high), Some(d)) => if d < base then Some(base * high + d) else None
         case _ => None
  }

  lemma {:induction false} NumeralRoundTrip(n: nat, base: nat)
    requires 2 <= base <= 16
    ensures NumeralValue(Numeral(n, base), base) == Some(n)
    decreases n
  {
    if n < base {
      assert Numeral(n, base)[..0] == [];
      assert NumeralValue([], base) == Some(0);
    } else {
      Divided(n, base);
      NumeralRoundTrip(n / base, base);
      var s := Numeral(n, base);
      assert s[..|s| - 1] == Numeral(n / base, base);
    }
  }

  /** `strconv.ParseUint`: at least one digit, and a value below the limit. */
  function ParseUnsigned(s: Bytes, base: nat, limit: nat): Option<nat> {
    match NumeralValue(s, base)
    case Some(n) => if s != [] && n < limit then Some(n) else None
    case None => None
  }

  const MINUS: byte := 45
  const PLUS: byte := 43
  const TWO63: int := 0x8000_0000_0000_0000

  predicate FitsInt64(n: int) { -TWO63 <= n < TWO63 }

  /** `strconv.ParseInt` in base ten and 64 bits: an optional sign and digits. */
  function ParseInt64(s: Bytes): Option<int> {
    if s == [] then None
    else if s[0] == MINUS then
      match ParseUnsigned(s[1..], 10, TWO63 + 1)
      case Some(n) => Some(-(n as int))
      case None => None
    else
      match ParseUnsigned(if s[0] == PLUS then s[1..] else s, 10, TWO63)
      case Some(n) => Some(n)
      case None => None
  }

  /** `%d`. */
  function FormatInt(n: int): (s: Bytes)
    ensures s != []
  {
    if n < 0 then [MINUS] + Numeral(-n, 10) else Numeral(n, 10)
  }

  lemma IntDigits(n: int)
    ensures forall c :: c in FormatInt(n) ==> c == MINUS || 48 <= c <= 57
  {
    var base := 10;
    if n < 0 { NumeralDigits(-n, base); } else { NumeralDigits(n, base); }
  }

  lemma UnsignedRoundTrip(n: nat, base: nat, limit: nat)
    requires 2 <= base <= 16
    ensures ParseUnsigned(Numeral(n, base), base, limit) == if n < limit then Some(n) else None
    ensures Numeral(n, base)[0] != MINUS && Numeral(n, base)[0] != PLUS
  {
    NumeralRoundTrip(n, base);
    NumeralDigits(n, base);
    assert Numeral(n, base)[0] in Numeral(n, base);
  }

  lemma FormatIntRoundTrip(n: int)
    ensures ParseInt64(FormatInt(n)) == if FitsInt64(n) then Some(n) else None
  {
    var base := 10;
    if n < 0 {
      UnsignedRoundTrip(-n, base, TWO63 + 1);
      assert FormatInt(n)[1..] == Numeral(-n, base);
    } else {
      UnsignedRoundTrip(n, base, TWO63);
    }
  }

  // ----- hexadecimal byte strings

  function EncodeHex(b: Bytes): (s: Bytes)
    ensures |s| == 2 * |b|
  {
    if b == [] then [] else [DigitChar(b[0] / 16), DigitChar(b[0] % 16)] + EncodeHex(b[1..])
  }

  /** `hex.DecodeString`: an even number of digits of either case. */
  function DecodeHex(s: Bytes): (r: Option<Bytes>)
    ensures r.Some? ==> |s| == 2 * |r.value|
  {
    if s == [] then Some([])
    else if |s| == 1 then None
    else match (DigitValue(s[0]), DigitValue(s[1]), DecodeHex(s[2..]))
         case (Some(high), Some(low), Some(rest)) => Some([16 * high + low] + rest)
         case _ => None
  }

  lemma {:induction false} HexRoundTrip(b: Bytes)
    ensures DecodeHex(EncodeHex(b)) == Some(b)
  {
    if b != [] {
      var s := EncodeHex(b);
      assert s[2..] == EncodeHex(b[1..]);
      HexRoundTrip(b[1..]);
      assert b == [b[0]] + b[1..];
    }
  }

  lemma {:induction false} HexDigits(b: Bytes)
    ensures forall c :: c in EncodeHex(b) ==> 48 <= c <= 57 || 97 <= c <= 102
  {
    if b != [] { HexDigits(b[1..]); }
  }

  // ----- cuts

  /** The input split at the first `sep`: what is before it and what is after it. */
  function Cut(s: Bytes, sep: byte): (r: Option<(Bytes, Bytes)>)
    ensures r.Some? ==> |s| == |r.value.0| + 1 + |r.value.1|
  {
    if s == [] then None
    else if s[0] == sep then Some(([], s[1..]))
    else match Cut(s[1..], sep)
         case Some((before, after)) => Some(([s[0]] + before, after))
         case None => None
  }

  lemma {:induction false} CutSplits(s: Bytes, sep: byte)
    ensures match Cut(s, sep)
            case None => sep !in s
            case Some((before, after)) => sep !in before && s == before + [sep] + after
  {
    if s != [] && s[0] != sep {
      assert s == [s[0]] + s[1..];
      CutSplits(s[1..], sep);
    }
  }

  lemma {:induction false} CutAt(before: Bytes, sep: byte, after: Bytes)
    requires sep !in before
    ensures Cut(before + [sep] + after, sep) == Some((before, after))
  {
    var s := before + [sep] + after;
    if before == [] {
      assert s[1..] == after;
    } else {
      assert s[1..] == before[1..] + [sep] + after;
      CutAt(before[1..], sep, after);
      assert before == [before[0]] + before[1..];
    }
  }

  /** The input split at the last `sep`. */
  function CutLast(s: Bytes, sep: byte): (r: Option<(Bytes, Bytes)>)
    ensures r.Some? ==> |s| == |r.value.0| + 1 + |r.value.1|
  {
    if s == [] then None
    else
      var (front, last) := (s[..|s| - 1], s[|s| - 1]);
      if last == sep then Some((front, []))
      else match CutLast(front, sep)
           case Some((before, after)) => Some((before, after + [last]))
           case None => None
  }

  lemma {:induction false} CutLastSplits(s: Bytes, sep: byte)
    ensures match CutLast(s, sep)
            case None => sep !in s
            case Some((before, after)) => sep !in after && s == before + [sep] + after
  {
    if s != [] && s[|s| - 1] != sep {
      var front := s[..|s| - 1];
      assert s == front + [s[|s| - 1]];
      CutLastSplits(front, sep);
    }
  }

  lemma {:induction false} CutLastAt(before: Bytes, sep: byte, after: Bytes)
    requires sep !in after
    ensures CutLast(before + [sep] + after, sep) == Some((before, after))
  {
    var s := before + [sep] + after;
    if after == [] {
      assert s[..|s| - 1] == before;
    } else {
      var front := after[..|after| - 1];
      assert s[..|s| - 1] == before + [sep] + front;
      CutLastAt(before, sep, front);
      assert after == front + [after[|after| - 1]];
    }
  }

  /** `bytes.HasPrefix`. */
  predicate HasPrefix(s: Bytes, p: Bytes) { |p| <= |s| && s[..|p|] == p }

  lemma DiffersAt(s: Bytes, p: Bytes, k: nat)
    requires k < |s| && k < |p| && s[k] != p[k]
    ensures !HasPrefix(s, p)
  {
    assert |p| <= |s| ==> s[..|p|][k] == s[k];
  }

  lemma NotInParts<T>(x: T, a: seq<T>, b: seq<T>, c: seq<T>)
    ensures x !in a + b + c <==> x !in a && x !in b && x !in c
  {
  }

  // ----- trimming

  /** Trailing members of `blanks` dropped. */
  function TrimRight(s: Bytes, blanks: set<byte>): (r: Bytes)
    ensures r <= s && (r != [] ==> r[|r| - 1] !in blanks)
  {
    if s != [] && s[|s| - 1] in blanks then TrimRight(s[..|s| - 1], blanks) else s
  }

  /** Only blanks are trimmed: what remains keeps its ends. */
  lemma {:induction false} TrimRightBlanks(s: Bytes, blanks: set<byte>, t: Bytes)
    requires forall c :: c in t ==> c in blanks
    requires s == [] || s[|s| - 1] !in blanks
    ensures TrimRight(s + t, blanks) == s
  {
    if t == [] {
      assert s + t == s;
    } else {
      assert (s + t)[..|s + t| - 1] == s + t[..|t| - 1];
      TrimRightBlanks(s, blanks, t[..|t| - 1]);
    }
  }

  // ----- white space

  /** The white space of one, two and three bytes in UTF-8: the six ASCII blanks, U+0085
      and U+00A0, and then U+1680, U+2000 to U+200A, U+2028, U+2029, U+202F, U+205F and
      U+3000. */
  predicate Space1(a: byte) { a == 32 || 9 <= a <= 13 }

  predicate Space2(a: byte, b: byte) { a == 0xC2 && (b == 0x85 || b == 0xA0) }

  predicate Space3(a: byte, b: byte, c: byte) {
    || (a == 0xE1 && b == 0x9A && c == 0x80)
    || (a == 0xE2 && b == 0x80 && (0x80 <= c <= 0x8A || c == 0xA8 || c == 0xA9 || c == 0xAF))
    || (a == 0xE2 && b == 0x81 && c == 0x9F)
    || (a == 0xE3 && b == 0x80 && c == 0x80)
  }

  /** How many bytes of white space the text starts with, zero to three. */
  function SpaceInFront(s: Bytes): (n: nat)
    ensures n <= |s|
  {
    if |s| >= 1 && Space1(s[0]) then 1
    else if |s| >= 2 && Space2(s[0], s[1]) then 2
    else if |s| >= 3 && Space3(s[0], s[1], s[2]) then 3
    else 0
  }

  /** And how many it ends with. */
  function SpaceBehind(s: Bytes): (n: nat)
    ensures n <= |s|
  {
    var k := |s|;
    if k >= 1 && Space1(s[k - 1]) then 1
    else if k >= 2 && Space2(s[k - 2], s[k - 1]) then 2
    else if k >= 3 && Space3(s[k - 3], s[k - 2], s[k - 1]) then 3
    else 0
  }

  /** How many bytes of white space are in front, and behind, altogether. */
  function LeftSpace(s: Bytes): (n: nat)
    ensures n <= |s|
    decreases |s|
  {
    var n := SpaceInFront(s);
    if n == 0 then 0 else n + LeftSpace(s[n..])
  }

  function RightSpace(s: Bytes): (n: nat)
    ensures n <= |s|
    decreases |s|
  {
    var n := SpaceBehind(s);
    if n == 0 then 0 else n + RightSpace(s[..|s| - n])
  }

  function TrimSpaceLeft(s: Bytes): Bytes { s[LeftSpace(s)..] }

  function TrimSpaceRight(s: Bytes): Bytes { s[..|s| - RightSpace(s)] }

  /** `strings.TrimSpace`. */
  function TrimSpace(s: Bytes): Bytes { TrimSpaceRight(TrimSpaceLeft(s)) }

  predicate NoOuterSpace(s: Bytes) { SpaceInFront(s) == 0 && SpaceBehind(s) == 0 }

  lemma {:induction false} LeftTrimmed(s: Bytes)
    ensures SpaceInFront(TrimSpaceLeft(s)) == 0
    decreases |s|
  {
    var n := SpaceInFront(s);
    if n > 0 {
      LeftTrimmed(s[n..]);
      DropTwice(s, n, LeftSpace(s[n..]));
    }
  }

  lemma {:induction false} RightTrimmed(s: Bytes)
    ensures SpaceBehind(TrimSpaceRight(s)) == 0
    decreases |s|
  {
    var n := SpaceBehind(s);
    if n > 0 {
      var front := s[..|s| - n];
      RightTrimmed(front);
      assert TrimSpaceRight(front) == TrimSpaceRight(s);
    }
  }

  /** Trimming leaves no white space at either end, and only takes bytes away there. */
  lemma TrimSpaceTrims(s: Bytes)
    ensures NoOuterSpace(TrimSpace(s))
    ensures exists i, j :: 0 <= i <= j <= |s| && TrimSpace(s) == s[i..j]
  {
    var t, i := TrimSpaceLeft(s), LeftSpace(s);
    LeftTrimmed(s);
    RightTrimmed(t);
    FrontKept(t, |t| - RightSpace(t));
    assert TrimSpace(s) == s[i..i + |t| - RightSpace(t)];
  }

  /** What starts without white space does so however much is cut off behind. */
  lemma FrontKept(s: Bytes, n: nat)
    requires n <= |s| && SpaceInFront(s) == 0
    ensures SpaceInFront(s[..n]) == 0
  {
  }

  /** A blank put in front of or behind a text without outer white space is trimmed away,
      and nothing else. */
  lemma TrimOneBlank(s: Bytes, b: byte)
    requires NoOuterSpace(s) && Space1(b)
    ensures TrimSpace([b] + s) == s == TrimSpace(s + [b])
  {
    var front, back := [b] + s, s + [b];
    assert TrimSpaceLeft(s) == s == TrimSpaceRight(s);
    assert front[1..] == s && SpaceInFront(front) == 1;
    assert TrimSpaceLeft(front) == s;
    assert back[..|s|] == s && SpaceBehind(back) == 1;
    assert TrimSpaceRight(back) == s;
    if s == [] {
      assert back == front;
    } else {
      assert back[0] == s[0] && (|s| > 1 ==> back[1] == s[1]) && SpaceInFront(back) == 0;
    }
  }

  // ----- lines

  /** The input split at every newline: one more line than there are newlines. */
  function Lines(s: Bytes): (r: seq<Bytes>)
    ensures r != []
    decreases |s|
  {
    match Cut(s, NEWLINE)
    case None => [s]
    case Some((first, rest)) => [first] + Lines(rest)
  }

  /** The lines joined by newlines. */
  function JoinLines(lines: seq<Bytes>): Bytes {
    if lines == [] then []
    else if |lines| == 1 then lines[0]
    else lines[0] + [NEWLINE] + JoinLines(lines[1..])
  }

  lemma {:induction false} JoinSplit(s: Bytes)
    ensures JoinLines(Lines(s)) == s
    decreases |s|
  {
    match Cut(s, NEWLINE)
    case None =>
    case Some((first, rest)) =>
      CutSplits(s, NEWLINE);
      JoinSplit(rest);
      assert Lines(s)[1..] == Lines(rest);
  }
}
