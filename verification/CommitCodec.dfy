/** Commit objects as bytes: building them, signing them and parsing them back. */
module CommitCodec {
  import opened GitTypes
  import opened ByteText

  // ----- identities

  const LESS: byte := 60
  const GREATER: byte := 62

  datatype CommitError = BadIdentity | BadTime | BadZone | BadHash

  /** A sign and two numbers of two characters, at most 23 and 59. */
  predicate ValidZone(zone: Bytes) {
    |zone| == 5 && (zone[0] == PLUS || zone[0] == MINUS) &&
    var hours, minutes := ParseInt64(zone[1..3]), ParseInt64(zone[3..5]);
    hours.Some? && hours.value <= 23 && minutes.Some? && minutes.value <= 59
  }

  function FormatTime(seconds: int, zone: Bytes): Bytes { FormatInt(seconds) + [SPACE] + zone }

  function FormatIdentity(p: Person): Bytes {
    p.name + [SPACE] + [LESS] + p.email + [GREATER] + ([SPACE] + FormatTime(p.timestamp, p.timezone))
  }

  function ParseTime(name: Bytes, email: Bytes, time: Bytes): Result<Person, CommitError> {
    match Cut(time, SPACE)
    case None => Err(BadTime)
    case Some((seconds, zone)) =>
      if SPACE in zone || ParseInt64(seconds).None? then Err(BadTime)
      else if !ValidZone(zone) then Err(BadZone)
      else Ok(Person(name, email, ParseInt64(seconds).value, zone))
  }

  function ParseIdentity(s: Bytes): Result<Person, CommitError> {
    match CutLast(s, GREATER)
    case None => Err(BadIdentity)
    case Some((front, after)) =>
      match CutLast(front, LESS)
      case None => Err(BadIdentity)
      case Some((name, email)) => ParseTime(TrimSpace(name), email, TrimSpace(after))
  }

  /** What an identity must be to survive being written and read. */
  predicate Normal(p: Person) {
    NoOuterSpace(p.name) && LESS !in p.email && FitsInt64(p.timestamp) && ValidZone(p.timezone)
  }

  lemma {:induction false} DigitsOnly(s: Bytes, base: nat)
    requires NumeralValue(s, base).Some? && base <= 10
    ensures forall c :: c in s ==> 48 <= c <= 57
  {
    if s != [] {
      DigitsOnly(s[..|s| - 1], base);
      assert s == s[..|s| - 1] + [s[|s| - 1]];
    }
  }

  lemma NumberCharacters(s: Bytes)
    requires ParseInt64(s).Some?
    ensures forall c :: c in s ==> 48 <= c <= 57 || c == PLUS || c == MINUS
  {
    var digits := if s[0] == MINUS || s[0] == PLUS then s[1..] else s;
    var base := 10;
    assert s[0] != MINUS && s[0] != PLUS ==> digits == s;
    DigitsOnly(digits, base);
    if s[0] == MINUS || s[0] == PLUS { assert s == [s[0]] + digits; }
  }

  lemma ZoneCharacters(zone: Bytes)
    requires ValidZone(zone)
    ensures forall c :: c in zone ==> 48 <= c <= 57 || c == PLUS || c == MINUS
  {
    NumberCharacters(zone[1..3]);
    NumberCharacters(zone[3..5]);
    assert zone == [zone[0]] + zone[1..3] + zone[3..5];
  }

  lemma TimeCharacters(seconds: int, zone: Bytes)
    requires ValidZone(zone)
    ensures var time := FormatTime(seconds, zone);
            GREATER !in time && NEWLINE !in time && NoOuterSpace(time)
  {
    ZoneCharacters(zone);
    IntDigits(seconds);
    var digits := FormatInt(seconds);
    assert digits[0] in digits && zone[4] in zone;
  }

  lemma TimeRoundTrip(p: Person)
    requires FitsInt64(p.timestamp) && ValidZone(p.timezone)
    ensures ParseTime(p.name, p.email, FormatTime(p.timestamp, p.timezone)) == Ok(p)
  {
    IntDigits(p.timestamp);
    CutAt(FormatInt(p.timestamp), SPACE, p.timezone);
    FormatIntRoundTrip(p.timestamp);
    ZoneCharacters(p.timezone);
  }

  lemma PartsParse(name: Bytes, email: Bytes, after: Bytes)
    requires LESS !in email && GREATER !in after
    ensures ParseIdentity(name + [LESS] + email + [GREATER] + after) ==
            ParseTime(TrimSpace(name), email, TrimSpace(after))
  {
    CutLastAt(name + [LESS] + email, GREATER, after);
    CutLastAt(name, LESS, email);
  }

  lemma FormatParses(p: Person)
    requires Normal(p)
    ensures ParseIdentity(FormatIdentity(p)) == Ok(p)
  {
    var time := FormatTime(p.timestamp, p.timezone);
    TimeCharacters(p.timestamp, p.timezone);
    PartsParse(p.name + [SPACE], p.email, [SPACE] + time);
    TrimOneBlank(p.name, SPACE);
    TrimOneBlank(time, SPACE);
    TimeRoundTrip(p);
  }

  lemma NumberFits(s: Bytes)
    requires ParseInt64(s).Some?
    ensures FitsInt64(ParseInt64(s).value)
  {
  }

  lemma ParsedTime(name: Bytes, email: Bytes, time: Bytes)
    requires ParseTime(name, email, time).Ok?
    ensures var p := ParseTime(name, email, time).value;
            p.name == name && p.email == email && FitsInt64(p.timestamp) && ValidZone(p.timezone)
  {
    NumberFits(Cut(time, SPACE).value.0);
  }

  /** Whatever parses is in normal form. */
  lemma ParsedIsNormal(s: Bytes)
    requires ParseIdentity(s).Ok?
    ensures Normal(ParseIdentity(s).value)
  {
    var (front, after) := CutLast(s, GREATER).value;
    var (name, email) := CutLast(front, LESS).value;
    CutLastSplits(front, LESS);
    TrimSpaceTrims(name);
    ParsedTime(TrimSpace(name), email, TrimSpace(after));
  }

  lemma ParsedFromOneLine(s: Bytes)
    requires ParseIdentity(s).Ok? && NEWLINE !in s
    ensures NEWLINE !in ParseIdentity(s).value.name && NEWLINE !in ParseIdentity(s).value.email
  {
    var (front, after) := CutLast(s, GREATER).value;
    var (name, email) := CutLast(front, LESS).value;
    CutLastSplits(s, GREATER);
    NotInParts(NEWLINE, front, [GREATER], after);
    CutLastSplits(front, LESS);
    NotInParts(NEWLINE, name, [LESS], email);
    TrimSpaceTrims(name);
    ParsedTime(TrimSpace(name), email, TrimSpace(after));
  }

  /** An identity reads back as written exactly when it is in normal form. */
  lemma IdentityRoundTripIff(p: Person)
    ensures ParseIdentity(FormatIdentity(p)) == Ok(p) <==> Normal(p)
  {
    if Normal(p) { FormatParses(p); }
    if ParseIdentity(FormatIdentity(p)) == Ok(p) { ParsedIsNormal(FormatIdentity(p)); }
  }

  // ----- commits

  type Digest = b: Bytes | |b| == 20 witness [0, 0, 0, 0, 0, 0, 0, 0, 0, 0, 0, 0, 0, 0, 0, 0, 0, 0, 0, 0]

  const ZERO_DIGEST: Digest := [0, 0, 0, 0, 0, 0, 0, 0, 0, 0, 0, 0, 0, 0, 0, 0, 0, 0, 0, 0]

  datatype Commit = Commit(tree: Digest, parent: Digest, author: Option<Person>, committer: Option<Person>,
                           message: Bytes, signature: Bytes, fields: map<Bytes, Bytes>)

  const EMPTY_COMMIT := Commit(ZERO_DIGEST, ZERO_DIGEST, None, None, [], [], map[])

  const TREE: Bytes := [116, 114, 101, 101]
  const PARENT: Bytes := [112, 97, 114, 101, 110, 116]
  const AUTHOR: Bytes := [97, 117, 116, 104, 111, 114]
  const COMMITTER: Bytes := [99, 111, 109, 109, 105, 116, 116, 101, 114]
  const GPGSIG: Bytes := [103, 112, 103, 115, 105, 103]

  /** Every newline followed by a space, as continuation lines are folded. */
  function Indent(s: Bytes): Bytes {
    if s == [] then []
    else if s[0] == NEWLINE then [NEWLINE, SPACE] + Indent(s[1..])
    else [s[0]] + Indent(s[1..])
  }

  function HeaderLine(key: Bytes, value: Bytes): Bytes { key + [SPACE] + value + [NEWLINE] }

  function SignatureHeader(signature: Bytes): Bytes {
    if signature == [] then [] else HeaderLine(GPGSIG, Indent(signature))
  }

  function ParentHeader(parent: Digest): Bytes {
    if parent == ZERO_DIGEST then [] else HeaderLine(PARENT, EncodeHex(parent))
  }

  function BuildWith(c: Commit, signature: Bytes): Bytes
    requires c.author.Some? && c.committer.Some?
  {
    HeaderLine(TREE, EncodeHex(c.tree)) +
    (ParentHeader(c.parent) +
     (HeaderLine(AUTHOR, FormatIdentity(c.author.value)) +
      (HeaderLine(COMMITTER, FormatIdentity(c.committer.value)) +
       (SignatureHeader(signature) + ([NEWLINE] + c.message)))))
  }

  function Build(c: Commit): Bytes
    requires c.author.Some? && c.committer.Some?
  {
    BuildWith(c, c.signature)
  }

  /** The commit without its signature header: what gets signed. */
  function BuildUnsigned(c: Commit): Bytes
    requires c.author.Some? && c.committer.Some?
  {
    BuildWith(c, [])
  }

  // ----- parsing

  /** The state of the header loop: the commit so far, the signature's lines, and
      the last header seen. */
  datatype Parsing = Parsing(commit: Commit, lines: seq<Bytes>, header: Bytes)

  /** Twenty bytes in hexadecimal; nothing at all stands for the zero hash. */
  function HashFromHex(s: Bytes): Option<Digest> {
    if s == [] then Some(ZERO_DIGEST)
    else if |s| != 40 || DecodeHex(s).None? then None
    else Some(DecodeHex(s).value)
  }

  function CommitField(c: Commit, command: Bytes, data: Bytes): Result<Commit, CommitError> {
    if command == COMMITTER then
      match ParseIdentity(data)
      case Err(e) => Err(e)
      case Ok(p) => Ok(c.(committer := Some(p)))
    else if command == TREE then
      match HashFromHex(data)
      case None => Err(BadHash)
      case Some(h) => Ok(c.(tree := h))
    else if command == AUTHOR then
      match ParseIdentity(data)
      case Err(e) => Err(e)
      case Ok(p) => Ok(c.(author := Some(p)))
    else if command == PARENT then
      match HashFromHex(data)
      case None => Err(BadHash)
      case Some(h) => Ok(c.(parent := h))
    else Ok(c.(fields := c.fields[command := data]))
  }

  /** `bytes.Cut` at a space: without one, everything is the command. */
  function CutWord(raw: Bytes): (Bytes, Bytes) {
    match Cut(raw, SPACE)
    case None => (raw, [])
    case Some(parts) => parts
  }

  function ParseHeader(st: Parsing, raw: Bytes): Result<Parsing, CommitError> {
    if raw != [] && raw[0] == SPACE then
      Ok(if st.header == GPGSIG then st.(lines := st.lines + [raw[1..]]) else st)
    else
      var (command, data) := CutWord(raw);
      if command == GPGSIG then Ok(st.(lines := st.lines + [data], header := command))
      else match CommitField(st.commit, command, data)
           case Err(e) => Err(e)
           case Ok(c) => Ok(st.(commit := c, header := command))
  }

  /** The next line, without its newline, and what follows it. */
  function NextLine(data: Bytes): (r: (Bytes, Bytes))
    ensures |r.1| <= |data| && (data != [] ==> |r.1| < |data|)
  {
    match Cut(data, NEWLINE)
    case None => (data, [])
    case Some(parts) => parts
  }

  lemma NextLineSplits(data: Bytes)
    ensures NEWLINE !in NextLine(data).0 && NextLine(data).1 == data[|data| - |NextLine(data).1|..]
  {
    CutSplits(data, NEWLINE);
  }

  /** Lines up to the first empty one, each a step; the rest is the message. */
  function ParseLines<S, E>(data: Bytes, st: S, step: (S, Bytes) -> Result<S, E>): Result<(S, Bytes), E>
    decreases |data|
  {
    if data == [] then Ok((st, []))
    else
      var (raw, rest) := NextLine(data);
      if raw == [] then Ok((st, rest))
      else match step(st, raw)
           case Err(e) => Err(e)
           case Ok(next) => ParseLines(rest, next, step)
  }

  const START := Parsing(EMPTY_COMMIT, [], [])

  function ParsedCommit(data: Bytes): Result<Commit, CommitError> {
    match ParseLines(data, START, ParseHeader)
    case Err(e) => Err(e)
    case Ok((st, message)) => Ok(st.commit.(message := message, signature := JoinLines(st.lines)))
  }

  lemma MoveFront<T>(a: seq<T>, b: seq<T>, n: nat)
    requires n <= |b|
    ensures (a + b[..n]) + b[n..] == a + b
  {
  }

  /** The line loop: the first empty line switches it from headers to the message. */
  method ParseCommit(data: Bytes) returns (r: Result<Commit, CommitError>)
    ensures r == ParsedCommit(data)
  {
    var st, message: Bytes, writingMessage := START, [], false;
    var rest := data;
    while rest != []
      invariant !writingMessage ==> message == []
      invariant !writingMessage ==> ParseLines(data, START, ParseHeader) == ParseLines(rest, st, ParseHeader)
      invariant writingMessage ==> ParseLines(data, START, ParseHeader) == Ok((st, message + rest))
      decreases |rest|
    {
      var (raw, next) := NextLine(rest);
      if writingMessage {
        NextLineSplits(rest);
        MoveFront(message, rest, |rest| - |next|);
        message := message + rest[..|rest| - |next|];
      } else if raw == [] {
        writingMessage := true;
        assert message + next == next;
      } else {
        var step := ParseHeader(st, raw);
        if step.Err? { return Err(step.error); }
        st := step.value;
      }
      rest := next;
    }
    assert message + [] == message;
    r := Ok(st.commit.(message := message, signature := JoinLines(st.lines)));
  }

  // ----- building and parsing undo each other

  /** Lines one after the other, each ended by a newline. */
  function Block(lines: seq<Bytes>): Bytes {
    if lines == [] then [] else lines[0] + [NEWLINE] + Block(lines[1..])
  }

  /** The steps of all lines in turn. */
  function Steps<S, E>(st: S, lines: seq<Bytes>, step: (S, Bytes) -> Result<S, E>): Result<S, E> {
    if lines == [] then Ok(st)
    else match step(st, lines[0])
         case Err(e) => Err(e)
         case Ok(next) => Steps(next, lines[1..], step)
  }

  lemma {:induction false} BlockAppend(a: seq<Bytes>, b: seq<Bytes>)
    ensures Block(a + b) == Block(a) + Block(b)
  {
    if a == [] {
      assert a + b == b;
    } else {
      assert (a + b)[1..] == a[1..] + b;
      BlockAppend(a[1..], b);
    }
  }

  lemma {:induction false} StepsAppend<S, E>(st: S, a: seq<Bytes>, b: seq<Bytes>, step: (S, Bytes) -> Result<S, E>)
    requires Steps(st, a, step).Ok?
    ensures Steps(st, a + b, step) == Steps(Steps(st, a, step).value, b, step)
  {
    if a == [] {
      assert a + b == b;
    } else {
      assert (a + b)[1..] == a[1..] + b;
      StepsAppend(step(st, a[0]).value, a[1..], b, step);
    }
  }

  lemma LineAt(line: Bytes, rest: Bytes)
    requires NEWLINE !in line
    ensures NextLine(line + [NEWLINE] + rest) == (line, rest)
  {
    CutAt(line, NEWLINE, rest);
  }

  predicate HeaderText(line: Bytes) { line != [] && NEWLINE !in line }

  predicate AllText(lines: seq<Bytes>) { forall l :: l in lines ==> HeaderText(l) }

  /** A block of header lines, an empty line and a message parse as the lines' steps. */
  lemma {:induction false} BlockParses<S, E>(lines: seq<Bytes>, message: Bytes, st: S, step: (S, Bytes) -> Result<S, E>)
    requires AllText(lines)
    ensures ParseLines(Block(lines) + ([NEWLINE] + message), st, step) ==
            match Steps(st, lines, step)
            case Err(e) => Err(e)
            case Ok(end) => Ok((end, message))
  {
    if lines == [] {
      assert Block(lines) + ([NEWLINE] + message) == [] + [NEWLINE] + message;
      LineAt([], message);
    } else {
      var rest := Block(lines[1..]) + ([NEWLINE] + message);
      assert Block(lines) + ([NEWLINE] + message) == lines[0] + [NEWLINE] + rest;
      assert HeaderText(lines[0]);
      LineAt(lines[0], rest);
      if step(st, lines[0]).Ok? { BlockParses(lines[1..], message, step(st, lines[0]).value, step); }
    }
  }

  // ----- which headers count

  /** What a commit says under a header's name. */
  datatype FieldValue = OfHash(digest: Digest) | OfPerson(person: Option<Person>) | OfText(text: Option<Bytes>)

  function FieldOf(c: Commit, key: Bytes): FieldValue {
    if key == TREE then OfHash(c.tree)
    else if key == PARENT then OfHash(c.parent)
    else if key == AUTHOR then OfPerson(c.author)
    else if key == COMMITTER then OfPerson(c.committer)
    else OfText(if key in c.fields then Some(c.fields[key]) else None)
  }

  /** What a header line with this name means: a hash of forty digits, or the zero hash
      if there is nothing; a person; or the data itself. */
  function Meaning(key: Bytes, data: Bytes): Option<FieldValue> {
    if key == TREE || key == PARENT then
      if data == [] then Some(OfHash(ZERO_DIGEST))
      else if |data| == 40 && DecodeHex(data).Some? then Some(OfHash(DecodeHex(data).value))
      else None
    else if key == AUTHOR || key == COMMITTER then
      match ParseIdentity(data)
      case Err(_) => None
      case Ok(p) => Some(OfPerson(Some(p)))
    else Some(OfText(Some(data)))
  }

  /** The data of the last line with that name; a line that starts with a space
      continues another one. */
  function LastNamed(lines: seq<Bytes>, key: Bytes): Option<Bytes> {
    if lines == [] then None
    else
      var later := LastNamed(lines[1..], key);
      if later.Some? then later
      else if lines[0] != [] && lines[0][0] != SPACE && CutWord(lines[0]).0 == key then Some(CutWord(lines[0]).1)
      else None
  }

  lemma {:induction false} LastStepCounts(st: Parsing, lines: seq<Bytes>, key: Bytes)
    requires key != GPGSIG && AllText(lines) && Steps(st, lines, ParseHeader).Ok?
    ensures var end := Steps(st, lines, ParseHeader).value.commit;
            match LastNamed(lines, key)
            case None => FieldOf(end, key) == FieldOf(st.commit, key)
            case Some(data) => Meaning(key, data) == Some(FieldOf(end, key))
    decreases lines
  {
    if lines != [] {
      assert HeaderText(lines[0]);
      HeaderSets(st, lines[0], key);
      LastStepCounts(ParseHeader(st, lines[0]).value, lines[1..], key);
    }
  }

  lemma Keywords()
    ensures TREE != PARENT && TREE != AUTHOR && TREE != COMMITTER
    ensures PARENT != AUTHOR && PARENT != COMMITTER && AUTHOR != COMMITTER
  {
    assert PARENT[0] != AUTHOR[0];
  }

  /** `next` says under `key` what the header means, if it is that one's, or what `c` says. */
  predicate Sets(c: Commit, command: Bytes, data: Bytes, next: Commit, key: Bytes) {
    if command == key then Meaning(key, data) == Some(FieldOf(next, key)) else FieldOf(next, key) == FieldOf(c, key)
  }

  lemma HashFieldSets(c: Commit, command: Bytes, data: Bytes, key: Bytes)
    requires (command == TREE || command == PARENT) && CommitField(c, command, data).Ok?
    ensures Sets(c, command, data, CommitField(c, command, data).value, key)
  {
    Keywords();
    var h := HashFromHex(data).value;
    assert CommitField(c, command, data).value == if command == TREE then c.(tree := h) else c.(parent := h);
  }

  lemma PersonFieldSets(c: Commit, command: Bytes, data: Bytes, key: Bytes)
    requires (command == AUTHOR || command == COMMITTER) && CommitField(c, command, data).Ok?
    ensures Sets(c, command, data, CommitField(c, command, data).value, key)
  {
    Keywords();
    var p := ParseIdentity(data).value;
    assert CommitField(c, command, data).value ==
      if command == AUTHOR then c.(author := Some(p)) else c.(committer := Some(p));
  }

  lemma OtherFieldSets(c: Commit, command: Bytes, data: Bytes, key: Bytes)
    requires command != TREE && command != PARENT && command != AUTHOR && command != COMMITTER
    ensures Sets(c, command, data, CommitField(c, command, data).value, key)
  {
    assert CommitField(c, command, data).value == c.(fields := c.fields[command := data]);
  }

  lemma HeaderSets(st: Parsing, line: Bytes, key: Bytes)
    requires key != GPGSIG && line != [] && ParseHeader(st, line).Ok?
    ensures var next := ParseHeader(st, line).value.commit;
            if line[0] != SPACE && CutWord(line).0 == key
            then Meaning(key, CutWord(line).1) == Some(FieldOf(next, key))
            else FieldOf(next, key) == FieldOf(st.commit, key)
  {
    var (command, data) := CutWord(line);
    if line[0] != SPACE && command != GPGSIG {
      if command == TREE || command == PARENT {
        HashFieldSets(st.commit, command, data, key);
      } else if command == AUTHOR || command == COMMITTER {
        PersonFieldSets(st.commit, command, data, key);
      } else {
        OtherFieldSets(st.commit, command, data, key);
      }
    }
  }

  /** Of several headers with one name the last one counts, parents and headers of any
      other name included; a name without a header is unset; and the message is what
      follows the empty line. */
  lemma LastHeaderCounts(lines: seq<Bytes>, message: Bytes, key: Bytes)
    requires key != GPGSIG && AllText(lines)
    requires ParsedCommit(Block(lines) + ([NEWLINE] + message)).Ok?
    ensures var c := ParsedCommit(Block(lines) + ([NEWLINE] + message)).value;
            c.message == message &&
            match LastNamed(lines, key)
            case None => FieldOf(c, key) == FieldOf(EMPTY_COMMIT, key)
            case Some(data) => Meaning(key, data) == Some(FieldOf(c, key))
  {
    BlockParses(lines, message, START, ParseHeader);
    LastStepCounts(START, lines, key);
  }

  lemma {:induction false} LastNamedAppend(a: seq<Bytes>, b: seq<Bytes>, key: Bytes)
    ensures LastNamed(a + b, key) == if LastNamed(b, key).Some? then LastNamed(b, key) else LastNamed(a, key)
  {
    if a == [] {
      assert a + b == b;
    } else {
      assert (a + b)[0] == a[0] && (a + b)[1..] == a[1..] + b;
      LastNamedAppend(a[1..], b, key);
    }
  }

  lemma OnlyLine(line: Bytes, key: Bytes)
    requires line != [] && line[0] != SPACE && CutWord(line).0 == key
    ensures LastNamed([line], key) == Some(CutWord(line).1)
  {
    var lines := [line];
    assert lines[1..] == [];
  }

  /** So of several parents the last one is read, wherever it stands. */
  lemma LastParentWins(before: seq<Bytes>, parent: Digest, after: seq<Bytes>, message: Bytes)
    requires LastNamed(after, PARENT).None?
    requires var lines := before + [Header(PARENT, EncodeHex(parent))] + after;
             AllText(lines) && ParsedCommit(Block(lines) + ([NEWLINE] + message)).Ok?
    ensures var lines := before + [Header(PARENT, EncodeHex(parent))] + after;
            ParsedCommit(Block(lines) + ([NEWLINE] + message)).value.parent == parent
  {
    var line := Header(PARENT, EncodeHex(parent));
    FieldNames();
    Keywords();
    CutAt(PARENT, SPACE, EncodeHex(parent));
    HexHash(parent);
    assert line[0] == PARENT[0] && PARENT[0] in PARENT;
    OnlyLine(line, PARENT);
    LastNamedAppend(before, [line], PARENT);
    LastNamedAppend(before + [line], after, PARENT);
    LastHeaderCounts(before + [line] + after, message, PARENT);
  }

  /** And every header with a name of its own is kept, with its last data. */
  lemma OtherHeadersKept(lines: seq<Bytes>, message: Bytes, key: Bytes)
    requires key !in {TREE, PARENT, AUTHOR, COMMITTER, GPGSIG} && AllText(lines)
    requires ParsedCommit(Block(lines) + ([NEWLINE] + message)).Ok?
    ensures var fields := ParsedCommit(Block(lines) + ([NEWLINE] + message)).value.fields;
            match LastNamed(lines, key)
            case None => key !in fields
            case Some(data) => key in fields && fields[key] == data
  {
    LastHeaderCounts(lines, message, key);
  }

  /** The lines a built commit consists of before its message. */
  function Header(key: Bytes, value: Bytes): Bytes { key + [SPACE] + value }

  function Continued(lines: seq<Bytes>): seq<Bytes> {
    if lines == [] then [] else [[SPACE] + lines[0]] + Continued(lines[1..])
  }

  function SignatureLines(signature: Bytes): seq<Bytes> {
    if signature == [] then []
    else [Header(GPGSIG, Lines(signature)[0])] + Continued(Lines(signature)[1..])
  }

  function ParentLines(parent: Digest): seq<Bytes> {
    if parent == ZERO_DIGEST then [] else [Header(PARENT, EncodeHex(parent))]
  }

  function HeaderLines(c: Commit): seq<Bytes>
    requires c.author.Some? && c.committer.Some?
  {
    [Header(TREE, EncodeHex(c.tree))] + ParentLines(c.parent) +
    [Header(AUTHOR, FormatIdentity(c.author.value)), Header(COMMITTER, FormatIdentity(c.committer.value))] +
    SignatureLines(c.signature)
  }

  lemma {:induction false} IndentCut(s: Bytes)
    ensures match Cut(s, NEWLINE)
            case None => Indent(s) == s
            case Some((a, b)) => Indent(s) == a + [NEWLINE, SPACE] + Indent(b)
  {
    if s != [] && s[0] != NEWLINE {
      IndentCut(s[1..]);
      match Cut(s[1..], NEWLINE)
      case None =>
        assert s == [s[0]] + s[1..];
      case Some((a, b)) =>
        assert [s[0]] + (a + [NEWLINE, SPACE] + Indent(b)) == ([s[0]] + a) + [NEWLINE, SPACE] + Indent(b);
    }
  }

  lemma Regroup<T>(front: seq<T>, a: seq<T>, newline: seq<T>, space: seq<T>, x: seq<T>)
    ensures front + (a + (newline + space) + x) + newline == front + a + newline + (space + x + newline)
  {
  }

  /** Folding a text after `front` gives its lines, all but the first one continued. */
  lemma {:induction false} IndentIsContinued(front: Bytes, s: Bytes)
    ensures front + Indent(s) + [NEWLINE] == Block([front + Lines(s)[0]] + Continued(Lines(s)[1..]))
    decreases |s|
  {
    IndentCut(s);
    var lines := [front + Lines(s)[0]] + Continued(Lines(s)[1..]);
    match Cut(s, NEWLINE)
    case None =>
      assert lines == [front + s];
      assert Block(lines) == front + s + [NEWLINE] + Block([]);
    case Some((a, b)) =>
      assert [NEWLINE, SPACE] == [NEWLINE] + [SPACE];
      Regroup(front, a, [NEWLINE], [SPACE], Indent(b));
      IndentIsContinued([SPACE], b);
      assert Lines(s)[1..] == Lines(b) && lines[1..] == Continued(Lines(b));
      assert Continued(Lines(b)) == [[SPACE] + Lines(b)[0]] + Continued(Lines(b)[1..]);
  }

  lemma SignatureIsLines(signature: Bytes)
    ensures SignatureHeader(signature) == Block(SignatureLines(signature))
  {
    if signature != [] { IndentIsContinued(GPGSIG + [SPACE], signature); }
  }

  lemma OneLine(line: Bytes)
    ensures Block([line]) == line + [NEWLINE]
  {
    assert [line][1..] == [];
  }

  lemma FivePieces<T>(a: seq<T>, b: seq<T>, c: seq<T>, d: seq<T>, e: seq<T>)
    ensures a + b + c + d + e == a + (b + (c + (d + e)))
  {
  }

  lemma FourBlocks(a: seq<Bytes>, b: seq<Bytes>, c: seq<Bytes>, d: seq<Bytes>, rest: Bytes)
    ensures Block(a + b + c + d) + rest == Block(a) + (Block(b) + (Block(c) + (Block(d) + rest)))
  {
    BlockAppend(a + b + c, d);
    BlockAppend(a + b, c);
    BlockAppend(a, b);
    FivePieces(Block(a), Block(b), Block(c), Block(d), rest);
  }

  lemma TwoLines(x: Bytes, y: Bytes, rest: Bytes)
    ensures Block([x, y]) + rest == x + [NEWLINE] + (y + [NEWLINE] + rest)
  {
    OneLine(y);
    assert [x, y][1..] == [y];
  }

  /** What is built is the header lines, an empty line and the message. */
  lemma BuildIsLines(c: Commit)
    requires c.author.Some? && c.committer.Some?
    ensures Build(c) == Block(HeaderLines(c)) + ([NEWLINE] + c.message)
  {
    var tree, author, committer := Header(TREE, EncodeHex(c.tree)), Header(AUTHOR, FormatIdentity(c.author.value)),
                                   Header(COMMITTER, FormatIdentity(c.committer.value));
    FourBlocks([tree], ParentLines(c.parent), [author, committer], SignatureLines(c.signature), [NEWLINE] + c.message);
    SignatureIsLines(c.signature);
    OneLine(tree);
    OneLine(Header(PARENT, EncodeHex(c.parent)));
    TwoLines(author, committer, SignatureHeader(c.signature) + ([NEWLINE] + c.message));
  }

  lemma HexHash(h: Digest)
    ensures HashFromHex(EncodeHex(h)) == Some(h) && NEWLINE !in EncodeHex(h)
  {
    HexRoundTrip(h);
    HexDigits(h);
  }

  /** An identity that also fits on one line. */
  predicate Clean(p: Person) { Normal(p) && NEWLINE !in p.name && NEWLINE !in p.email }

  lemma IdentityLine(p: Person)
    requires Clean(p)
    ensures NEWLINE !in FormatIdentity(p) && ParseIdentity(FormatIdentity(p)) == Ok(p)
  {
    FormatParses(p);
    TimeCharacters(p.timestamp, p.timezone);
    var time := [SPACE] + FormatTime(p.timestamp, p.timezone);
    NotInParts(NEWLINE, p.name, [SPACE], [LESS]);
    NotInParts(NEWLINE, p.name + [SPACE] + [LESS], p.email, [GREATER]);
    NotInParts(NEWLINE, p.name + [SPACE] + [LESS] + p.email, [GREATER], time);
  }

  /** The names of headers that are not the signature. */
  predicate FieldName(key: Bytes) { key != [] && SPACE !in key && key != GPGSIG }

  lemma FieldNames()
    ensures FieldName(TREE) && FieldName(PARENT) && FieldName(AUTHOR) && FieldName(COMMITTER)
  {
    assert TREE[0] != GPGSIG[0] && PARENT[0] != GPGSIG[0] && AUTHOR[0] != GPGSIG[0] && COMMITTER[0] != GPGSIG[0];
  }

  /** One header line is one field. */
  lemma FieldStep(key: Bytes, value: Bytes, st: Parsing)
    requires FieldName(key) && CommitField(st.commit, key, value).Ok?
    ensures ParseHeader(st, Header(key, value)) ==
            Ok(st.(commit := CommitField(st.commit, key, value).value, header := key))
  {
    CutAt(key, SPACE, value);
    assert key[0] in key;
  }

  lemma SignatureStart(line: Bytes, st: Parsing)
    ensures ParseHeader(st, Header(GPGSIG, line)) == Ok(st.(lines := st.lines + [line], header := GPGSIG))
  {
    CutAt(GPGSIG, SPACE, line);
  }

  /** A step that collects continuation lines as long as the signature is open. */
  ghost predicate Collects(step: (Parsing, Bytes) -> Result<Parsing, CommitError>) {
    forall st: Parsing, line: Bytes :: CollectsAt(step, st, line)
  }

  ghost predicate CollectsAt(step: (Parsing, Bytes) -> Result<Parsing, CommitError>, st: Parsing, line: Bytes) {
    st.header == GPGSIG ==> step(st, [SPACE] + line) == Ok(st.(lines := st.lines + [line]))
  }

  lemma ParseHeaderCollects()
    ensures Collects(ParseHeader)
  {
    forall st: Parsing, line: Bytes ensures CollectsAt(ParseHeader, st, line) {
      assert ([SPACE] + line)[1..] == line;
    }
  }

  lemma MoveOne<T>(a: seq<T>, b: seq<T>)
    requires b != []
    ensures a + [b[0]] + b[1..] == a + b
  {
  }

  lemma {:induction false} ContinuedSteps(st: Parsing, lines: seq<Bytes>,
                                          step: (Parsing, Bytes) -> Result<Parsing, CommitError>)
    requires st.header == GPGSIG && Collects(step)
    ensures Steps(st, Continued(lines), step) == Ok(st.(lines := st.lines + lines))
    decreases lines
  {
    if lines == [] {
      assert st.lines + lines == st.lines;
    } else {
      var next := st.(lines := st.lines + [lines[0]]);
      assert CollectsAt(step, st, lines[0]);
      assert Continued(lines)[1..] == Continued(lines[1..]);
      ContinuedSteps(next, lines[1..], step);
      MoveOne(st.lines, lines);
    }
  }

  lemma SignatureSteps(st: Parsing, signature: Bytes)
    requires st.lines == []
    ensures var r := Steps(st, SignatureLines(signature), ParseHeader);
            r.Ok? && r.value.commit == st.commit && JoinLines(r.value.lines) == signature
  {
    if signature != [] {
      var lines := Lines(signature);
      var next := st.(lines := [lines[0]], header := GPGSIG);
      SignatureStart(lines[0], st);
      assert st.lines + [lines[0]] == [lines[0]];
      assert SignatureLines(signature)[1..] == Continued(lines[1..]);
      ParseHeaderCollects();
      ContinuedSteps(next, lines[1..], ParseHeader);
      assert next.lines + lines[1..] == lines;
      JoinSplit(signature);
    }
  }

  lemma OneStep<S, E>(st: S, line: Bytes, step: (S, Bytes) -> Result<S, E>)
    ensures Steps(st, [line], step) == step(st, line)
  {
    assert [line][1..] == [];
    assert step(st, line).Ok? ==> Steps(step(st, line).value, [], step) == Ok(step(st, line).value);
  }

  /** The tree and parent lines, as steps. */
  lemma HashSteps(c: Commit)
    ensures var r := Steps(START, [Header(TREE, EncodeHex(c.tree))] + ParentLines(c.parent), ParseHeader);
            r.Ok? && r.value.lines == [] && r.value.commit == EMPTY_COMMIT.(tree := c.tree, parent := c.parent)
  {
    var tree := Header(TREE, EncodeHex(c.tree));
    FieldNames();
    HexHash(c.tree);
    FieldStep(TREE, EncodeHex(c.tree), START);
    OneStep(START, tree, ParseHeader);
    StepsAppend(START, [tree], ParentLines(c.parent), ParseHeader);
    if c.parent != ZERO_DIGEST {
      var st := ParseHeader(START, tree).value;
      HexHash(c.parent);
      FieldStep(PARENT, EncodeHex(c.parent), st);
      OneStep(st, Header(PARENT, EncodeHex(c.parent)), ParseHeader);
    }
  }

  lemma AuthorField(c: Commit, value: Bytes, p: Person)
    requires ParseIdentity(value) == Ok(p)
    ensures CommitField(c, AUTHOR, value) == Ok(c.(author := Some(p)))
  {
  }

  lemma CommitterField(c: Commit, value: Bytes, p: Person)
    requires ParseIdentity(value) == Ok(p)
    ensures CommitField(c, COMMITTER, value) == Ok(c.(committer := Some(p)))
  {
  }

  lemma TwoSteps<S, E>(st: S, a: Bytes, b: Bytes, first: S, second: S, step: (S, Bytes) -> Result<S, E>)
    requires step(st, a) == Ok(first) && step(first, b) == Ok(second)
    ensures Steps(st, [a, b], step) == Ok(second)
  {
    assert [a, b][1..] == [b];
    OneStep(first, b, step);
  }

  /** The author and committer lines, as steps. */
  lemma PeopleSteps(a: Bytes, b: Bytes, author: Person, committer: Person, st: Parsing)
    requires ParseIdentity(a) == Ok(author) && ParseIdentity(b) == Ok(committer)
    ensures Steps(st, [Header(AUTHOR, a), Header(COMMITTER, b)], ParseHeader) ==
            Ok(st.(commit := st.commit.(author := Some(author), committer := Some(committer)), header := COMMITTER))
  {
    var first := st.(commit := st.commit.(author := Some(author)), header := AUTHOR);
    FieldNames();
    AuthorField(st.commit, a, author);
    FieldStep(AUTHOR, a, st);
    CommitterField(first.commit, b, committer);
    FieldStep(COMMITTER, b, first);
    TwoSteps(st, Header(AUTHOR, a), Header(COMMITTER, b), first,
             first.(commit := first.commit.(committer := Some(committer)), header := COMMITTER), ParseHeader);
  }

  lemma AllTextAppend(a: seq<Bytes>, b: seq<Bytes>)
    requires AllText(a) && AllText(b)
    ensures AllText(a + b)
  {
  }

  lemma HeaderIsText(key: Bytes, value: Bytes)
    requires NEWLINE !in key && NEWLINE !in value
    ensures HeaderText(Header(key, value))
  {
    NotInParts(NEWLINE, key, [SPACE], value);
  }

  lemma HeadersAreText(c: Commit)
    requires c.author.Some? && c.committer.Some? && Clean(c.author.value) && Clean(c.committer.value)
    ensures AllText(HeaderLines(c))
  {
    HexHash(c.tree);
    HexHash(c.parent);
    HeaderIsText(TREE, EncodeHex(c.tree));
    HeaderIsText(PARENT, EncodeHex(c.parent));
    IdentityLine(c.author.value);
    IdentityLine(c.committer.value);
    PeopleAreText(FormatIdentity(c.author.value), FormatIdentity(c.committer.value));
    SignatureIsText(c.signature);
    var people :=
      [Header(AUTHOR, FormatIdentity(c.author.value)), Header(COMMITTER, FormatIdentity(c.committer.value))];
    AllTextAppend([Header(TREE, EncodeHex(c.tree))], ParentLines(c.parent));
    AllTextAppend([Header(TREE, EncodeHex(c.tree))] + ParentLines(c.parent), people);
    AllTextAppend([Header(TREE, EncodeHex(c.tree))] + ParentLines(c.parent) + people, SignatureLines(c.signature));
  }

  lemma PeopleAreText(a: Bytes, b: Bytes)
    requires NEWLINE !in a && NEWLINE !in b
    ensures AllText([Header(AUTHOR, a), Header(COMMITTER, b)])
  {
    HeaderIsText(AUTHOR, a);
    HeaderIsText(COMMITTER, b);
  }

  lemma {:induction false} ContinuedIsText(lines: seq<Bytes>)
    requires forall l :: l in lines ==> NEWLINE !in l
    ensures AllText(Continued(lines))
  {
    if lines != [] { ContinuedIsText(lines[1..]); }
  }

  lemma {:induction false} LinesHaveNone(s: Bytes)
    ensures forall l :: l in Lines(s) ==> NEWLINE !in l
    decreases |s|
  {
    CutSplits(s, NEWLINE);
    match Cut(s, NEWLINE)
    case None =>
    case Some((_, rest)) => LinesHaveNone(rest);
  }

  lemma SignatureIsText(signature: Bytes)
    ensures AllText(SignatureLines(signature))
  {
    if signature != [] {
      LinesHaveNone(signature);
      ContinuedIsText(Lines(signature)[1..]);
      assert Lines(signature)[0] in Lines(signature);
    }
  }

  /** Any message and any signature, even with blank lines in them, survive. */
  lemma BuildParses(c: Commit)
    requires c.author.Some? && c.committer.Some? && Clean(c.author.value) && Clean(c.committer.value)
    ensures ParsedCommit(Build(c)) == Ok(c.(fields := map[]))
  {
    var hashes := [Header(TREE, EncodeHex(c.tree))] + ParentLines(c.parent);
    var people :=
      [Header(AUTHOR, FormatIdentity(c.author.value)), Header(COMMITTER, FormatIdentity(c.committer.value))];
    HashSteps(c);
    var st := Steps(START, hashes, ParseHeader).value;
    IdentityLine(c.author.value);
    IdentityLine(c.committer.value);
    PeopleSteps(FormatIdentity(c.author.value), FormatIdentity(c.committer.value),
                c.author.value, c.committer.value, st);
    StepsAppend(START, hashes, people, ParseHeader);
    var next := Steps(START, hashes + people, ParseHeader).value;
    SignatureSteps(next, c.signature);
    StepsAppend(START, hashes + people, SignatureLines(c.signature), ParseHeader);
    BuildIsLines(c);
    HeadersAreText(c);
    BlockParses(HeaderLines(c), c.message, START, ParseHeader);
  }

  ghost predicate CleanPeople(c: Commit) {
    (c.author.Some? ==> Clean(c.author.value)) && (c.committer.Some? ==> Clean(c.committer.value))
  }

  lemma ParsedIsClean(data: Bytes)
    requires NEWLINE !in data && ParseIdentity(data).Ok?
    ensures Clean(ParseIdentity(data).value)
  {
    ParsedIsNormal(data);
    ParsedFromOneLine(data);
  }

  /** Fields that name nobody. */
  lemma OtherField(c: Commit, command: Bytes, data: Bytes)
    requires command != AUTHOR && command != COMMITTER && CommitField(c, command, data).Ok?
    ensures CommitField(c, command, data).value.author == c.author
    ensures CommitField(c, command, data).value.committer == c.committer
  {
  }

  lemma PersonField(c: Commit, command: Bytes, data: Bytes)
    requires (command == AUTHOR || command == COMMITTER) && CommitField(c, command, data).Ok?
    ensures ParseIdentity(data).Ok?
  {
  }

  lemma FieldKeepsClean(c: Commit, command: Bytes, data: Bytes)
    requires CleanPeople(c) && NEWLINE !in data && CommitField(c, command, data).Ok?
    ensures CleanPeople(CommitField(c, command, data).value)
  {
    if command == AUTHOR || command == COMMITTER {
      PersonField(c, command, data);
      ParsedIsClean(data);
      if command == AUTHOR {
        AuthorField(c, data, ParseIdentity(data).value);
      } else {
        CommitterField(c, data, ParseIdentity(data).value);
      }
    } else {
      OtherField(c, command, data);
    }
  }

  lemma {:induction false} HeadersKeepClean(data: Bytes, st: Parsing)
    requires CleanPeople(st.commit) && ParseLines(data, st, ParseHeader).Ok?
    ensures CleanPeople(ParseLines(data, st, ParseHeader).value.0.commit)
    decreases |data|
  {
    if data != [] {
      var (raw, rest) := NextLine(data);
      if raw != [] {
        var (command, value) := CutWord(raw);
        NextLineSplits(data);
        CutSplits(raw, SPACE);
        assert NEWLINE !in value;
        if raw[0] != SPACE && command != GPGSIG { FieldKeepsClean(st.commit, command, value); }
        HeadersKeepClean(rest, ParseHeader(st, raw).value);
      }
    }
  }

  /** A commit reads back as built exactly when its people are clean and it has no
      header fields beyond the usual ones, which building drops. */
  lemma CommitRoundTripIff(c: Commit)
    requires c.author.Some? && c.committer.Some?
    ensures ParsedCommit(Build(c)) == Ok(c) <==>
              Clean(c.author.value) && Clean(c.committer.value) && c.fields == map[]
  {
    if Clean(c.author.value) && Clean(c.committer.value) { BuildParses(c); }
    if ParsedCommit(Build(c)) == Ok(c) { HeadersKeepClean(Build(c), START); }
  }

  /** Signing: the commit stored with a signature reads back with it, and without it
      it is byte for byte what was signed. */
  lemma SignedPayloadSurvives(c: Commit, sign: Bytes -> Bytes)
    requires c.author.Some? && c.committer.Some? && Clean(c.author.value) && Clean(c.committer.value)
    ensures var payload := BuildUnsigned(c);
            var stored := ParsedCommit(Build(c.(signature := sign(payload))));
            stored.Ok? && stored.value.signature == sign(payload) &&
            stored.value.author.Some? && stored.value.committer.Some? && BuildUnsigned(stored.value) == payload
  {
    BuildParses(c.(signature := sign(BuildUnsigned(c))));
  }

  /** Two clean commits with the same object are the same commit. */
  lemma SameObjectSameCommit(a: Commit, b: Commit)
    requires a.author.Some? && a.committer.Some? && Clean(a.author.value) && Clean(a.committer.value)
    requires b.author.Some? && b.committer.Some? && Clean(b.author.value) && Clean(b.committer.value)
    requires Build(a) == Build(b) && a.fields == b.fields
    ensures a == b
  {
    BuildParses(a);
    BuildParses(b);
  }
}
