/** Applying deltas, what every parsed delta guarantees, and when its target has the
    announced length. */
module DeltaApply {
  import opened GitTypes
  import opened Sequences
  import opened DeltaCodec

  // ----- applying

  /** The bytes one instruction contributes. */
  function Piece(base: Bytes, c: Change): Bytes
    requires c.Copy? ==> c.offset + c.length <= |base|
  {
    match c
    case Insert(data) => data
    case Copy(offset, length) => base[offset..offset + length]
  }

  predicate InBounds(base: Bytes, c: Change) {
    c.Copy? ==> 0 < c.length && c.offset + c.length <= |base|
  }

  /** The target the instructions describe. */
  function Target(base: Bytes, changes: seq<Change>): Bytes
    requires forall c :: c in changes ==> InBounds(base, c)
  {
    if changes == [] then []
    else
      assert InBounds(base, changes[0]);
      Piece(base, changes[0]) + Target(base, changes[1..])
  }

  function TotalSize(changes: seq<Change>): nat {
    if changes == [] then 0 else SizeOf(changes[0]) + TotalSize(changes[1..])
  }

  lemma {:induction false} TargetAppend(base: Bytes, changes: seq<Change>, c: Change)
    requires InBounds(base, c) && forall x :: x in changes ==> InBounds(base, x)
    ensures Target(base, changes + [c]) == Target(base, changes) + Piece(base, c)
  {
    if changes == [] {
      assert Target(base, [c]) == Piece(base, c) + Target(base, []);
    } else {
      assert (changes + [c])[1..] == changes[1..] + [c];
      TargetAppend(base, changes[1..], c);
    }
  }

  lemma {:induction false} TargetSize(base: Bytes, changes: seq<Change>)
    requires forall x :: x in changes ==> InBounds(base, x)
    ensures |Target(base, changes)| == TotalSize(changes)
  {
    if changes != [] {
      assert changes[0] in changes;
      TargetSize(base, changes[1..]);
    }
  }

  /** Where the bytes of instruction `i` start in the target. */
  function Start(changes: seq<Change>, i: nat): nat
    requires i <= |changes|
  {
    TotalSize(changes[..i])
  }

  /** Byte `j` that an instruction contributes: of its own data, or of the base behind
      its offset. */
  function ByteOf(base: Bytes, c: Change, j: nat): Option<byte> {
    match c
    case Insert(data) => if j < |data| then Some(data[j]) else None
    case Copy(offset, length) => if j < length && offset + j < |base| then Some(base[offset + j]) else None
  }

  /** Byte `j` of instruction `i` is in its place. */
  ghost predicate HasByte(base: Bytes, changes: seq<Change>, target: Bytes, i: nat, j: nat) {
    i < |changes| && j < SizeOf(changes[i]) ==>
      Start(changes, i) + j < |target| && ByteOf(base, changes[i], j) == Some(target[Start(changes, i) + j])
  }

  /** `target` is what the instructions say, byte by byte. */
  ghost predicate Describes(base: Bytes, changes: seq<Change>, target: Bytes) {
    |target| == TotalSize(changes) && forall i: nat, j: nat :: HasByte(base, changes, target, i, j)
  }

  lemma PieceBytes(base: Bytes, c: Change)
    requires InBounds(base, c)
    ensures |Piece(base, c)| == SizeOf(c)
    ensures forall j :: 0 <= j < SizeOf(c) ==> ByteOf(base, c, j) == Some(Piece(base, c)[j])
  {
  }

  lemma StartStep(changes: seq<Change>, i: nat)
    requires 0 < i <= |changes|
    ensures Start(changes, i) == SizeOf(changes[0]) + Start(changes[1..], i - 1)
  {
    assert changes[..i][1..] == changes[1..][..i - 1];
  }

  /** The target has the bytes of each instruction at that instruction's place. */
  lemma {:induction false} TargetDescribed(base: Bytes, changes: seq<Change>)
    requires forall c :: c in changes ==> InBounds(base, c)
    ensures Describes(base, changes, Target(base, changes))
  {
    TargetSize(base, changes);
    forall i: nat, j: nat ensures HasByte(base, changes, Target(base, changes), i, j) {
      if i < |changes| && j < SizeOf(changes[i]) {
        TargetDescribed(base, changes[1..]);
        assert InBounds(base, changes[0]);
        ByteAt(base, changes, Piece(base, changes[0]), Target(base, changes[1..]), i, j);
      }
    }
  }

  lemma ByteAt(base: Bytes, changes: seq<Change>, front: Bytes, rest: Bytes, i: nat, j: nat)
    requires i < |changes| && InBounds(base, changes[0]) && front == Piece(base, changes[0])
    requires Describes(base, changes[1..], rest)
    ensures HasByte(base, changes, front + rest, i, j)
  {
    PieceBytes(base, changes[0]);
    if i == 0 {
      assert Start(changes, 0) == 0;
    } else {
      StartStep(changes, i);
      assert changes[1..][i - 1] == changes[i] && HasByte(base, changes[1..], rest, i - 1, j);
    }
  }

  /** Every place in the target is that of some instruction's byte. */
  lemma {:induction false} FindPlace(changes: seq<Change>, k: nat) returns (i: nat, j: nat)
    requires k < TotalSize(changes)
    ensures i < |changes| && j < SizeOf(changes[i]) && k == Start(changes, i) + j
    decreases |changes|
  {
    i, j := 0, k;
    if k >= SizeOf(changes[0]) {
      i, j := FindPlace(changes[1..], k - SizeOf(changes[0]));
      i := i + 1;
      StartStep(changes, i);
    } else {
      assert changes[..0] == [];
    }
  }

  /** The description fixes the target. */
  lemma DescribedOnce(base: Bytes, changes: seq<Change>, a: Bytes, b: Bytes)
    requires Describes(base, changes, a) && Describes(base, changes, b)
    ensures a == b
  {
    forall k | 0 <= k < |a| ensures a[k] == b[k] {
      var i, j := FindPlace(changes, k);
      assert HasByte(base, changes, a, i, j) && HasByte(base, changes, b, i, j);
    }
  }

  ghost predicate AllInBounds(base: Bytes, changes: seq<Change>) {
    forall c :: c in changes ==> InBounds(base, c)
  }

  /** One more instruction has been applied. */
  ghost predicate AppliedSoFar(base: Bytes, changes: seq<Change>, i: nat, result: Bytes)
    requires i <= |changes|
  {
    AllInBounds(base, changes[..i]) && result == Target(base, changes[..i])
  }

  lemma ApplyOne(base: Bytes, changes: seq<Change>, i: nat, result: Bytes)
    requires i < |changes| && AppliedSoFar(base, changes, i, result)
    ensures if InBounds(base, changes[i]) then AppliedSoFar(base, changes, i + 1, result + Piece(base, changes[i]))
            else !AllInBounds(base, changes)
  {
    TakeOneMore(changes, i);
    if InBounds(base, changes[i]) {
      TargetAppend(base, changes[..i], changes[i]);
    } else {
      assert changes[i] in changes;
    }
  }

  /** Succeeds exactly when the base has the expected length and every copy is
      non-empty and inside it; sums of offset and length are those of 64-bit words. */
  method ApplyDelta(base: Bytes, delta: Delta) returns (r: Result<Bytes, DeltaError>)
    requires forall c :: c in delta.changes && c.Copy? ==> c.offset + c.length < TWO64
    ensures |base| != delta.sourceLength <==> r == Err(SizeMismatch)
    ensures |base| == delta.sourceLength ==>
              if AllInBounds(base, delta.changes)
              then r == Ok(Target(base, delta.changes)) && Describes(base, delta.changes, r.value)
              else r.Err?
  {
    if |base| != delta.sourceLength { return Err(SizeMismatch); }
    var result: Bytes := [];
    for i := 0 to |delta.changes|
      invariant AppliedSoFar(base, delta.changes, i, result)
    {
      var change := delta.changes[i];
      assert change in delta.changes;
      ApplyOne(base, delta.changes, i, result);
      if change.Insert? {
        result := result + change.data;
      } else {
        if (change.offset + change.length) % TWO64 > |base| { return Err(OutOfBounds); }
        if change.length == 0 { return Err(EmptyCopy); }
        result := result + base[change.offset..change.offset + change.length];
      }
    }
    TakeAll(delta.changes);
    TargetDescribed(base, delta.changes);
    r := Ok(result);
  }

  // ----- what every successful parse guarantees

  lemma {:induction false} InstructionsInRange(payload: Bytes, source: nat, target: nat, left: int, c: Change)
    requires Instructions(payload, source, target, left).Ok?
    requires c in Instructions(payload, source, target, left).value
    ensures 0 < SizeOf(c) <= target && (c.Copy? ==> c.offset + c.length <= source)
    decreases |payload|
  {
    CommandConsumes(payload[0], payload[1..], source, target);
    var (first, rest) := Command(payload[0], payload[1..], source, target).value.value;
    var tail := Instructions(rest, source, target, (left - SizeOf(first)) % TWO64);
    if c != first {
      assert c in tail.value;
      InstructionsInRange(rest, source, target, (left - SizeOf(first)) % TWO64, c);
    }
  }

  /** On any payload: what parsing accepts can be applied to every base of the
      declared length, and the result is as long as the instructions say. */
  lemma ParsedDeltaApplies(payload: Bytes, base: Bytes)
    requires ParsedDelta(payload).Ok? && |base| == ParsedDelta(payload).value.sourceLength
    ensures var d := ParsedDelta(payload).value;
            (forall c :: c in d.changes ==> InBounds(base, c)) &&
            |Target(base, d.changes)| == TotalSize(d.changes)
  {
    var d := ParsedDelta(payload).value;
    var h := Headers(payload);
    forall c | c in d.changes ensures InBounds(base, c) {
      InstructionsInRange(h.2, h.0, h.1, h.1, c);
    }
    TargetSize(base, d.changes);
  }

  // ----- the announced length

  /** The next command of the payload. */
  function NextCommand(payload: Bytes, source: nat, target: nat): Parsed
    requires payload != []
  {
    Command(payload[0], payload[1..], source, target)
  }

  /** The payload goes on with instructions in range that fill exactly `left` bytes. */
  ghost predicate Exact(payload: Bytes, source: nat, target: nat, left: nat)
    decreases |payload|
  {
    left == 0 ||
    (payload != [] &&
     match NextCommand(payload, source, target)
     case Ok(Some((c, rest))) =>
       CommandConsumes(payload[0], payload[1..], source, target);
       SizeOf(c) <= left && Exact(rest, source, target, left - SizeOf(c))
     case _ => false)
  }

  lemma SmallMod(n: nat)
    requires n < TWO64
    ensures n % TWO64 == n
  {
  }

  /** The instructions fill the bytes still to come exactly when the payload is exact:
      otherwise one of them overshoots, or parsing stops quietly before one. */
  lemma {:induction false} InstructionsFillIff(payload: Bytes, source: nat, target: nat, left: nat)
    requires left <= target < TWO64 && Instructions(payload, source, target, left).Ok?
    ensures TotalSize(Instructions(payload, source, target, left).value) == left <==>
            Exact(payload, source, target, left)
    decreases |payload|
  {
    if left != 0 && NextCommand(payload, source, target).value.Some? {
      var (c, rest) := NextCommand(payload, source, target).value.value;
      CommandConsumes(payload[0], payload[1..], source, target);
      if SizeOf(c) <= left {
        SmallMod(left - SizeOf(c));
        InstructionsFillIff(rest, source, target, left - SizeOf(c));
      }
    }
  }

  /** A parsed delta's target has the announced length exactly when the payload is exact. */
  lemma AnnouncedLengthIff(payload: Bytes, base: Bytes)
    requires ParsedDelta(payload).Ok? && |base| == ParsedDelta(payload).value.sourceLength
    ensures (forall c :: c in ParsedDelta(payload).value.changes ==> InBounds(base, c)) &&
            (|Target(base, ParsedDelta(payload).value.changes)| == Headers(payload).1 <==>
             Exact(Headers(payload).2, Headers(payload).0, Headers(payload).1, Headers(payload).1))
  {
    var h := Headers(payload);
    ParsedDeltaApplies(payload, base);
    InstructionsFillIff(h.2, h.0, h.1, h.1);
  }

  lemma HeadersAre(payload: Bytes, source: nat, rest: Bytes, target: nat, body: Bytes)
    requires source < TWO64 && target < TWO64
    requires HeaderNumber(payload) == (source, rest) && HeaderNumber(rest) == (target, body)
    ensures Headers(payload) == (source, target, body)
  {
    SmallMod(source);
    SmallMod(target);
  }

  /** An overshoot: 5 bytes are announced, and the second insertion makes it 6. */
  lemma OvershootAccepted(a: Bytes, b: Bytes, second: Bytes, body: Bytes)
    requires |a| == |b| == 3 && second == [3] + b + [] && body == [3] + a + second
    ensures ParsedDelta([0] + ([5] + body)) == Ok(Delta(0, [Insert(a), Insert(b)]))
    ensures Headers([0] + ([5] + body)).1 == 5 < TotalSize([Insert(a), Insert(b)])
  {
    var rest: Bytes := [5] + body;
    var payload: Bytes := [0] + rest;
    assert payload[1..] == rest && rest[1..] == body;
    InsertThen(body, a, second, 5);
    LastInsert(second, b);
    assert [Insert(a)] + [Insert(b)] == [Insert(a), Insert(b)];
    HeadersAre(payload, 0, rest, 5, body);
  }

  lemma LastInsert(payload: Bytes, b: Bytes)
    requires |b| == 3 && payload == [3] + b + []
    ensures Instructions(payload, 0, 5, 2) == Ok([Insert(b)])
  {
    InsertThen(payload, b, [], 2);
    NothingBehind([Insert(b)]);
  }

  lemma InsertThen(payload: Bytes, data: Bytes, rest: Bytes, left: nat)
    requires |data| == 3 && payload == [3] + data + rest && 0 < left <= 5
    ensures Instructions(payload, 0, 5, left) == Prepend([Insert(data)], Instructions(rest, 0, 5, (left - 3) % TWO64))
  {
    var tail := payload[1..];
    assert tail[..3] == data && tail[3..] == rest;
    assert Command(3, tail, 0, 5) == Ok(Some((Insert(data), rest)));
  }

  /** A quiet stop: 2 bytes are announced, and the copy after the first of them is
      outside the empty source. */
  lemma QuietStopAccepted(x: byte, body: Bytes, copy: Bytes)
    requires copy == [0x90, 1] && body == [1, x] + copy
    ensures ParsedDelta([0] + ([2] + body)) == Ok(Delta(0, [Insert([x])]))
    ensures Headers([0] + ([2] + body)).1 == 2 > TotalSize([Insert([x])])
  {
    var rest: Bytes := [2] + body;
    var payload: Bytes := [0] + rest;
    assert payload[1..] == rest && rest[1..] == body;
    HeadersAre(payload, 0, rest, 2, body);
    var tail := body[1..];
    assert tail[..1] == [x] && tail[1..] == copy;
    assert Command(1, tail, 0, 2) == Ok(Some((Insert([x]), copy)));
    CopyOfOne(copy);
    assert Instructions(copy, 0, 2, 1) == Ok([]);
    assert Instructions(body, 0, 2, 2) == Prepend([Insert([x])], Instructions(copy, 0, 2, 1));
    NothingBehind([Insert([x])]);
  }

  lemma CopyOfOne(copy: Bytes)
    requires copy == [0x90, 1]
    ensures Command(copy[0], copy[1..], 0, 2) == Ok(None)
  {
    var p := copy[1..];
    assert p == [1] && p[1..] == [];
    assert !Bit(0x90, 0) && !Bit(0x90, 1) && !Bit(0x90, 2) && !Bit(0x90, 3) by { FlagsOf0x90(); }
    assert Bit(0x90, 4) && !Bit(0x90, 5) && !Bit(0x90, 6) by { FlagsOf0x90(); }
    assert TakeFlagged(0x90, 3, 4, p) == Some((0, p));
    assert TakeFlagged(0x90, 2, 4, p) == Some((0, p));
    assert TakeFlagged(0x90, 1, 4, p) == Some((0, p));
    assert Offset(0x90, p) == Some((0, p));
    assert TakeFlagged(0x90, 6, 7, []) == Some((0, []));
    assert TakeFlagged(0x90, 5, 7, []) == Some((0, []));
    assert Size(0x90, p) == Some((1, []));
  }

  lemma FlagsOf0x90()
    ensures !Bit(0x90, 0) && !Bit(0x90, 1) && !Bit(0x90, 2) && !Bit(0x90, 3)
    ensures Bit(0x90, 4) && !Bit(0x90, 5) && !Bit(0x90, 6)
  {
    assert Bit(9, 0) && !Bit(4, 0) && !Bit(2, 0);
    assert !Bit(9, 1) && !Bit(9, 2) by { assert !Bit(4, 1); }
    assert !Bit(18, 0) && Bit(18, 1) && !Bit(18, 2) && !Bit(18, 3);
    assert !Bit(36, 0) && !Bit(36, 1) && Bit(36, 2) && !Bit(36, 3) && !Bit(36, 4);
    assert !Bit(72, 0) && !Bit(72, 1) && !Bit(72, 2) && Bit(72, 3) && !Bit(72, 4) && !Bit(72, 5);
  }
}
