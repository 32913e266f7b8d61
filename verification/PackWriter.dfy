/** Collecting the objects of a push: in memory, on disk, or moving from one to the
    other, with the same pack in the end. */
module PackWriting {
  import opened GitTypes
  import opened GitObjects
  import opened Sequences
  import opened ByteText
  import opened PktLine
  import opened PackFormat
  import CommitCodec
  import TreeCodec
  import TreeOrder

  datatype StorageMode = Auto | Memory | Disk | OtherMode

  const MEMORY_THRESHOLD := 10
  const MEMORY_BYTES_THRESHOLD := 5242880

  /** An object with the hash it was given; trees come with theirs. */
  datatype PackObject = PackObject(content: Object, id: ObjectId)

  datatype WriteError =
    | CleanedUp
    | UnknownMode
    | SigningFailed
    | NoCommit
    | NoObjects
    | BadCapabilities
    | TooManyObjects
    | Interrupted

  /** What a writer has collected: its objects in order, and the commit to push. */
  datatype Collected = Collected(objects: seq<PackObject>, lastCommit: Option<ObjectId>)

  const EMPTY := Collected([], None)

  // ----- what the calls collect

  function Contents(objects: seq<PackObject>): seq<Object> {
    if objects == [] then [] else [objects[0].content] + Contents(objects[1..])
  }

  predicate Has(objects: seq<PackObject>, id: ObjectId) {
    objects != [] && (objects[0].id == id || Has(objects[1..], id))
  }

  function Ids(objects: seq<PackObject>): set<ObjectId> {
    if objects == [] then {} else {objects[0].id} + Ids(objects[1..])
  }

  function TotalBytes(objects: seq<PackObject>): nat {
    if objects == [] then 0 else |objects[0].content.data| + TotalBytes(objects[1..])
  }

  predicate Distinct(objects: seq<PackObject>) {
    objects == [] || (!Has(objects[1..], objects[0].id) && Distinct(objects[1..]))
  }

  /** One more object, unless its hash is there already. */
  function Added(c: Collected, o: PackObject): Collected {
    if Has(c.objects, o.id) then c else c.(objects := c.objects + [o])
  }

  function Hashed(o: Object): PackObject { PackObject(o, ObjectId(o)) }

  /** A new commit also becomes the one to push; one that is there already does not. */
  function AddedCommit(c: Collected, data: Bytes): Collected {
    var o := Hashed(Object(CommitType, data));
    if Has(c.objects, o.id) then c else Collected(c.objects + [o], Some(o.id))
  }

  lemma {:induction false} Append(objects: seq<PackObject>, o: PackObject, id: ObjectId)
    ensures Contents(objects + [o]) == Contents(objects) + [o.content]
    ensures Has(objects + [o], id) <==> Has(objects, id) || o.id == id
    ensures Ids(objects + [o]) == Ids(objects) + {o.id}
    ensures TotalBytes(objects + [o]) == TotalBytes(objects) + |o.content.data|
    ensures Distinct(objects) && !Has(objects, o.id) ==> Distinct(objects + [o])
  {
    if objects == [] {
      assert objects + [o] == [o] && [o][1..] == [];
    } else {
      assert (objects + [o])[1..] == objects[1..] + [o];
      Append(objects[1..], o, id);
      if Distinct(objects) && !Has(objects, o.id) { Append(objects[1..], o, objects[0].id); }
    }
  }

  lemma {:induction false} HasIsMember(objects: seq<PackObject>, id: ObjectId)
    ensures Has(objects, id) <==> id in Ids(objects)
  {
    if objects != [] { HasIsMember(objects[1..], id); }
  }

  lemma {:induction false} CountsAgree(objects: seq<PackObject>)
    requires Distinct(objects)
    ensures |Ids(objects)| == |objects| == |Contents(objects)|
  {
    if objects != [] {
      CountsAgree(objects[1..]);
      HasIsMember(objects[1..], objects[0].id);
    }
  }

  /** The next object moves the writer to disk: with ten of them in memory, or five
      mebibytes. */
  predicate Spills(before: seq<PackObject>) {
    |before| >= MEMORY_THRESHOLD || TotalBytes(before) >= MEMORY_BYTES_THRESHOLD
  }

  /** A temporary file: what it holds, and where the next read or write happens. */
  datatype TempFile = TempFile(content: Bytes, offset: nat)

  /** A write at the file's position. */
  function Written(f: TempFile, b: Bytes): TempFile
    requires f.offset <= |f.content|
  {
    var end := f.offset + |b|;
    TempFile(f.content[..f.offset] + b + if end <= |f.content| then f.content[end..] else [], end)
  }

  lemma WrittenAtEnd(f: TempFile, b: Bytes)
    requires f.offset == |f.content|
    ensures Written(f, b) == TempFile(f.content + b, |f.content + b|)
  {
  }

  lemma WrittenTwice(f: TempFile, a: Bytes, b: Bytes)
    requires f.offset <= |f.content|
    ensures Written(Written(f, a), b) == Written(f, a + b)
  {
    var x, y := Written(Written(f, a), b), Written(f, a + b);
    assert |x.content| == |y.content|;
    forall i | 0 <= i < |x.content| ensures x.content[i] == y.content[i] {}
  }

  /** Adding an object to a file is right exactly when the file's position is at the
      end: after an interrupted copy it is not, and stored objects are overwritten. */
  lemma AddToFileRightIff(lib: Library, objects: seq<PackObject>, f: TempFile, o: PackObject)
    requires f.content == Encode(lib, Contents(objects)) && f.offset <= |f.content|
    ensures Written(f, EncodeObject(lib, o.content)).content == Encode(lib, Contents(objects + [o])) <==>
            f.offset == |f.content|
  {
    var b := EncodeObject(lib, o.content);
    EncodeOneMore(lib, objects, o);
    HeaderNotEmpty(TypeCode(o.content.kind), |o.content.data|);
    if f.offset == |f.content| { assert Written(f, b).content == f.content + b; }
  }

  // ----- the request a push sends

  /** The reference update and a flush packet, before the pack. */
  function RefUpdate(lib: Library, caps: Bytes, refName: Bytes, old': ObjectId, new': ObjectId): Bytes {
    LineAndFlush(RefCommand(lib, caps, refName, old', new'))
  }

  function RefCommand(lib: Library, caps: Bytes, refName: Bytes, old': ObjectId, new': ObjectId): Bytes {
    lib.hashText(old') + [SPACE] + lib.hashText(new') + [SPACE] + refName + [NUL] + caps + [NEWLINE]
  }

  /** What is written for the collected objects, and whether that fails. */
  function Emission(lib: Library, caps: Option<Bytes>, c: Collected, refName: Bytes, old': ObjectId)
    : (Option<WriteError>, Bytes)
  {
    if c.lastCommit.None? then (Some(NoCommit), [])
    else if caps.None? then (Some(BadCapabilities), [])
    else
      var update := RefUpdate(lib, caps.value, refName, old', c.lastCommit.value);
      if |Contents(c.objects)| >= TWO32 then (Some(TooManyObjects), update + (SIGNATURE + BigEndian(2, 4)))
      else (None, update + Packed(lib, Contents(c.objects)))
  }

  /** The text of an object's hash. */
  predicate HexText(t: Bytes) {
    |t| >= 6 && forall c :: c in t ==> 48 <= c <= 57 || 97 <= c <= 102
  }

  /** Nothing that starts with a hash announces an error. */
  lemma HashAnnouncesNothing(t: Bytes, rest: Bytes)
    requires HexText(t)
    ensures DetectError(t + rest).None?
  {
    var line := t + rest;
    assert line[0] in t && line[1] in t && line[2] in t;
    DiffersAt(line, ERR_PREFIX, 0);
    DiffersAt(line, ERROR_PREFIX, 1);
    DiffersAt(line, FATAL_PREFIX, 2);
    DiffersAt(line, NG_PREFIX, 0);
    DiffersAt(line, UNPACK_PREFIX, 0);
  }

  /** What a receiver reads: one packet, which cut at its blanks and its NUL gives the
      old hash, the hash of the last commit, the reference and the capabilities; then
      the end; and what is left is the pack. */
  lemma EmissionReads(lib: Library, caps: Bytes, c: Collected, refName: Bytes, old': ObjectId)
    requires c.lastCommit.Some? && |Contents(c.objects)| < TWO32 && NUL !in refName
    requires HexText(lib.hashText(old')) && HexText(lib.hashText(c.lastCommit.value))
    requires Fits(RefCommand(lib, caps, refName, old', c.lastCommit.value))
    ensures var (first, after) := NextPacket(Source(Emission(lib, Some(caps), c, refName, old').1, false));
            first.Line? && NextPacket(after) == (EndOfStream, Source(Packed(lib, Contents(c.objects)), false)) &&
            exists afterOld, afterNew ::
              && Cut(first.data, 32) == Some((lib.hashText(old'), afterOld))
              && Cut(afterOld, 32) == Some((lib.hashText(c.lastCommit.value), afterNew))
              && Cut(afterNew, 0) == Some((refName, caps + [10]))
  {
    var from, to := lib.hashText(old'), lib.hashText(c.lastCommit.value);
    var line := RefCommand(lib, caps, refName, old', c.lastCommit.value);
    var afterNew := refName + [NUL] + (caps + [NEWLINE]);
    var afterOld := to + [SPACE] + afterNew;
    assert line == from + [SPACE] + afterOld;
    assert line == from + ([SPACE] + afterOld);
    HashAnnouncesNothing(from, [SPACE] + afterOld);
    LineAndFlushParse(line, Packed(lib, Contents(c.objects)));
    CutAt(from, SPACE, afterOld);
    CutAt(to, SPACE, afterNew);
    CutAt(refName, NUL, caps + [NEWLINE]);
  }

  class PackfileWriter {
    const lib: Library
    const storageMode: StorageMode
    const capabilities: Option<Bytes>
    var objectHashes: set<ObjectId>
    var memoryObjects: seq<PackObject>
    var tempFile: Option<TempFile>
    var hasCommit: bool
    var lastCommitHash: Option<ObjectId>
    var totalBytes: nat
    var isCleanedUp: bool
    ghost var collected: Collected

    /** Every object is either in memory or, encoded, in the file. */
    ghost predicate Stored(objects: seq<PackObject>)
      reads this
    {
      if tempFile.None? then memoryObjects == objects
      else memoryObjects == [] && tempFile.value.content == Encode(lib, Contents(objects)) &&
           tempFile.value.offset <= |tempFile.value.content|
    }

    /** The file, if there is one, is ready for the next object. */
    ghost predicate AtEnd()
      reads this
    {
      tempFile.Some? ==> tempFile.value.offset == |tempFile.value.content|
    }

    /** Where the objects are is what the storage mode says. */
    ghost predicate Placed(objects: seq<PackObject>)
      reads this
    {
      match storageMode
      case Memory => tempFile.None?
      case Disk => tempFile.Some? <==> objects != []
      case Auto => tempFile.Some? <==> objects != [] && Spills(objects[..|objects| - 1])
      case OtherMode => objects == []
    }

    /** What is collected is stored, wherever the file's position is. */
    ghost predicate Coherent()
      reads this
    {
      && objectHashes == Ids(collected.objects) && Distinct(collected.objects)
      && totalBytes == TotalBytes(collected.objects)
      && lastCommitHash == collected.lastCommit && (hasCommit <==> lastCommitHash.Some?)
      && (hasCommit ==> collected.objects != [])
      && Stored(collected.objects) && Placed(collected.objects)
      && (isCleanedUp ==> collected == EMPTY)
    }

    ghost predicate Valid()
      reads this
    {
      Coherent() && AtEnd()
    }

    constructor (lib: Library, mode: StorageMode, capabilities: Option<Bytes>)
      ensures Valid() && collected == EMPTY && !isCleanedUp
      ensures this.lib == lib && storageMode == mode && this.capabilities == capabilities
    {
      this.lib, storageMode, this.capabilities := lib, mode, capabilities;
      objectHashes, memoryObjects, tempFile, hasCommit, lastCommitHash, totalBytes, isCleanedUp, collected :=
        {}, [], None, false, None, 0, false, EMPTY;
    }

    method EnsureTempFile()
      modifies this`tempFile
      ensures tempFile == if old(tempFile).Some? then old(tempFile) else Some(TempFile([], 0))
    {
      if tempFile.None? { tempFile := Some(TempFile([], 0)); }
    }

    /** Writes one encoded object at the file's position. */
    method WriteObjectToFile(o: PackObject)
      requires tempFile.Some? && tempFile.value.offset <= |tempFile.value.content|
      modifies this`tempFile
      ensures tempFile == Some(Written(old(tempFile).value, EncodeObject(lib, o.content)))
    {
      var header := WriteHeader(TypeCode(o.content.kind), |o.content.data|);
      WrittenTwice(tempFile.value, header, lib.deflate(o.content.data));
      tempFile := Some(Written(tempFile.value, header));
      tempFile := Some(Written(tempFile.value, lib.deflate(o.content.data)));
    }

    /** Moves the objects in memory to a file. */
    method MigrateToFile()
      requires tempFile.None?
      modifies this`tempFile, this`memoryObjects
      ensures memoryObjects == []
      ensures var b := Encode(lib, Contents(old(memoryObjects))); tempFile == Some(TempFile(b, |b|))
    {
      EnsureTempFile();
      for i := 0 to |memoryObjects|
        invariant memoryObjects == old(memoryObjects) && tempFile.Some?
        invariant tempFile.value.offset == |tempFile.value.content|
        invariant tempFile.value.content == Encode(lib, Contents(memoryObjects[..i]))
      {
        TakeOneMore(memoryObjects, i);
        EncodeOneMore(lib, memoryObjects[..i], memoryObjects[i]);
        WrittenAtEnd(tempFile.value, EncodeObject(lib, memoryObjects[i].content));
        WriteObjectToFile(memoryObjects[i]);
      }
      TakeAll(memoryObjects);
      memoryObjects := [];
    }

    /** Stores an object where the storage mode wants it; that is all it does. */
    method AddObjectToStorage(o: PackObject) returns (ok: bool)
      requires Valid() && !isCleanedUp && !Has(collected.objects, o.id)
      modifies this`memoryObjects, this`tempFile, this`totalBytes
      ensures ok <==> storageMode != OtherMode
      ensures !ok ==> memoryObjects == old(memoryObjects) && tempFile == old(tempFile) && totalBytes == old(totalBytes)
      ensures ok ==> totalBytes == old(totalBytes) + |o.content.data| && AtEnd()
      ensures ok ==> Stored(collected.objects + [o]) && Placed(collected.objects + [o])
      ensures ok && storageMode == Auto ==>
                (tempFile.Some? <==> |collected.objects| >= 10 || TotalBytes(collected.objects) >= 5242880)
    {
      ghost var objects := collected.objects;
      TakeFront(objects, o);
      EncodeOneMore(lib, objects, o);
      SpillsStay(objects);
      CountsAgree(objects);
      ok := true;
      match storageMode
      case Memory =>
        memoryObjects, totalBytes := memoryObjects + [o], totalBytes + |o.content.data|;
      case Disk =>
        EnsureTempFile();
        totalBytes := totalBytes + |o.content.data|;
        WrittenAtEnd(tempFile.value, EncodeObject(lib, o.content));
        WriteObjectToFile(o);
      case Auto =>
        if |objectHashes| < MEMORY_THRESHOLD && totalBytes < MEMORY_BYTES_THRESHOLD && tempFile.None? {
          memoryObjects, totalBytes := memoryObjects + [o], totalBytes + |o.content.data|;
          return;
        }
        if tempFile.None? { MigrateToFile(); }
        totalBytes := totalBytes + |o.content.data|;
        WrittenAtEnd(tempFile.value, EncodeObject(lib, o.content));
        WriteObjectToFile(o);
      case OtherMode =>
        ok := false;
    }

    /** Stores a new object and remembers its hash. */
    method Remember(o: PackObject) returns (ok: bool)
      requires Valid() && !isCleanedUp && !Has(collected.objects, o.id)
      modifies this`memoryObjects, this`tempFile, this`totalBytes, this`objectHashes, this`collected
      ensures Valid() && (ok <==> storageMode != OtherMode)
      ensures collected == if ok then Added(old(collected), o) else old(collected)
    {
      ghost var before := collected.objects;
      ok := AddObjectToStorage(o);
      if ok {
        Append(before, o, o.id);
        objectHashes, collected := objectHashes + {o.id}, collected.(objects := before + [o]);
      }
    }

    method AddBlob(data: Bytes) returns (r: Result<ObjectId, WriteError>)
      requires Valid()
      modifies this
      ensures Valid() && isCleanedUp == old(isCleanedUp)
      ensures old(isCleanedUp) ==> r == Result.Err(CleanedUp) && collected == old(collected)
      ensures !old(isCleanedUp) && storageMode != OtherMode ==>
                r == Ok(ObjectId(Object(BlobType, data))) &&
                collected == Added(old(collected), Hashed(Object(BlobType, data)))
      ensures r.Err? ==> collected == old(collected)
    {
      if isCleanedUp { return Result.Err(CleanedUp); }
      var o := Hashed(Object(BlobType, data));
      HasIsMember(collected.objects, o.id);
      if o.id in objectHashes { return Ok(o.id); }
      var ok := Remember(o);
      r := if ok then Ok(o.id) else Result.Err(UnknownMode);
    }

    /** Adds an object under the hash it comes with; failures are silent. */
    method AddObject(o: PackObject)
      requires Valid()
      modifies this
      ensures Valid() && isCleanedUp == old(isCleanedUp)
      ensures collected == if old(isCleanedUp) || storageMode == OtherMode then old(collected)
              else Added(old(collected), o)
    {
      if isCleanedUp { return; }
      HasIsMember(collected.objects, o.id);
      if o.id in objectHashes { return; }
      var ok := Remember(o);
    }

    /** Adds a commit, signed if there is a signer. */
    method AddCommit(commit: CommitCodec.Commit, signer: Option<Bytes -> Option<Bytes>>)
      returns (r: Result<ObjectId, WriteError>)
      requires Valid() && commit.author.Some? && commit.committer.Some? && commit.signature == []
      modifies this
      ensures Valid() && isCleanedUp == old(isCleanedUp)
      ensures old(isCleanedUp) ==> r == Result.Err(CleanedUp)
      ensures r.Err? ==> collected == old(collected)
      ensures !old(isCleanedUp) && storageMode != OtherMode ==>
                match Signed(commit, signer)
                case None => r == Result.Err(SigningFailed)
                case Some(data) =>
                  r == Ok(ObjectId(Object(CommitType, data))) && collected == AddedCommit(old(collected), data)
    {
      if isCleanedUp { return Result.Err(CleanedUp); }
      var c := commit;
      if signer.Some? {
        var signature := signer.value(CommitCodec.BuildUnsigned(c));
        if signature.None? { return Result.Err(SigningFailed); }
        c := c.(signature := signature.value);
      }
      var o := Hashed(Object(CommitType, CommitCodec.Build(c)));
      HasIsMember(collected.objects, o.id);
      if o.id in objectHashes { return Ok(o.id); }
      var ok := RememberCommit(o);
      r := if ok then Ok(o.id) else Result.Err(UnknownMode);
    }

    /** Stores a new commit, which becomes the one to push. */
    method RememberCommit(o: PackObject) returns (ok: bool)
      requires Valid() && !isCleanedUp && !Has(collected.objects, o.id)
      modifies this
      ensures Valid() && !isCleanedUp && (ok <==> storageMode != OtherMode)
      ensures collected == if ok then Collected(old(collected).objects + [o], Some(o.id)) else old(collected)
    {
      ok := Remember(o);
      if ok { hasCommit, lastCommitHash, collected := true, Some(o.id), collected.(lastCommit := Some(o.id)); }
    }

    method Cleanup() returns (error: Option<WriteError>)
      requires Valid()
      modifies this
      ensures Valid() && isCleanedUp && collected == EMPTY
      ensures error == if old(isCleanedUp) then Some(CleanedUp) else None
    {
      if isCleanedUp { return Some(CleanedUp); }
      objectHashes, memoryObjects, tempFile, hasCommit, lastCommitHash, totalBytes := {}, [], None, false, None, 0;
      isCleanedUp, collected := true, EMPTY;
      error := None;
    }

    /** The encoded objects, from the file or from memory. The receiver may fail after
        `taken` bytes, when `read` bytes have been read from the file; else the file's
        position is left at the end, where the next object goes. */
    method WriteObjects(failure: Option<(nat, nat)>) returns (ok: bool, written: Bytes)
      requires Coherent()
      modifies this`tempFile
      ensures Coherent() && written <= Encode(lib, Contents(collected.objects))
      ensures ok <==> !Cuts(failure, Encode(lib, Contents(collected.objects)))
      ensures ok ==> AtEnd() && written == Encode(lib, Contents(collected.objects))
      ensures tempFile == if ok || old(tempFile).None? then ToEnd(old(tempFile))
                          else var f := old(tempFile).value; Some(f.(offset := Position(failure.value, |f.content|)))
    {
      if tempFile.Some? {
        tempFile := Some(tempFile.value.(offset := 0));
        written := tempFile.value.content[tempFile.value.offset..];
        ok := !Cuts(failure, written);
        if ok {
          tempFile := Some(tempFile.value.(offset := |tempFile.value.content|));
        } else {
          tempFile := Some(tempFile.value.(offset := Position(failure.value, |tempFile.value.content|)));
          written := written[..failure.value.0];
        }
        return;
      }
      written := [];
      for i := 0 to |memoryObjects|
        invariant tempFile.None? && written == Encode(lib, Contents(memoryObjects[..i]))
      {
        TakeOneMore(memoryObjects, i);
        EncodeOneMore(lib, memoryObjects[..i], memoryObjects[i]);
        var o := memoryObjects[i].content;
        var header := WriteHeader(TypeCode(o.kind), |o.data|);
        written := written + (header + lib.deflate(o.data));
      }
      TakeAll(memoryObjects);
      ok := !Cuts(failure, written);
      if !ok { written := written[..failure.value.0]; }
    }

    /** Writes the reference update and the pack; the objects stay for another try, also
        when the receiver fails on the way. */
    method WritePackfile(refName: Bytes, old': ObjectId, failure: Option<(nat, nat)>)
      returns (error: Option<WriteError>, written: Bytes)
      requires Coherent()
      modifies this`tempFile
      ensures Coherent() && (old(AtEnd()) && error != Some(Interrupted) ==> AtEnd())
      ensures isCleanedUp ==> error == Some(CleanedUp) && written == []
      ensures !isCleanedUp ==>
                if error == Some(Interrupted)
                then Cuts(failure, Encode(lib, Contents(collected.objects))) &&
                     written <= Emission(lib, capabilities, collected, refName, old').1
                else (error, written) == Emission(lib, capabilities, collected, refName, old')
      ensures failure.None? ==> error != Some(Interrupted) && (error.None? ==> AtEnd())
    {
      if isCleanedUp { return Some(CleanedUp), []; }
      if !hasCommit { return Some(NoCommit), []; }
      CountsAgree(collected.objects);
      if |objectHashes| == 0 { return Some(NoObjects), []; }
      if capabilities.None? { return Some(BadCapabilities), []; }
      var update := RefUpdate(lib, capabilities.value, refName, old', lastCommitHash.value);
      if |objectHashes| >= TWO32 { return Some(TooManyObjects), update + (SIGNATURE + BigEndian(2, 4)); }
      var ok, objects := WriteObjects(failure);
      var pack := PackHeader(|objectHashes|) + objects;
      if !ok {
        PrefixOfPack(update, PackHeader(|objectHashes|), objects, Encode(lib, Contents(collected.objects)), lib);
        return Some(Interrupted), update + pack;
      }
      error, written := None, update + (pack + lib.checksum(pack));
    }
  }

  /** The receiver fails within these bytes. */
  predicate Cuts(failure: Option<(nat, nat)>, b: Bytes) { failure.Some? && failure.value.0 < |b| }

  /** How far the file has been read then: as far as what was taken, or further. */
  function Position(failure: (nat, nat), size: nat): (k: nat)
    requires failure.0 < size
    ensures failure.0 <= k <= size
  {
    if failure.1 < failure.0 then failure.0 else if failure.1 > size then size else failure.1
  }

  function ToEnd(f: Option<TempFile>): Option<TempFile> {
    match f
    case None => None
    case Some(file) => Some(file.(offset := |file.content|))
  }

  lemma PrefixOfPack(update: Bytes, header: Bytes, objects: Bytes, all: Bytes, lib: Library)
    requires objects <= all
    ensures update + (header + objects) <= update + ((header + all) + lib.checksum(header + all))
  {
    assert all == objects + all[|objects|..];
    assert header + all == (header + objects) + all[|objects|..];
  }

  /** The commit object that adding a commit stores, if signing succeeds. */
  function Signed(c: CommitCodec.Commit, signer: Option<Bytes -> Option<Bytes>>): Option<Bytes>
    requires c.author.Some? && c.committer.Some?
  {
    if signer.None? then Some(CommitCodec.Build(c))
    else match signer.value(CommitCodec.BuildUnsigned(c))
         case None => None
         case Some(signature) => Some(CommitCodec.Build(c.(signature := signature)))
  }

  lemma HeaderNotEmpty(code: nat, size: nat)
    requires code < 8
    ensures |EntryHeader(code, size)| >= 1
  {
  }

  lemma EncodeOneMore(lib: Library, objects: seq<PackObject>, o: PackObject)
    ensures Encode(lib, Contents(objects + [o])) == Encode(lib, Contents(objects)) + EncodeObject(lib, o.content)
  {
    Append(objects, o, o.id);
    EncodeAppend(lib, Contents(objects), [o.content]);
    assert [o.content][1..] == [];
    assert Encode(lib, [o.content]) == EncodeObject(lib, o.content) + Encode(lib, []);
  }

  lemma TakeFront(objects: seq<PackObject>, o: PackObject)
    ensures (objects + [o])[..|objects + [o]| - 1] == objects
  {
  }

  /** Once on disk, always on disk. */
  lemma SpillsStay(objects: seq<PackObject>)
    ensures objects != [] && Spills(objects[..|objects| - 1]) ==> Spills(objects)
  {
    if objects != [] {
      var front := objects[..|objects| - 1];
      Append(front, objects[|objects| - 1], objects[|objects| - 1].id);
      assert objects == front + [objects[|objects| - 1]];
    }
  }

  // ----- all calls

  /** The calls that add objects. */
  datatype Call = BlobCall(data: Bytes) | ObjectCall(object': PackObject) |
                  CommitCall(commit: CommitCodec.Commit, signer: Option<Bytes -> Option<Bytes>>)

  predicate Callable(call: Call) {
    call.CommitCall? ==> call.commit.author.Some? && call.commit.committer.Some? && call.commit.signature == []
  }

  function AfterCall(c: Collected, call: Call): Collected
    requires Callable(call)
  {
    match call
    case BlobCall(data) => Added(c, Hashed(Object(BlobType, data)))
    case ObjectCall(o) => Added(c, o)
    case CommitCall(commit, signer) =>
      (match Signed(commit, signer)
       case None => c
       case Some(data) => AddedCommit(c, data))
  }

  predicate AllCallable(calls: seq<Call>) { forall i :: 0 <= i < |calls| ==> Callable(calls[i]) }

  function AfterCalls(c: Collected, calls: seq<Call>): Collected
    requires AllCallable(calls)
    decreases calls
  {
    if calls == [] then c else AfterCalls(AfterCall(c, calls[0]), calls[1..])
  }

  lemma NextCall(c: Collected, calls: seq<Call>, i: nat)
    requires AllCallable(calls) && i < |calls|
    ensures AfterCalls(c, calls[i..]) == AfterCalls(AfterCall(c, calls[i]), calls[i + 1..])
  {
    assert calls[i..][0] == calls[i] && calls[i..][1..] == calls[i + 1..];
  }

  /** In every storage mode a call collects the same. */
  method Perform(w: PackfileWriter, call: Call)
    requires w.Valid() && !w.isCleanedUp && w.storageMode != OtherMode && Callable(call)
    modifies w
    ensures w.Valid() && !w.isCleanedUp && w.collected == AfterCall(old(w.collected), call)
  {
    match call
    case BlobCall(data) =>
      var r := w.AddBlob(data);
    case ObjectCall(o) =>
      w.AddObject(o);
    case CommitCall(commit, signer) =>
      var r := w.AddCommit(commit, signer);
  }

  method PerformAll(w: PackfileWriter, calls: seq<Call>)
    requires w.Valid() && !w.isCleanedUp && w.storageMode != OtherMode && AllCallable(calls)
    modifies w
    ensures w.Valid() && !w.isCleanedUp && w.collected == AfterCalls(old(w.collected), calls)
  {
    ghost var start := w.collected;
    assert calls[0..] == calls;
    for i := 0 to |calls|
      invariant w.Valid() && !w.isCleanedUp
      invariant AfterCalls(w.collected, calls[i..]) == AfterCalls(start, calls)
    {
      NextCall(w.collected, calls, i);
      Perform(w, calls[i]);
    }
  }

  /** The pack does not depend on where the objects were kept meanwhile, and writing it
      once more gives the same bytes, also after a try that failed halfway. */
  method WriteAll(lib: Library, mode: StorageMode, caps: Option<Bytes>, calls: seq<Call>, refName: Bytes,
                  old': ObjectId, failure: Option<(nat, nat)>)
    returns (error: Option<WriteError>, first: Bytes, second: Bytes, third: Bytes)
    requires mode != OtherMode && AllCallable(calls)
    ensures (error, first) == Emission(lib, caps, AfterCalls(EMPTY, calls), refName, old')
    ensures second <= first && third == first
  {
    var w := new PackfileWriter(lib, mode, caps);
    PerformAll(w, calls);
    error, first := w.WritePackfile(refName, old', None);
    var interrupted, again;
    interrupted, second := w.WritePackfile(refName, old', failure);
    again, third := w.WritePackfile(refName, old', None);
  }

  /** The object a call adds, unless it is there already. */
  function CallObject(call: Call): Option<PackObject>
    requires Callable(call)
  {
    match call
    case BlobCall(data) => Some(Hashed(Object(BlobType, data)))
    case ObjectCall(o) => Some(o)
    case CommitCall(commit, signer) =>
      (match Signed(commit, signer)
       case None => None
       case Some(data) => Some(Hashed(Object(CommitType, data))))
  }

  predicate Adds(call: Call, id: ObjectId)
    requires Callable(call)
  {
    CallObject(call).Some? && CallObject(call).value.id == id
  }

  lemma AfterCallIs(c: Collected, call: Call)
    requires Callable(call)
    ensures var o := CallObject(call);
            AfterCall(c, call).objects ==
              if o.None? || Has(c.objects, o.value.id) then c.objects else c.objects + [o.value]
  {
  }

  lemma AfterCallKeeps(c: Collected, call: Call, id: ObjectId)
    requires Callable(call) && Distinct(c.objects)
    ensures var next := AfterCall(c, call).objects;
            Distinct(next) && c.objects <= next && (Has(next, id) <==> Has(c.objects, id) || Adds(call, id))
  {
    AfterCallIs(c, call);
    if CallObject(call).Some? { Append(c.objects, CallObject(call).value, id); }
  }

  predicate AnyAdds(calls: seq<Call>, id: ObjectId)
    requires AllCallable(calls)
  {
    calls != [] && (Adds(calls[0], id) || AnyAdds(calls[1..], id))
  }

  /** No object is lost and none is there twice; the earlier ones keep their places. */
  lemma {:induction false} NothingLostOrDoubled(c: Collected, calls: seq<Call>, id: ObjectId)
    requires AllCallable(calls) && Distinct(c.objects)
    ensures var after := AfterCalls(c, calls).objects;
            Distinct(after) && c.objects <= after && (Has(after, id) <==> Has(c.objects, id) || AnyAdds(calls, id))
    decreases calls
  {
    if calls != [] {
      AfterCallKeeps(c, calls[0], id);
      NothingLostOrDoubled(AfterCall(c, calls[0]), calls[1..], id);
    }
  }

  /** The pack of any calls reads back as what they added, in order. */
  lemma CollectedPackReadsBack(lib: Library, calls: seq<Call>)
    requires SelfDelimiting(lib) && AllCallable(calls)
    requires var objects := Contents(AfterCalls(EMPTY, calls).objects); Sized(objects) && |objects| < TWO32
    ensures var objects := AfterCalls(EMPTY, calls).objects;
            Distinct(objects) && |Ids(objects)| == |Contents(objects)| &&
            PackEntries(lib, Packed(lib, Contents(objects))) == ReadBack(Contents(objects))
  {
    var objects := AfterCalls(EMPTY, calls).objects;
    NothingLostOrDoubled(EMPTY, calls, ObjectId(Object(BlobType, [])));
    CountsAgree(objects);
    PackRoundTrip(lib, Contents(objects));
  }

  // ----- what comes back

  /** A blob, a tree built from recoverable entries under its own hash, or a commit of
      clean people without extra header fields, of at most ten mebibytes. */
  ghost predicate Proper(call: Call)
    requires Callable(call)
  {
    match call
    case BlobCall(data) => |data| <= MAX_UNPACKED
    case ObjectCall(o) => o == Hashed(o.content) && BuiltTree(o.content) && |o.content.data| <= MAX_UNPACKED
    case CommitCall(c, signer) =>
      CommitCodec.Clean(c.author.value) && CommitCodec.Clean(c.committer.value) && c.fields == map[] &&
      (Signed(c, signer).Some? ==> |Signed(c, signer).value| <= MAX_UNPACKED)
  }

  ghost predicate BuiltTree(o: Object) {
    exists entries: seq<TreeCodec.HexEntry> ::
      (forall e :: e in entries ==> TreeCodec.Recoverable(e)) &&
      o.kind == TreeType && TreeCodec.Listing(TreeOrder.SortEntries(entries)) == Ok(o.data)
  }

  ghost predicate AllProper(calls: seq<Call>) {
    AllCallable(calls) && forall i :: 0 <= i < |calls| ==> Proper(calls[i])
  }

  /** Every object is under its own hash and can be read. */
  ghost predicate AllReadable(objects: seq<PackObject>) {
    forall i :: 0 <= i < |objects| ==> objects[i] == Hashed(objects[i].content) && Readable(objects[i].content)
  }

  lemma BuiltTreeIsReadable(o: Object)
    requires BuiltTree(o) && |o.data| <= MAX_UNPACKED
    ensures Readable(o)
  {
    var entries: seq<TreeCodec.HexEntry> :|
      (forall e :: e in entries ==> TreeCodec.Recoverable(e)) &&
      o.kind == TreeType && TreeCodec.Listing(TreeOrder.SortEntries(entries)) == Ok(o.data);
    BuiltTreeReadable(entries);
    assert o == Object(TreeType, o.data);
  }

  lemma SignedIsReadable(c: CommitCodec.Commit, signer: Option<Bytes -> Option<Bytes>>)
    requires c.author.Some? && c.committer.Some? && c.fields == map[]
    requires CommitCodec.Clean(c.author.value) && CommitCodec.Clean(c.committer.value)
    requires Signed(c, signer).Some? && |Signed(c, signer).value| <= MAX_UNPACKED
    ensures Readable(Object(CommitType, Signed(c, signer).value))
  {
    if signer.None? {
      BuiltCommitReadable(c);
    } else {
      BuiltCommitReadable(c.(signature := signer.value(CommitCodec.BuildUnsigned(c)).value));
    }
  }

  lemma ProperIsReadable(call: Call)
    requires Callable(call) && Proper(call)
    ensures var o := CallObject(call);
            o.Some? ==> o.value == Hashed(o.value.content) && Readable(o.value.content)
  {
    match call
    case BlobCall(_) =>
    case ObjectCall(o) => BuiltTreeIsReadable(o.content);
    case CommitCall(c, signer) => if Signed(c, signer).Some? { SignedIsReadable(c, signer); }
  }

  lemma {:induction false} ProperCallsReadable(c: Collected, calls: seq<Call>)
    requires AllProper(calls) && AllReadable(c.objects)
    ensures AllReadable(AfterCalls(c, calls).objects)
    decreases calls
  {
    if calls != [] {
      ProperIsReadable(calls[0]);
      AfterCallIs(c, calls[0]);
      ProperCallsReadable(AfterCall(c, calls[0]), calls[1..]);
    }
  }

  lemma {:induction false} ContentsAt(objects: seq<PackObject>)
    ensures |Contents(objects)| == |objects|
    ensures forall i :: 0 <= i < |objects| ==> Contents(objects)[i] == objects[i].content
  {
    if objects != [] { ContentsAt(objects[1..]); }
  }

  /** Any blobs, built trees and clean commits of at most ten mebibytes: reading the pack
      that is written for them gives every object that was collected, in order, under
      the hash it was collected under, with its content parsed. */
  lemma ProperPackComesBack(lib: Library, calls: seq<Call>)
    requires SelfDelimiting(lib) && AllProper(calls) && |AfterCalls(EMPTY, calls).objects| < TWO32
    ensures var objects := AfterCalls(EMPTY, calls).objects;
            |Contents(objects)| == |objects| &&
            var read := PackEntries(lib, Packed(lib, Contents(objects)));
            read.Ok? && |read.value| == |objects| &&
            forall i :: 0 <= i < |objects| ==>
              var o := objects[i];
              ParseContent(o.content).Ok? &&
              read.value[i] == ObjectEntry(o.content, o.id, ParseContent(o.content).value)
  {
    var objects := AfterCalls(EMPTY, calls).objects;
    var contents := Contents(objects);
    ProperCallsReadable(EMPTY, calls);
    ContentsAt(objects);
    forall o | o in contents ensures Readable(o) {
      var i :| 0 <= i < |contents| && contents[i] == o;
    }
    PackRoundTrip(lib, contents);
    ReadBackIff(contents);
    if objects != [] { ReadBackGives(contents, 0); }
    forall i | 0 <= i < |objects|
      ensures ParseContent(objects[i].content).Ok?
      ensures ReadBack(contents).value[i] ==
              ObjectEntry(objects[i].content, objects[i].id, ParseContent(objects[i].content).value)
    {
      ReadBackGives(contents, i);
    }
  }
}
