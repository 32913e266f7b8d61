/** The staged writer itself: a mutable object whose calls update its maps in place. */
module StagedWriting {
  import opened GitTypes
  import opened Sorting
  import opened TreeOrder
  import opened StagedTree
  import opened StagedInvariant
  import opened StagedMaps
  import opened StagedSteps
  import opened StagedMove
  import opened StagedRebuild
  import opened WriterRuns

  datatype WriterError =
    | CleanedUp
    | EmptyPath
    | SamePath
    | ObjectAlreadyExists(hash: Hash)
    | PathNotFound(path: Path)
    | UnexpectedObjectType(hash: Hash)
    | EmptyCommitMessage
    | MissingIdentity
    | NothingToCommit
    | NothingToPush
    | PushRejected

  /** The first path above `p`, from length `i` on, staged as something other than
      a directory; its length, or `|p|` when there is none. */
  function FirstBlock(tree: Entries, p: Path, i: nat): (k: nat)
    requires 1 <= i <= |p|
    ensures i <= k <= |p|
    ensures k < |p| ==> p[..k] in tree
    decreases |p| - i
  {
    if i == |p| || (p[..i] in tree && !tree[p[..i]].kind.TreeObject?) then i else FirstBlock(tree, p, i + 1)
  }

  /** The first path above `p`, from length `i` on, not staged as a directory. */
  function FirstGap(tree: Entries, p: Path, i: nat): (k: nat)
    requires 1 <= i <= |p|
    ensures i <= k <= |p|
    decreases |p| - i
  {
    if i == |p| || !IsDir(tree, p[..i]) then i else FirstGap(tree, p, i + 1)
  }

  lemma {:induction false} FirstBlockIs(tree: Entries, p: Path, i: nat)
    requires 1 <= i <= |p|
    ensures forall j :: i <= j < FirstBlock(tree, p, i) && p[..j] in tree ==> tree[p[..j]].kind.TreeObject?
    ensures FirstBlock(tree, p, i) < |p| ==> !tree[p[..FirstBlock(tree, p, i)]].kind.TreeObject?
    decreases |p| - i
  {
    if i < |p| { FirstBlockIs(tree, p, i + 1); }
  }

  lemma {:induction false} FirstGapIs(tree: Entries, p: Path, i: nat)
    requires 1 <= i <= |p|
    ensures forall j :: i <= j < FirstGap(tree, p, i) ==> IsDir(tree, p[..j])
    ensures FirstGap(tree, p, i) < |p| ==> !IsDir(tree, p[..FirstGap(tree, p, i)])
    decreases |p| - i
  {
    if i < |p| { FirstGapIs(tree, p, i + 1); }
  }

  function GapError(tree: Entries, d: Path): WriterError {
    if d in tree then UnexpectedObjectType(tree[d].hash) else PathNotFound(d)
  }

  /** What a write leaves behind when something above `p` is no directory: the file is
      packed and staged, and the directories before the obstacle are marked. */
  function FailedWrite(s: Stage, p: Path, data: Bytes): Stage {
    if p == [] then s
    else AddDirs(PlaceBlob(Collect(s, BlobId(data)), p, MODE_FILE, BlobId(data)), p, FirstBlock(s.tree, p, 1))
  }

  /** Such a file is staged below something that is no directory. */
  lemma FailedWriteIsStaged(s: Stage, p: Path, data: Bytes)
    requires p != [] && !Unblocked(s.tree, p)
    ensures var t := FailedWrite(s, p, data); p in t.tree && !HasParents(t.tree, p) && !Consistent(t)
  {
    var k, t := FirstBlock(s.tree, p, 1), FailedWrite(s, p, data);
    FirstBlockIs(s.tree, p, 1);
    var u := PlaceBlob(Collect(s, BlobId(data)), p, MODE_FILE, BlobId(data));
    AddDirsAt(u, p, k, p);
    AddDirsAt(u, p, k, p[..k]);
    assert !IsDir(t.tree, p[..k]);
  }

  class StagedWriter {
    var treeEntries: Entries
    var submoduleEntries: Entries
    var dirtyPaths: set<Path>
    var lastTree: Hash
    var lastCommit: Hash
    var refHash: Hash
    // the pack being collected
    var objectHashes: set<Hash>
    var hasCommit: bool
    var lastCommitHash: Hash
    var isCleanedUp: bool
    // the repository at the other end
    ghost var remote: set<Hash>
    ghost var remoteRef: Hash

    ghost function Staged(): Stage
      reads this
    {
      Stage(treeEntries, submoduleEntries, dirtyPaths, lastTree, objectHashes)
    }

    ghost function View(): Writer
      reads this
    {
      Writer(Staged(), lastCommit, hasCommit, lastCommitHash, refHash, remoteRef, remote)
    }

    /** A writer over the flat listing of a reference's tree. */
    constructor (entries: Entries, submodules: Entries, tree: Hash, commit: Hash, ghost objects: set<Hash>)
      ensures View() == Writer(Stage(entries, submodules, {}, tree, {}), commit, false, Zero, commit, commit, objects)
      ensures !isCleanedUp
    {
      treeEntries, submoduleEntries, dirtyPaths := entries, submodules, {};
      lastTree, lastCommit, refHash := tree, commit, commit;
      objectHashes, hasCommit, lastCommitHash := {}, false, Zero;
      isCleanedUp := false;
      remote, remoteRef := objects, commit;
    }

    // ----- marking parents

    /** Marks every directory above `path` dirty, creating the missing ones. */
    method AddMissingOrStaleTreeEntries(path: Path) returns (err: Option<WriterError>)
      requires path != []
      modifies this`treeEntries, this`dirtyPaths
      ensures var k := FirstBlock(old(treeEntries), path, 1);
              if k == |path| then err == None && Staged() == AddParents(old(Staged()), path)
              else err == Some(UnexpectedObjectType(old(treeEntries)[path[..k]].hash)) &&
                   Staged() == AddDirs(old(Staged()), path, k)
    {
      ghost var s := Staged();
      var i := 1;
      while i < |path|
        invariant 1 <= i <= |path|
        invariant Staged() == AddDirs(s, path, i)
        invariant FirstBlock(s.tree, path, 1) == FirstBlock(s.tree, path, i)
      {
        var currentPath := path[..i];
        AddDirsAt(s, path, i, currentPath);
        if currentPath in treeEntries && !treeEntries[currentPath].kind.TreeObject? {
          return Some(UnexpectedObjectType(treeEntries[currentPath].hash));
        }
        if currentPath !in treeEntries {
          treeEntries := treeEntries[currentPath := NEW_DIRECTORY];
        }
        dirtyPaths := dirtyPaths + {currentPath};
        i := i + 1;
      }
      dirtyPaths := dirtyPaths + {[]};
      return None;
    }

    /** Marks every directory above a removed `path` dirty; all of them must be staged. */
    method RemoveFromTree(path: Path) returns (err: Option<WriterError>)
      requires path != []
      modifies this`dirtyPaths
      ensures var k := FirstGap(treeEntries, path, 1);
              if k == |path| then err == None && Staged() == MarkParents(old(Staged()), path)
              else err == Some(GapError(treeEntries, path[..k])) && Staged() == MarkDirs(old(Staged()), path, k)
    {
      ghost var s := Staged();
      var i := 1;
      while i < |path|
        invariant 1 <= i <= |path|
        invariant Staged() == MarkDirs(s, path, i)
        invariant FirstGap(treeEntries, path, 1) == FirstGap(treeEntries, path, i)
      {
        var currentPath := path[..i];
        if currentPath !in treeEntries {
          return Some(PathNotFound(currentPath));
        }
        if !treeEntries[currentPath].kind.TreeObject? {
          return Some(UnexpectedObjectType(treeEntries[currentPath].hash));
        }
        dirtyPaths := dirtyPaths + {currentPath};
        i := i + 1;
      }
      dirtyPaths := dirtyPaths + {[]};
      return None;
    }

    // ----- staging files

    /** What a create or update answers once its path has passed the first checks. */
    ghost function WriteResult(tree: Entries, path: Path, content: Bytes): Result<Hash, WriterError>
      requires path != []
    {
      var k := FirstBlock(tree, path, 1);
      if k < |path| then Err(UnexpectedObjectType(tree[path[..k]].hash)) else Ok(BlobId(content))
    }

    method CreateBlob(path: Path, content: Bytes) returns (r: Result<Hash, WriterError>)
      modifies this
      ensures r == if old(isCleanedUp) then Err(CleanedUp)
                   else if path == [] then Err(EmptyPath)
                   else if path in old(treeEntries) then Err(ObjectAlreadyExists(old(treeEntries)[path].hash))
                   else WriteResult(old(treeEntries), path, content)
      ensures r.Ok? ==> Step(old(View()), Call.CreateBlob(path, content), View())
      ensures r.Ok? ==> FileWritten(old(Staged()), path, content, Staged())
      ensures r.Err? ==> View() == if r.error.UnexpectedObjectType?
                                   then old(View()).(stage := FailedWrite(old(Staged()), path, content))
                                   else old(View())
      ensures isCleanedUp == old(isCleanedUp)
    {
      if isCleanedUp { return Err(CleanedUp); }
      if path == [] { return Err(EmptyPath); }
      if path in treeEntries { return Err(ObjectAlreadyExists(treeEntries[path].hash)); }
      WritesFile(Staged(), path, content);
      r := StoreBlob(path, content);
    }

    method UpdateBlob(path: Path, content: Bytes) returns (r: Result<Hash, WriterError>)
      modifies this
      ensures r == if old(isCleanedUp) then Err(CleanedUp)
                   else if path == [] then Err(EmptyPath)
                   else if path !in old(treeEntries) then Err(PathNotFound(path))
                   else WriteResult(old(treeEntries), path, content)
      ensures r.Ok? ==> Step(old(View()), Call.UpdateBlob(path, content), View())
      ensures r.Ok? ==> FileWritten(old(Staged()), path, content, Staged())
      ensures r.Err? ==> View() == if r.error.UnexpectedObjectType?
                                   then old(View()).(stage := FailedWrite(old(Staged()), path, content))
                                   else old(View())
      ensures isCleanedUp == old(isCleanedUp)
    {
      if isCleanedUp { return Err(CleanedUp); }
      if path == [] { return Err(EmptyPath); }
      if path !in treeEntries { return Err(PathNotFound(path)); }
      WritesFile(Staged(), path, content);
      r := StoreBlob(path, content);
    }

    /** Packs the content and stages it at `path`; a file in the way of a parent
        is only noticed after both. */
    method StoreBlob(path: Path, content: Bytes) returns (r: Result<Hash, WriterError>)
      requires path != []
      modifies this
      ensures r == WriteResult(old(treeEntries), path, content)
      ensures r.Ok? ==> Unblocked(old(treeEntries), path)
      ensures View() == old(View()).(stage := if r.Ok? then WriteBlob(old(Staged()), path, content)
                                              else FailedWrite(old(Staged()), path, content))
      ensures isCleanedUp == old(isCleanedUp)
    {
      ghost var tree := treeEntries;
      var h := BlobId(content);
      objectHashes := objectHashes + {h};
      treeEntries := treeEntries[path := Entry(BlobObject, MODE_FILE, h)];
      ghost var k := FirstBlock(treeEntries, path, 1);
      SameBlock(tree, treeEntries, path, 1);
      FirstBlockIs(tree, path, 1);
      var err := AddMissingOrStaleTreeEntries(path);
      if err.Some? { return Err(err.value); }
      r := Ok(h);
    }

    method DeleteBlob(path: Path) returns (r: Result<Hash, WriterError>)
      modifies this
      ensures old(isCleanedUp) ==> r == Err(CleanedUp)
      ensures !old(isCleanedUp) && path == [] ==> r == Err(EmptyPath)
      ensures !old(isCleanedUp) && path != [] ==>
                r == if path !in old(treeEntries) then Err(PathNotFound(path))
                     else if !old(treeEntries)[path].kind.BlobObject?
                       then Err(UnexpectedObjectType(old(treeEntries)[path].hash))
                     else var k := FirstGap(old(treeEntries), path, 1);
                          if k < |path| then Err(GapError(old(treeEntries), path[..k]))
                          else Ok(old(treeEntries)[path].hash)
      ensures r.Ok? ==> Step(old(View()), Call.DeleteBlob(path), View())
      ensures r.Ok? ==> FileRemoved(old(Staged()), path, Staged())
      ensures isCleanedUp == old(isCleanedUp)
    {
      if isCleanedUp { return Err(CleanedUp); }
      if path == [] { return Err(EmptyPath); }
      if path !in treeEntries { return Err(PathNotFound(path)); }
      var e := treeEntries[path];
      if !e.kind.BlobObject? { return Err(UnexpectedObjectType(e.hash)); }
      ghost var tree := treeEntries;
      RemovesFile(Staged(), path);
      treeEntries := treeEntries - {path};
      SameGap(tree, treeEntries, path, 1);
      FirstGapIs(tree, path, 1);
      var err := RemoveFromTree(path);
      if err.Some? { return Err(err.value); }
      r := Ok(e.hash);
    }

    ghost predicate CanMoveBlob(src: Path, dst: Path)
      reads this
    {
      && src != [] && dst != [] && src in treeEntries && treeEntries[src].kind.BlobObject?
      && dst !in treeEntries && Unblocked(treeEntries, dst) && HasParents(treeEntries, src)
    }

    method MoveBlob(src: Path, dst: Path) returns (r: Result<Hash, WriterError>)
      modifies this
      ensures old(isCleanedUp) ==> r == Err(CleanedUp)
      ensures !old(isCleanedUp) && (src == [] || dst == []) ==> r == Err(EmptyPath)
      ensures !old(isCleanedUp) && src != [] && dst == src ==> r == Err(SamePath)
      ensures !old(isCleanedUp) && src != [] && dst != [] && dst != src ==>
                if src !in old(treeEntries) then r == Err(PathNotFound(src))
                else if !old(treeEntries)[src].kind.BlobObject?
                  then r == Err(UnexpectedObjectType(old(treeEntries)[src].hash))
                else if dst in old(treeEntries) then r == Err(ObjectAlreadyExists(old(treeEntries)[dst].hash))
                else r.Ok? ==> r.value == old(treeEntries)[src].hash
      ensures r.Ok? ==> Step(old(View()), Call.MoveBlob(src, dst), View())
      ensures r.Ok? ==> FileMoved(old(Staged()), src, dst, Staged())
      ensures !old(isCleanedUp) && old(CanMoveBlob(src, dst)) ==> r.Ok?
      ensures isCleanedUp == old(isCleanedUp)
    {
      if isCleanedUp { return Err(CleanedUp); }
      if src == [] || dst == [] { return Err(EmptyPath); }
      if src == dst { return Err(SamePath); }
      if src !in treeEntries { return Err(PathNotFound(src)); }
      if !treeEntries[src].kind.BlobObject? { return Err(UnexpectedObjectType(treeEntries[src].hash)); }
      if dst in treeEntries { return Err(ObjectAlreadyExists(treeEntries[dst].hash)); }
      r := RestageBlob(src, dst);
    }

    /** Stages the file at its new path, then drops it at the old one. */
    method RestageBlob(src: Path, dst: Path) returns (r: Result<Hash, WriterError>)
      requires src != [] && dst != [] && src != dst && src in treeEntries && dst !in treeEntries
      modifies this`treeEntries, this`dirtyPaths
      ensures r.Ok? ==> Unblocked(old(treeEntries), dst) && r.value == old(treeEntries)[src].hash &&
                        Staged() == RenameBlob(old(Staged()), src, dst)
      ensures r.Ok? ==> FileMoved(old(Staged()), src, dst, Staged())
      ensures Unblocked(old(treeEntries), dst) && HasParents(old(treeEntries), src) ==> r.Ok?
    {
      ghost var s := Staged();
      MovesFile(s, src, dst);
      var e := treeEntries[src];
      ghost var tree := treeEntries;
      treeEntries := treeEntries[dst := Entry(BlobObject, e.mode, e.hash)];
      SameBlock(tree, treeEntries, dst, 1);
      FirstBlockIs(tree, dst, 1);
      var err := AddMissingOrStaleTreeEntries(dst);
      if err.Some? { return Err(err.value); }
      treeEntries := treeEntries - {src};
      FirstGapIs(treeEntries, src, 1);
      if HasParents(s.tree, src) { ParentsKept(PlaceBlob(s, dst, e.mode, e.hash), src, dst); }
      err := RemoveFromTree(src);
      if err.Some? { return Err(err.value); }
      r := Ok(e.hash);
    }

    // ----- directories

    method DeleteTree(path: Path) returns (r: Result<Hash, WriterError>)
      modifies this
      ensures old(isCleanedUp) ==> r == Err(CleanedUp)
      ensures !old(isCleanedUp) && (path == [] || path == DOT) ==>
                r == Ok(EMPTY_TREE) && View() == old(View()).(stage := WipeTree(old(Staged())))
      ensures !old(isCleanedUp) && path != [] && path != DOT ==>
                if path !in old(treeEntries) then r == Err(PathNotFound(path))
                else if !old(treeEntries)[path].kind.TreeObject?
                  then r == Err(UnexpectedObjectType(old(treeEntries)[path].hash))
                else
                  (HasParents(old(treeEntries), path) <==> r.Ok?) && (r.Ok? ==> r.value == old(treeEntries)[path].hash)
      ensures r.Ok? ==> Step(old(View()), Call.DeleteTree(if path == DOT then [] else path), View())
      ensures r.Ok? && path != [] && path != DOT ==> SubtreeRemoved(old(Staged()), path, Staged())
      ensures isCleanedUp == old(isCleanedUp)
    {
      if isCleanedUp { return Err(CleanedUp); }
      if path == [] || path == DOT {
        WipeRoot();
        return Ok(EMPTY_TREE);
      }
      if path !in treeEntries { return Err(PathNotFound(path)); }
      var existing := treeEntries[path];
      if !existing.kind.TreeObject? { return Err(UnexpectedObjectType(existing.hash)); }
      RemovesSubtree(Staged(), path);
      var err := RemoveSubtree(path);
      if err.Some? { return Err(err.value); }
      r := Ok(existing.hash);
    }

    /** Packs the empty tree and forgets everything staged. */
    method WipeRoot()
      modifies this`treeEntries, this`submoduleEntries, this`dirtyPaths, this`lastTree, this`objectHashes
      ensures Staged() == WipeTree(old(Staged()))
    {
      objectHashes := objectHashes + {EMPTY_TREE};
      treeEntries, submoduleEntries, dirtyPaths := map[], map[], {};
      treeEntries := treeEntries[[] := Entry(TreeObject, MODE_TREE, EMPTY_TREE)];
      lastTree := EMPTY_TREE;
    }

    /** Drops the entries and gitlinks at or below `path`, then marks its parents. */
    method RemoveSubtree(path: Path) returns (err: Option<WriterError>)
      requires path != []
      modifies this`treeEntries, this`submoduleEntries, this`dirtyPaths
      ensures HasParents(old(treeEntries), path) <==> err.None?
      ensures err.None? ==> Staged() == RemoveTree(old(Staged()), path)
    {
      ghost var s := Staged();
      treeEntries := RemoveUnder(treeEntries, path);
      submoduleEntries := RemoveUnder(submoduleEntries, path);
      FirstGapIs(treeEntries, path, 1);
      assert HasParents(treeEntries, path) <==> HasParents(s.tree, path);
      err := RemoveFromTree(path);
    }

    method MoveTree(src: Path, dst: Path) returns (r: Result<Hash, WriterError>)
      modifies this
      ensures old(isCleanedUp) ==> r == Err(CleanedUp)
      ensures !old(isCleanedUp) && (src == [] || dst == []) ==> r == Err(EmptyPath)
      ensures !old(isCleanedUp) && src != [] && dst == src ==> r == Err(SamePath)
      ensures !old(isCleanedUp) && src != [] && dst != [] && dst != src ==>
                if src !in old(treeEntries) then r == Err(PathNotFound(src))
                else if !old(treeEntries)[src].kind.TreeObject?
                  then r == Err(UnexpectedObjectType(old(treeEntries)[src].hash))
                else if dst in old(treeEntries) then r == Err(ObjectAlreadyExists(old(treeEntries)[dst].hash))
                else r.Ok? ==> r.value == old(treeEntries)[src].hash
      ensures r.Ok? ==> Step(old(View()), Call.MoveTree(src, dst), View())
      ensures !old(isCleanedUp) && old(CanMoveTree(src, dst)) ==> r.Ok?
      ensures isCleanedUp == old(isCleanedUp)
    {
      if isCleanedUp { return Err(CleanedUp); }
      if src == [] || dst == [] { return Err(EmptyPath); }
      if src == dst { return Err(SamePath); }
      if src !in treeEntries { return Err(PathNotFound(src)); }
      if !treeEntries[src].kind.TreeObject? { return Err(UnexpectedObjectType(treeEntries[src].hash)); }
      if dst in treeEntries { return Err(ObjectAlreadyExists(treeEntries[dst].hash)); }
      var treeHash := treeEntries[src].hash;
      var err := RelocateSubtree(src, dst);
      if err.Some? { return Err(err.value); }
      r := Ok(treeHash);
    }

    ghost predicate CanMoveTree(src: Path, dst: Path)
      reads this
    {
      MoveStarts(Staged(), src, dst) && Rooted(Staged())
    }

    /** Moves the entries and gitlinks under `src`, then marks both sets of parents. */
    method RelocateSubtree(src: Path, dst: Path) returns (err: Option<WriterError>)
      requires src != [] && dst != [] && src != dst && IsDir(treeEntries, src) && dst !in treeEntries
      modifies this`treeEntries, this`submoduleEntries, this`dirtyPaths
      ensures err.None? ==>
                exists u :: Shifted(old(Staged()), src, dst, u) && Unblocked(u.tree, dst) &&
                  Staged() == MarkBoth(u, src, dst)
      ensures old(CanMoveTree(src, dst)) ==> err.None?
    {
      ghost var s := Staged();
      ShiftEntries(src, dst);
      if MoveStarts(s, src, dst) && Rooted(s) {
        RootedNoOverlap(s, src, dst);
        ShiftedIsShiftTree(s, src, dst, Staged());
        MoveParentsOfSource(s, src, dst);
      }
      err := UpdateTreeStructuresForMove(src, dst);
    }

    method ShiftEntries(src: Path, dst: Path)
      requires src != dst
      modifies this`treeEntries, this`submoduleEntries
      ensures Shifted(old(Staged()), src, dst, Staged())
    {
      ghost var s := Staged();
      treeEntries := MoveEntries(treeEntries, src, dst);
      submoduleEntries := ReparentSubmodules(submoduleEntries, src, dst);
      ghost var entries :| IsListing(entries, s.tree, src) && treeEntries == MovedOver(s.tree, src, dst, entries);
      ghost var links :| IsListing(links, s.links, src) && submoduleEntries == Reparented(s.links, src, dst, links);
      assert ShiftedBy(s, src, dst, entries, links, Staged());
    }

    /** Marks the parents of the destination and then those of the source. */
    method UpdateTreeStructuresForMove(src: Path, dst: Path) returns (err: Option<WriterError>)
      requires src != [] && dst != []
      modifies this`treeEntries, this`dirtyPaths
      ensures err.None? ==> Unblocked(old(treeEntries), dst) && Staged() == MarkBoth(old(Staged()), src, dst)
      ensures Unblocked(old(treeEntries), dst) && HasParents(old(treeEntries), src) ==> err.None?
    {
      FirstBlockIs(treeEntries, dst, 1);
      if HasParents(treeEntries, src) { ParentsKept(Staged(), src, dst); }
      err := AddMissingOrStaleTreeEntries(dst);
      if err.Some? { return; }
      FirstGapIs(treeEntries, src, 1);
      err := RemoveFromTree(src);
    }

    // ----- committing

    /** The entries a rebuild of `dir` puts into its tree object: the staged ones
        and the gitlinks they do not shadow, in whatever order the maps list them. */
    method CollectDirectChildren(dir: Path) returns (entries: seq<TreeEntry<Hash>>)
      ensures DistinctNames(entries) && Lists(entries, Children(Staged(), dir))
    {
      entries := [];
      var todo := treeEntries.Keys;
      while todo != {}
        invariant todo <= treeEntries.Keys
        invariant forall e :: e in entries <==> EntryAt(treeEntries, dir, e) && dir + [e.name] !in todo
        invariant DistinctNames(entries)
      {
        var p :| p in todo;
        todo := todo - {p};
        if IsChild(dir, p) {
          assert p == dir + [p[|dir|]];
          entries := entries + [TreeEntry(treeEntries[p].mode, p[|dir|], treeEntries[p].hash)];
        }
      }
      todo := submoduleEntries.Keys;
      while todo != {}
        invariant todo <= submoduleEntries.Keys
        invariant forall e :: e in entries <==>
                    EntryAt(treeEntries, dir, e) ||
                    (EntryAt(submoduleEntries, dir, e) && dir + [e.name] !in treeEntries && dir + [e.name] !in todo)
        invariant DistinctNames(entries)
      {
        var p :| p in todo;
        todo := todo - {p};
        if p !in treeEntries && IsChild(dir, p) {
          assert p == dir + [p[|dir|]];
          entries := entries + [TreeEntry(submoduleEntries[p].mode, p[|dir|], submoduleEntries[p].hash)];
        }
      }
      ghost var m := Children(Staged(), dir);
      forall e ensures e in entries <==> e.name in m && m[e.name] == Link(e.mode, e.hash) {
        assert e.name in m <==> Lookup(Staged(), dir + [e.name]).Some?;
      }
    }

    /** Sorts the entries into a tree object, packs it and records its hash. */
    method BuildSingleTree(dir: Path)
      requires dir == [] || dir in treeEntries
      modifies this`treeEntries, this`lastTree, this`objectHashes
      ensures Staged() == BuildOne(old(Staged()), dir)
      ensures var h := if dir == [] then lastTree else treeEntries[dir].hash;
              h in objectHashes && h.TreeId? && GitOrdered(h.entries) && Lists(h.entries, Children(old(Staged()), dir))
    {
      var entries := CollectDirectChildren(dir);
      var h := TreeId(SortEntries(entries));
      SortEntriesCanonical(entries);
      SortIsCanon(entries, Children(Staged(), dir));
      objectHashes := objectHashes + {h};
      if dir == [] {
        lastTree := h;
      } else {
        treeEntries := treeEntries[dir := treeEntries[dir].(hash := h)];
      }
    }

    /** Rebuilds all dirty directories, deepest first. */
    method BuildPendingTrees()
      modifies this`treeEntries, this`lastTree, this`objectHashes, this`dirtyPaths
      ensures Rebuilt(old(Staged()), Staged())
      ensures objectHashes != {} <==> old(objectHashes) != {} ||
                                      exists p :: p in old(dirtyPaths) && (p == [] || p in old(treeEntries))
    {
      ghost var s := Staged();
      var order := [];
      var todo := dirtyPaths;
      while todo != {}
        invariant todo <= dirtyPaths
        invariant forall p :: p in order <==> p in dirtyPaths - todo
      {
        var p :| p in todo;
        todo := todo - {p};
        order := order + [p];
      }
      ghost var listed := order;
      order := Sort(RebuiltBefore, order);
      RebuiltBeforeIsOrder();
      SortOrders(RebuiltBefore, listed);
      forall p ensures p in order <==> p in s.dirty { SameElements(order, listed, p); }
      for k := 0 to |order|
        invariant dirtyPaths == s.dirty
        invariant BuildAll(s, order) == BuildAll(Staged(), order[k..])
      {
        var dir := order[k];
        ghost var before := Staged();
        assert order[k..][0] == dir && order[k..][1..] == order[k + 1..];
        if dir in treeEntries || dir == [] {
          BuildSingleTree(dir);
        }
        assert Staged() == BuildOne(before, dir);
      }
      dirtyPaths := {};
      BuildAllPacksIff(s, order);
    }

    method Commit(text: CommitText) returns (r: Result<Hash, WriterError>)
      modifies this
      ensures old(isCleanedUp) ==> r == Err(CleanedUp)
      ensures !old(isCleanedUp) && text.message == [] ==> r == Err(EmptyCommitMessage)
      ensures !old(isCleanedUp) && text.message != [] &&
              (text.author.name == [] || text.author.email == [] || text.committer.name == [] ||
               text.committer.email == []) ==>
                r == Err(MissingIdentity)
      ensures r.Err? && !r.error.NothingToCommit? ==> View() == old(View())
      ensures !old(isCleanedUp) && text.message != [] && Identified(text.author) && Identified(text.committer) ==>
                (r.Ok? <==> old(objectHashes) != {} ||
                            exists p :: p in old(dirtyPaths) && (p == [] || p in old(treeEntries)))
      ensures r.Ok? ==> Step(old(View()), Call.Commit(text), View()) && r.value == lastCommit
      ensures r.Ok? ==> r.value == CommitId(lastTree, old(lastCommit), text)
      ensures isCleanedUp == old(isCleanedUp)
    {
      if isCleanedUp { return Err(CleanedUp); }
      if text.message == [] { return Err(EmptyCommitMessage); }
      if !Identified(text.author) { return Err(MissingIdentity); }
      if !Identified(text.committer) { return Err(MissingIdentity); }
      r := BuildAndRecord(text);
    }

    /** Rebuilds what is dirty and packs a commit, if there is anything to push. */
    method BuildAndRecord(text: CommitText) returns (r: Result<Hash, WriterError>)
      modifies this`treeEntries, this`lastTree, this`objectHashes, this`dirtyPaths
      modifies this`hasCommit, this`lastCommitHash, this`lastCommit
      ensures r.Ok? <==> old(objectHashes) != {} ||
                         exists p :: p in old(dirtyPaths) && (p == [] || p in old(treeEntries))
      ensures r.Ok? ==> Step(old(View()), Call.Commit(text), View()) && r.value == lastCommit
      ensures r.Ok? ==> r.value == CommitId(lastTree, old(lastCommit), text)
      ensures r.Err? ==> r.error == NothingToCommit
    {
      ghost var w := View();
      BuildPendingTrees();
      if objectHashes == {} { return Err(NothingToCommit); }
      r := RecordCommit(text);
      RecordedIsStep(w, text, View());
    }

    /** Packs a commit of the root tree unless it is packed already. */
    method RecordCommit(text: CommitText) returns (r: Result<Hash, WriterError>)
      modifies this`objectHashes, this`hasCommit, this`lastCommitHash, this`lastCommit
      ensures View() == Committed(old(View()), text) && r == Ok(lastCommit)
      ensures lastTree == old(lastTree) && lastCommit == CommitId(lastTree, old(lastCommit), text)
    {
      var c := CommitId(lastTree, lastCommit, text);
      if c !in objectHashes {
        objectHashes := objectHashes + {c};
        hasCommit := true;
        lastCommitHash := c;
      }
      lastCommit := c;
      r := Ok(c);
    }

    // ----- pushing

    /** Sends the pack; `accepted` is the remote's verdict. A pack without a commit
        cannot be written, which the verdict on the empty request overrides. */
    method Push(accepted: bool) returns (r: Result<(), WriterError>)
      modifies this
      ensures r == if old(isCleanedUp) then Err(CleanedUp)
                   else if old(objectHashes) == {} then Err(NothingToPush)
                   else if !accepted then Err(PushRejected)
                   else Ok(())
      ensures r.Err? ==> View() == old(View())
      ensures r.Ok? ==> Step(old(View()), Call.Push(accepted), View())
      ensures isCleanedUp == old(isCleanedUp)
    {
      if isCleanedUp { return Err(CleanedUp); }
      if objectHashes == {} { return Err(NothingToPush); }
      if !accepted { return Err(PushRejected); }
      ResetAfterPush();
      PruneSubmoduleEntriesAfterPush();
      r := Ok(());
    }

    /** The remote takes the pack, if one was written; the writer starts a new one. */
    method ResetAfterPush()
      modifies this`remote, this`remoteRef, this`objectHashes, this`hasCommit, this`lastCommitHash, this`refHash
      ensures View() == Pushed(old(View())).(stage := old(Staged()).(pack := {}))
    {
      if hasCommit { remote, remoteRef := remote + objectHashes, lastCommitHash; }
      objectHashes, hasCommit, lastCommitHash := {}, false, Zero;
      refHash := lastCommit;
    }

    /** Forgets gitlinks that a staged entry shadows or that have lost a directory above. */
    method PruneSubmoduleEntriesAfterPush()
      modifies this`submoduleEntries
      ensures submoduleEntries == Pruned(old(Staged()))
    {
      ghost var links := submoduleEntries;
      var todo := submoduleEntries.Keys;
      while todo != {}
        invariant todo <= links.Keys
        invariant forall p :: p in submoduleEntries <==>
                    p in links && (p in todo || (p !in treeEntries && HasParents(treeEntries, p)))
        invariant forall p :: p in submoduleEntries ==> submoduleEntries[p] == links[p]
      {
        var p :| p in todo;
        todo := todo - {p};
        if p in treeEntries {
          submoduleEntries := submoduleEntries - {p};
        } else {
          var k := |p|;
          while k > 1 && IsDir(treeEntries, p[..k - 1])
            invariant k <= |p|
            invariant forall i :: k <= i < |p| && 1 <= i ==> IsDir(treeEntries, p[..i])
          {
            k := k - 1;
          }
          if k > 1 { submoduleEntries := submoduleEntries - {p}; }
        }
      }
    }
  }

  /** A rebuild packs something exactly when some dirty path is still a directory. */
  lemma {:induction false} BuildAllPacksIff(s: Stage, order: seq<Path>)
    ensures BuildAll(s, order).pack != {} <==> s.pack != {} || exists p :: p in order && (p == [] || p in s.tree)
    decreases |order|
  {
    if order != [] {
      var d, t, rest := order[0], BuildOne(s, order[0]), order[1..];
      BuildAllPacksIff(t, rest);
      assert forall p :: p in order <==> p == d || p in rest;
      if d == [] || d in s.tree {
        assert d in order && NodeHash(s, d) in t.pack;
      } else {
        assert t == s;
        if exists p :: p in order && (p == [] || p in s.tree) {
          var p :| p in order && (p == [] || p in s.tree);
          assert p in rest;
        }
      }
    }
  }

  /** `t` is `s` with its dirty directories rebuilt in some rebuild order. */
  ghost predicate Rebuilt(s: Stage, t: Stage) {
    exists order :: RebuildOrder(order, s.dirty) && t == BuildAll(s, order).(dirty := {})
  }

  lemma RecordedIsStep(w: Writer, text: CommitText, v: Writer)
    requires exists t :: Rebuilt(w.stage, t) && t.pack != {} && v == Committed(w.(stage := t), text)
    ensures Step(w, Call.Commit(text), v)
  {
    var t :| Rebuilt(w.stage, t) && t.pack != {} && v == Committed(w.(stage := t), text);
    var order :| RebuildOrder(order, w.stage.dirty) && t == BuildAll(w.stage, order).(dirty := {});
  }

  predicate Identified(person: Person) {
    person.name != [] && person.email != []
  }

  /** `entries` binds the child `e.name` of `dir` to what `e` says. */
  predicate EntryAt(entries: Entries, dir: Path, e: TreeEntry<Hash>) {
    var p := dir + [e.name];
    p in entries && LinkOf(entries[p]) == Link(e.mode, e.hash)
  }

  const DOT: Path := [[46]]

  lemma ParentsKept(s: Stage, src: Path, dst: Path)
    requires dst != [] && HasParents(s.tree, src)
    ensures HasParents(AddParents(s, dst).tree - {src}, src)
    ensures HasParents(AddParents(s, dst).tree, src)
  {
    forall i | 1 <= i < |src| ensures IsDir(AddParents(s, dst).tree - {src}, src[..i]) {
      assert IsDir(s.tree, src[..i]);
      AddDirsAt(s, dst, |dst|, src[..i]);
    }
  }

  /** In a well-formed stage a subtree move never overwrites what it still has to move. */
  lemma RootedNoOverlap(s: Stage, src: Path, dst: Path)
    requires Rooted(s) && dst != [] && dst !in s.tree
    ensures NoOverlap(s.tree, src, dst)
  {
    NothingBelowFile(s, dst);
  }

  /** An entry at `p` itself never blocks `p`. */
  lemma {:induction false} SameBlock(tree: Entries, tree': Entries, p: Path, i: nat)
    requires 1 <= i <= |p|
    requires tree'.Keys == tree.Keys + {p} && forall q :: q in tree && q != p ==> tree'[q] == tree[q]
    ensures FirstBlock(tree', p, i) == FirstBlock(tree, p, i)
    ensures var k := FirstBlock(tree, p, i); k < |p| ==> tree'[p[..k]] == tree[p[..k]]
    decreases |p| - i
  {
    if i < |p| { SameBlock(tree, tree', p, i + 1); }
  }

  lemma {:induction false} SameGap(tree: Entries, tree': Entries, p: Path, i: nat)
    requires 1 <= i <= |p|
    requires tree' == tree - {p}
    ensures FirstGap(tree', p, i) == FirstGap(tree, p, i)
    ensures var k := FirstGap(tree, p, i); k < |p| ==> GapError(tree', p[..k]) == GapError(tree, p[..k])
    decreases |p| - i
  {
    if i < |p| { SameGap(tree, tree', p, i + 1); }
  }
}
