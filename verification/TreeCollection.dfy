/** Collecting every directory below a root from a server that may answer with any
    objects at all: batched discovery, the completeness check, and the completion. */
module TreeCollection {
  import opened GitTypes
  import opened FlatTrees
  import opened Sequences
  import opened StagedTree

  datatype Object = TreeObj(entries: TreeEntries) | OtherObj

  type Collection = map<Hash, Object>

  predicate HasTree(store: Collection, h: Hash) {
    h in store && store[h].TreeObj?
  }

  /** The directories a tree lists, in order; gitlinks and files are skipped. */
  function Subdirs(entries: TreeEntries): (r: seq<Hash>)
    ensures forall h :: h in r <==> exists e :: e in entries && e.mode == MODE_TREE && e.hash == h
  {
    if entries == [] then []
    else
      var rest := Subdirs(entries[1..]);
      assert forall e :: e in entries <==> e == entries[0] || e in entries[1..];
      if entries[0].mode == MODE_TREE then [entries[0].hash] + rest else rest
  }

  function ChildrenOf(store: Collection, h: Hash): seq<Hash> {
    if HasTree(store, h) then Subdirs(store[h].entries) else []
  }

  // ----- reachability through present trees

  /** A chain of directories, each listed by the one before it. */
  ghost predicate Chain(store: Collection, path: seq<Hash>) {
    forall i :: 0 <= i < |path| - 1 ==> path[i + 1] in ChildrenOf(store, path[i])
  }

  ghost predicate ChainTo(store: Collection, from: Hash, to: Hash, path: seq<Hash>) {
    path != [] && path[0] == from && path[|path| - 1] == to && Chain(store, path)
  }

  ghost predicate Reachable(store: Collection, from: Hash, to: Hash) {
    exists path :: ChainTo(store, from, to, path)
  }

  lemma ReachSelf(store: Collection, h: Hash)
    ensures Reachable(store, h, h)
  {
    assert ChainTo(store, h, h, [h]);
  }

  lemma ReachChild(store: Collection, h: Hash, c: Hash, to: Hash)
    requires c in ChildrenOf(store, h) && Reachable(store, c, to)
    ensures Reachable(store, h, to)
  {
    var path :| ChainTo(store, c, to, path);
    var longer := [h] + path;
    forall i | 0 <= i < |longer| - 1 ensures longer[i + 1] in ChildrenOf(store, longer[i]) {
      if i > 0 { assert path[i] in ChildrenOf(store, path[i - 1]); }
    }
    assert ChainTo(store, h, to, longer);
  }

  /** A set that contains a directory's children whenever it contains the directory
      contains everything reachable from its members. */
  lemma {:induction false} ClosedContains(store: Collection, closed: set<Hash>, path: seq<Hash>, k: nat)
    requires Chain(store, path) && k < |path| && path[0] in closed
    requires forall v, c :: v in closed && c in ChildrenOf(store, v) ==> c in closed
    ensures path[k] in closed
  {
    if k > 0 { ClosedContains(store, closed, path, k - 1); }
  }

  // ----- the completeness check

  /** Depth-first search over directories, present or not. */
  class TreeCheck {
    const store: Collection
    var visited: set<Hash>
    var missing: seq<Hash>

    constructor (objects: Collection)
      ensures store == objects && visited == {} && missing == []
    {
      store := objects;
      visited, missing := {}, [];
    }

    /** `missing` lists the absent directories visited so far, each once. */
    ghost predicate Valid()
      reads this
    {
      && (forall h :: h in missing <==> h in visited && !HasTree(store, h))
      && (forall i, j :: 0 <= i < j < |missing| ==> missing[i] != missing[j])
    }

    /** Everything visited since `before`, `but` aside, has all its children visited. */
    ghost predicate Explored(before: set<Hash>, but: set<Hash>)
      reads this
    {
      forall v, c :: v in visited && v !in before && v !in but && c in ChildrenOf(store, v) ==> c in visited
    }

    method CheckTree(h: Hash)
      requires Valid()
      modifies this
      ensures Valid() && old(visited) <= visited && h in visited
      ensures forall v :: v in visited && v !in old(visited) ==> Reachable(store, h, v)
      ensures Explored(old(visited), {})
      decreases store.Keys - visited
    {
      if h in visited { return; }
      ghost var before := visited;
      visited := visited + {h};
      ReachSelf(store, h);
      if !HasTree(store, h) {
        missing := missing + [h];
        return;
      }
      var subdirs := Subdirs(store[h].entries);
      for k := 0 to |subdirs|
        invariant Valid() && before + {h} <= visited
        invariant forall v :: v in visited && v !in before ==> Reachable(store, h, v)
        invariant Explored(before, {h})
        invariant forall i :: 0 <= i < k ==> subdirs[i] in visited
      {
        ghost var sofar := visited;
        CheckTree(subdirs[k]);
        forall v | v in visited && v !in sofar ensures Reachable(store, h, v) {
          ReachChild(store, h, subdirs[k], v);
        }
      }
    }
  }

  /** The check is exact, even on a cyclic collection: it lists, each once, the
      absent directories that can be reached from the root through present ones. */
  method VerifyTreeCompleteness(root: Hash, store: Collection) returns (missing: seq<Hash>)
    ensures forall h :: h in missing <==> Reachable(store, root, h) && !HasTree(store, h)
    ensures forall i, j :: 0 <= i < j < |missing| ==> missing[i] != missing[j]
  {
    var check := new TreeCheck(store);
    check.CheckTree(root);
    missing := check.missing;
    forall h | Reachable(store, root, h) ensures h in check.visited {
      var path :| ChainTo(store, root, h, path);
      ClosedContains(store, check.visited, path, |path| - 1);
    }
  }

  // ----- what completeness is for

  /** The trees of a collection, as flattening uses them. */
  ghost predicate TreesOf(store: Collection, trees: map<Hash, TreeEntries>) {
    forall h :: (h in trees <==> HasTree(store, h)) && (h in trees ==> trees[h] == store[h].entries)
  }

  /** When nothing reachable is missing, flattening the root finds every directory
      in the collection and never asks for one individually. */
  lemma {:induction false} CompleteMeansNoFallback(store: Collection, trees: map<Hash, TreeEntries>, root: Hash)
    requires TreesOf(store, trees) && HashConsistent(trees) && HasTree(store, root)
    requires forall h :: Reachable(store, root, h) ==> HasTree(store, h)
    ensures SubtreesPresent(root, trees.Keys)
    decreases root
  {
    assert root in trees && root == TreeId(trees[root]);
    forall e | e in root.entries && e.mode == MODE_TREE
      ensures e.hash in trees.Keys && SubtreesPresent(e.hash, trees.Keys)
    {
      assert e.hash in ChildrenOf(store, root);
      forall h | Reachable(store, e.hash, h) ensures HasTree(store, h) {
        ReachChild(store, root, e.hash, h);
      }
      ReachSelf(store, e.hash);
      CompleteMeansNoFallback(store, trees, e.hash);
    }
  }

  // ----- batched discovery

  const BATCH_SIZE := 10
  const RETRY_BATCH_SIZE := 10
  const MAX_RETRIES := 3
  const MAX_BATCHES := 1000
  const COMPLETION_BATCH_SIZE := 50

  datatype CollectError =
    | RootNotFound
    | FetchFailed
    | NotReturned(hash: Hash)
    | TooManyBatches
    | StillMissing(count: nat)

  /** What a server answers to its n-th request, for the hashes it is asked. */
  type Server = (nat, seq<Hash>) -> Option<Collection>

  ghost predicate NoRepeats(s: seq<Hash>) {
    forall i, j :: 0 <= i < j < |s| ==> s[i] != s[j]
  }

  /** Every directory named by a tree of `objects` is in `universe`. */
  ghost predicate NamesOnly(objects: Collection, universe: set<Hash>) {
    forall h, c :: h in objects && c in ChildrenOf(objects, h) ==> c in universe
  }

  /** Every tree has the hash it is stored under. */
  ghost predicate Honest(objects: Collection) {
    forall h :: HasTree(objects, h) ==> h == TreeId(objects[h].entries)
  }

  ghost predicate HonestServer(server: Server) {
    forall n, b :: server(n, b).Some? ==> Honest(server(n, b).value)
  }

  // ----- a server with a repository

  /** `part` holds objects of the repository and nothing else. */
  ghost predicate Part(part: Collection, repo: Collection) {
    forall h :: h in part ==> h in repo && part[h] == repo[h]
  }

  /** Every directory that a tree of the repository lists is in the repository. */
  ghost predicate WholeTrees(repo: Collection) {
    forall h, c :: c in ChildrenOf(repo, h) ==> HasTree(repo, c)
  }

  /** Answers with objects of the repository, among them every tree it was asked for
      if the repository has them all. */
  ghost predicate AnswersFrom(repo: Collection, batch: seq<Hash>, answer: Option<Collection>) {
    && (answer.Some? ==> Part(answer.value, repo))
    && ((forall h :: h in batch ==> HasTree(repo, h)) ==>
          answer.Some? && forall h :: h in batch ==> HasTree(answer.value, h))
  }

  ghost predicate Serves(server: Server, repo: Collection) {
    forall n, b :: AnswersFrom(repo, b, server(n, b))
  }

  /** Nothing beyond what was asked for. */
  ghost predicate Frugal(server: Server) {
    forall n, b :: server(n, b).Some? ==> forall h :: h in server(n, b).value ==> h in b
  }

  /** A fetch from a repository, some of whose objects are there from the start. */
  ghost predicate FromRepository(repo: Collection, cached: Collection, initial: Collection, server: Server) {
    WholeTrees(repo) && Part(cached, repo) && Part(initial, repo) && Serves(server, repo)
  }

  /** Every directory a tree of `some` lists is in `all`. */
  ghost predicate ListedIn(some: Collection, all: Collection) {
    forall h, c :: c in ChildrenOf(some, h) ==> HasTree(all, c)
  }

  /** What one has who has these objects of the repository. */
  ghost function Known(repo: Collection, keys: set<Hash>): Collection {
    map h | h in keys && h in repo :: repo[h]
  }

  /** A chain from a tree of the first answer through trees that are not there. */
  ghost predicate Trail(repo: Collection, held: Collection, initial: Collection, path: seq<Hash>) {
    && |path| >= 2 && HasTree(initial, path[0]) && Chain(repo, path)
    && forall i :: 1 <= i < |path| ==> !HasTree(held, path[i])
  }

  ghost predicate Asked(repo: Collection, held: Collection, initial: Collection, h: Hash) {
    exists path :: Trail(repo, held, initial, path) && path[|path| - 1] == h
  }

  /** What the discovery asks for: from the trees of the first answer it goes down
      through the trees that are not there, and stops at those that are. */
  ghost function Discovered(repo: Collection, held: Collection, initial: Collection): set<Hash> {
    set h | h in repo && Asked(repo, held, initial, h)
  }

  /** What the check misses. */
  ghost function Missed(repo: Collection, store: Collection, root: Hash): set<Hash> {
    set h | h in repo && Reachable(store, root, h) && !HasTree(store, h)
  }

  ghost predicate Complete(store: Collection, root: Hash) {
    forall h :: Reachable(store, root, h) ==> HasTree(store, h)
  }

  /** Two steps are enough: what is there with what the discovery asks for, and
      with that what the check then misses, is everything below the root. */
  ghost predicate TwoStepsComplete(repo: Collection, held: Collection, initial: Collection, root: Hash) {
    var first := Known(repo, held.Keys + Discovered(repo, held, initial));
    Complete(Known(repo, first.Keys + Missed(repo, first, root)), root)
  }

  lemma PartUnion(a: Collection, b: Collection, repo: Collection)
    requires Part(a, repo) && Part(b, repo)
    ensures Part(a + b, repo)
    ensures forall h :: HasTree(a, h) || HasTree(b, h) ==> HasTree(a + b, h)
  {
  }

  lemma PartIsKnown(part: Collection, repo: Collection)
    requires Part(part, repo)
    ensures part == Known(repo, part.Keys)
  {
  }

  lemma PartChildren(part: Collection, repo: Collection, h: Hash)
    requires Part(part, repo) && HasTree(part, h)
    ensures HasTree(repo, h) && ChildrenOf(part, h) == ChildrenOf(repo, h)
  {
  }

  lemma AskedFirst(repo: Collection, held: Collection, initial: Collection, h: Hash, c: Hash)
    requires HasTree(initial, h) && c in ChildrenOf(repo, h) && !HasTree(held, c)
    ensures Asked(repo, held, initial, c)
  {
    assert Trail(repo, held, initial, [h, c]) && [h, c][1] == c;
  }

  lemma AskedNext(repo: Collection, held: Collection, initial: Collection, h: Hash, c: Hash)
    requires Asked(repo, held, initial, h) && c in ChildrenOf(repo, h) && !HasTree(held, c)
    ensures Asked(repo, held, initial, c)
  {
    var path :| Trail(repo, held, initial, path) && path[|path| - 1] == h;
    var longer := path + [c];
    forall i | 0 <= i < |longer| - 1 ensures longer[i + 1] in ChildrenOf(repo, longer[i]) {
      assert longer[i] == path[i];
      if i < |path| - 1 { assert longer[i + 1] == path[i + 1]; }
    }
    assert Trail(repo, held, initial, longer) && longer[|longer| - 1] == c;
  }

  lemma AskedIsAbsent(repo: Collection, held: Collection, initial: Collection, h: Hash)
    requires Asked(repo, held, initial, h)
    ensures !HasTree(held, h)
  {
  }

  /** A set that contains the absent children of the first answer's trees, and of its
      members, contains everything on a trail. */
  lemma {:induction false} TrailWithin(repo: Collection, held: Collection, initial: Collection, found: set<Hash>,
                                       path: seq<Hash>, k: nat)
    requires Trail(repo, held, initial, path) && 1 <= k < |path|
    requires forall h, c :: (HasTree(initial, h) || h in found) && c in ChildrenOf(repo, h) ==>
               HasTree(held, c) || c in found
    ensures path[k] in found
  {
    assert path[k - 1 + 1] in ChildrenOf(repo, path[k - 1]);
    if k > 1 { TrailWithin(repo, held, initial, found, path, k - 1); }
  }

  /** The children of every tree, `but` aside, are there or have been asked for. */
  ghost predicate Handled(store: Collection, requested: set<Hash>, but: set<Hash>) {
    forall h, c :: c in ChildrenOf(store, h) && h !in but ==> HasTree(store, c) || c in requested
  }

  ghost predicate NamedBy(objects: Collection, c: Hash) {
    exists h :: c in ChildrenOf(objects, h)
  }

  /** What is asked for is in the repository, what was asked for is there, and no
      child of a tree seen has been forgotten. */
  ghost predicate OnTrack(repo: Collection, held: Collection, but: set<Hash>, store: Collection, requested: set<Hash>,
                          processed: set<Hash>, sent: seq<Hash>) {
    && Part(store, repo) && held.Keys <= store.Keys
    && (forall h :: h in requested ==> HasTree(repo, h))
    && (forall h :: h in sent ==> HasTree(store, h))
    && (forall h :: h in processed ==> HasTree(store, h))
    && Handled(store, requested, but)
  }

  /** Nothing is there, and nothing asked for, that need not be. */
  ghost predicate Lean(repo: Collection, held: Collection, initial: Collection, store: Collection,
                       requested: set<Hash>, sent: seq<Hash>) {
    && store.Keys == held.Keys + (set h | h in sent)
    && (forall h :: h in requested ==> Asked(repo, held, initial, h))
  }

  /** What looking through `objects` has done: every child of their trees is there or
      asked for, and what is newly asked for is an absent child of one of them. */
  ghost predicate LookedThrough(objects: Collection, store: Collection, before: set<Hash>, requested: set<Hash>,
                                processedBefore: set<Hash>, processed: set<Hash>) {
    && before <= requested
    && (forall h, c :: HasTree(objects, h) && h !in processedBefore && c in ChildrenOf(objects, h) ==>
          HasTree(store, c) || c in requested)
    && (forall c :: c in requested && c !in before ==> !HasTree(store, c) && NamedBy(objects, c))
    && (forall h :: h in processed ==> h in processedBefore || HasTree(objects, h))
  }

  lemma HandledMore(repo: Collection, but: set<Hash>, store: Collection, objects: Collection, before: set<Hash>,
                    requested: set<Hash>, processedBefore: set<Hash>, processed: set<Hash>)
    requires Part(store, repo) && Part(objects, repo) && Handled(store, before, but)
    requires forall h :: h in processedBefore ==> HasTree(store, h)
    requires LookedThrough(objects, store + objects, before, requested, processedBefore, processed)
    ensures Handled(store + objects, requested, but)
  {
    PartUnion(store, objects, repo);
    forall h, c | c in ChildrenOf(store + objects, h) && h !in but
      ensures HasTree(store + objects, c) || c in requested
    {
      PartChildren(store + objects, repo, h);
      if HasTree(objects, h) && h !in processedBefore {
        PartChildren(objects, repo, h);
      } else {
        PartChildren(store, repo, h);
      }
    }
  }

  /** A round keeps on track: `objects` was the answer for `batch`. */
  lemma StaysOnTrack(repo: Collection, held: Collection, but: set<Hash>, store: Collection, objects: Collection,
                     before: set<Hash>, requested: set<Hash>, processedBefore: set<Hash>, processed: set<Hash>,
                     sent: seq<Hash>, batch: seq<Hash>)
    requires WholeTrees(repo) && Part(objects, repo) && forall h :: h in batch ==> HasTree(objects, h)
    requires held.Keys <= (store + objects).Keys
    requires OnTrack(repo, held, but, store, before, processedBefore, sent) || (
               && Part(store, repo) && before == processedBefore == {} && sent == []
               && Handled(store, {}, but))
    requires LookedThrough(objects, store + objects, before, requested, processedBefore, processed)
    ensures OnTrack(repo, held, but, store + objects, requested, processed, sent + batch)
  {
    PartUnion(store, objects, repo);
    HandledMore(repo, but, store, objects, before, requested, processedBefore, processed);
    forall c | c in requested ensures HasTree(repo, c) {
      if c !in before { NamedInRepository(objects, repo, c); }
    }
  }

  /** And, from a frugal server, lean. */
  lemma StaysLean(repo: Collection, held: Collection, initial: Collection, store: Collection, objects: Collection,
                  before: set<Hash>, requested: set<Hash>, processedBefore: set<Hash>, processed: set<Hash>,
                  sent: seq<Hash>, batch: seq<Hash>)
    requires Part(held, repo) && Part(store, repo) && Part(objects, repo)
    requires objects.Keys == set h | h in batch
    requires Lean(repo, held, initial, store, before, sent) && forall h :: h in batch ==> h in before
    requires LookedThrough(objects, store + objects, before, requested, processedBefore, processed)
    ensures Lean(repo, held, initial, store + objects, requested, sent + batch)
  {
    PartUnion(store, objects, repo);
    forall h | HasTree(objects, h) ensures Asked(repo, held, initial, h) {
      assert h in objects.Keys;
    }
    forall c | c in requested ensures Asked(repo, held, initial, c) {
      if c !in before {
        assert c in held.Keys ==> c in store;
        NamedIsAsked(objects, repo, held, initial, c);
      }
    }
  }

  /** After `k` of a tree's children: those that are absent and were not asked for are
      put behind the queue, each once. */
  ghost predicate Queued(store: Collection, children: seq<Hash>, k: nat, before: set<Hash>, queue: seq<Hash>,
                         missing: seq<Hash>, requested: set<Hash>)
    requires k <= |children|
  {
    && NoRepeats(queue + missing) && (forall h :: h in requested <==> h in queue + missing)
    && before <= requested && (missing == [] || before < requested)
    && (forall h :: h in requested && h !in before ==> !HasTree(store, h) && h in children)
    && (forall j :: 0 <= j < k ==> HasTree(store, children[j]) || children[j] in requested)
  }

  lemma QueueOne(store: Collection, children: seq<Hash>, k: nat, before: set<Hash>, queue: seq<Hash>,
                 missing: seq<Hash>, requested: set<Hash>)
    requires k < |children| && Queued(store, children, k, before, queue, missing, requested)
    ensures var c := children[k];
            if HasTree(store, c) || c in requested
            then Queued(store, children, k + 1, before, queue, missing, requested)
            else Queued(store, children, k + 1, before, queue, missing + [c], requested + {c})
  {
    assert queue + (missing + [children[k]]) == (queue + missing) + [children[k]];
  }

  lemma NamedInRepository(objects: Collection, repo: Collection, c: Hash)
    requires Part(objects, repo) && WholeTrees(repo) && NamedBy(objects, c)
    ensures HasTree(repo, c)
  {
    var h :| c in ChildrenOf(objects, h);
    PartChildren(objects, repo, h);
  }

  lemma NamedIsAsked(objects: Collection, repo: Collection, held: Collection, initial: Collection, c: Hash)
    requires Part(objects, repo) && NamedBy(objects, c) && !HasTree(held, c)
    requires forall h :: HasTree(objects, h) ==> HasTree(initial, h) || Asked(repo, held, initial, h)
    ensures Asked(repo, held, initial, c)
  {
    var h :| c in ChildrenOf(objects, h);
    PartChildren(objects, repo, h);
    if HasTree(initial, h) { AskedFirst(repo, held, initial, h, c); } else { AskedNext(repo, held, initial, h, c); }
  }

  /** The first `k` hashes of the batch that were not returned. */
  function NotAmong(batch: seq<Hash>, k: nat, objects: Collection): set<Hash>
    requires k <= |batch|
  {
    set h | h in batch[..k] && h !in objects
  }

  lemma MissOne(batch: seq<Hash>, k: nat, objects: Collection)
    requires k < |batch|
    ensures NotAmong(batch, k + 1, objects) ==
            NotAmong(batch, k, objects) + if batch[k] !in objects then {batch[k]} else {}
    ensures NoRepeats(batch) ==> batch[k] !in NotAmong(batch, k, objects)
  {
    assert batch[..k + 1] == batch[..k] + [batch[k]];
  }

  lemma MissAll(batch: seq<Hash>, objects: Collection)
    ensures NotAmong(batch, |batch|, objects) == set h | h in batch && h !in objects
  {
    assert batch[..|batch|] == batch;
  }

  class Discovery {
    var store: Collection
    var pending: seq<Hash>
    var retries: seq<Hash>
    var retryCount: map<Hash, nat>
    var requested: set<Hash>
    var processed: set<Hash>
    var batches: nat
    // every hash put into a batch so far, in order
    ghost var sent: seq<Hash>
    // all hashes the server's trees name
    ghost const universe: set<Hash>
    // the server's objects, those there before the fetch, and those of its first answer
    ghost const repo: Collection
    ghost const cached: Collection
    ghost const initial: Collection

    constructor (before: Collection, objects: Collection, ghost names: set<Hash>, ghost all: Collection)
      ensures store == before + objects && pending == [] && sent == [] && retryCount == map[] && batches == 0
      ensures universe == names && repo == all && cached == before && initial == objects
      ensures requested == processed == {}
      ensures Valid()
    {
      store := before + objects;
      pending, retries, sent := [], [], [];
      retryCount, requested, processed, batches := map[], {}, {}, 0;
      universe, repo, cached, initial := names, all, before, objects;
    }

    /** Requested hashes are those sent or still pending, each once; nothing is
        ever queued for a retry. */
    ghost predicate Valid()
      reads this
    {
      && NoRepeats(sent + pending)
      && (forall h :: h in requested <==> h in sent + pending)
      && requested <= universe
      && retries == []
      && batches <= |sent|
    }

    /** Takes the next batch off the retries or, when there are none, off the queue. */
    method PrepareBatch() returns (batch: seq<Hash>)
      requires pending != [] || retries != []
      modifies this`pending, this`retries, this`sent
      ensures batch != [] && sent == old(sent) + batch
      ensures if old(retries) != []
              then |batch| <= RETRY_BATCH_SIZE && batch + retries == old(retries) && pending == old(pending)
              else |batch| <= BATCH_SIZE && batch + pending == old(pending) && retries == []
    {
      if |retries| > 0 {
        batch := retries;
        if |retries| > RETRY_BATCH_SIZE {
          batch, retries := retries[..RETRY_BATCH_SIZE], retries[RETRY_BATCH_SIZE..];
        } else {
          retries := [];
        }
      } else {
        batch := pending;
        if |pending| > BATCH_SIZE {
          batch, pending := pending[..BATCH_SIZE], pending[BATCH_SIZE..];
        } else {
          pending := [];
        }
      }
      sent := sent + batch;
    }

    /** Counts what a batch did not return. A hash is queued again only if it was
        never requested, which a hash taken from the queue always was; and a hash
        missed for the first time is not given up. */
    method HandleMissingObjects(batch: seq<Hash>, objects: Collection) returns (err: Option<CollectError>)
      modifies this`retries, this`retryCount, this`requested
      ensures (forall h :: h in batch ==> h in old(requested)) ==>
                retries == old(retries) && requested == old(requested)
      ensures NoRepeats(batch) && (forall h :: h in batch ==> h !in old(retryCount)) ==> err.None?
      ensures err.None? ==> retryCount.Keys == old(retryCount.Keys) + set h | h in batch && h !in objects
    {
      ghost var firstTry := NoRepeats(batch) && forall h :: h in batch ==> h !in retryCount;
      ghost var known := forall h :: h in batch ==> h in requested;
      for k := 0 to |batch|
        invariant known ==> retries == old(retries) && requested == old(requested)
        invariant retryCount.Keys == old(retryCount.Keys) + NotAmong(batch, k, objects)
      {
        var h := batch[k];
        MissOne(batch, k, objects);
        if h !in objects {
          retryCount := retryCount[h := 1 + if h in retryCount then retryCount[h] else 0];
          if retryCount[h] > MAX_RETRIES { return Some(NotReturned(h)); }
          if h !in requested {
            retries, requested := retries + [h], requested + {h};
          }
        }
      }
      MissAll(batch, objects);
      err := None;
    }

    /** Queues the absent subdirectories of newly received trees, each hash once ever. */
    method CollectMissingTreeHashes(objects: Collection)
      requires Valid() && NamesOnly(objects, universe)
      modifies this`pending, this`requested, this`processed
      ensures Valid() && old(pending) <= pending && old(requested) <= requested
      ensures pending == old(pending) || old(requested) < requested
      ensures LookedThrough(objects, store, old(requested), requested, old(processed), processed)
    {
      ghost var before := pending;
      requested := requested + set h | h in pending;
      var todo := objects.Keys;
      while todo != {}
        invariant todo <= objects.Keys && Valid() && before <= pending && old(requested) <= requested
        invariant processed <= old(processed) + (objects.Keys - todo)
        invariant forall h :: h in processed ==> h in old(processed) || HasTree(objects, h)
        invariant forall c :: c in requested && c !in old(requested) ==> !HasTree(store, c) && NamedBy(objects, c)
        invariant pending == before || old(requested) < requested
        invariant forall h, c ::
                    h !in todo && HasTree(objects, h) && h !in old(processed) && c in ChildrenOf(objects, h) ==>
                    HasTree(store, c) || c in requested
      {
        var h :| h in todo;
        todo := todo - {h};
        if HasTree(objects, h) && h !in processed {
          QueueChildren(h, objects);
        }
      }
    }

    method QueueChildren(h: Hash, objects: Collection)
      requires Valid() && NamesOnly(objects, universe) && HasTree(objects, h)
      modifies this`pending, this`requested, this`processed
      ensures Valid() && old(pending) <= pending && old(requested) <= requested
      ensures pending == old(pending) || old(requested) < requested
      ensures processed <= old(processed) + {h}
      ensures forall c :: c in ChildrenOf(objects, h) ==> HasTree(store, c) || c in requested
      ensures forall c :: c in requested && c !in old(requested) ==>
                !HasTree(store, c) && c in ChildrenOf(objects, h)
    {
      var subdirs := Subdirs(objects[h].entries);
      var allPresent, missing := true, [];
      ghost var front, asked := sent + pending, requested;
      NothingBehind(front);
      for k := 0 to |subdirs|
        invariant pending == old(pending) && processed == old(processed) && requested <= universe
        invariant Queued(store, subdirs, k, asked, front, missing, requested)
      {
        var c := subdirs[k];
        assert c in ChildrenOf(objects, h);
        QueueOne(store, subdirs, k, asked, front, missing, requested);
        if !HasTree(store, c) {
          allPresent := false;
          if c !in requested {
            missing := missing + [c];
            requested := requested + {c};
          }
        }
      }
      AppendAssociates(sent, pending, missing);
      pending := pending + missing;
      forall c | c in ChildrenOf(objects, h) ensures HasTree(store, c) || c in requested {
        var j :| 0 <= j < |subdirs| && subdirs[j] == c;
      }
      if allPresent || |missing| > 0 { processed := processed + {h}; }
    }

    /** Nothing has been missed that was not asked for. */
    ghost predicate MissesSent()
      reads this
    {
      forall h :: h in retryCount ==> h in sent
    }

    /** Asks for a batch taken off the queue, stores what comes and queues what it names. */
    method ProcessSingleBatch(batch: seq<Hash>, server: Server) returns (err: Option<CollectError>)
      requires Valid() && NoRepeats(batch) && forall h :: h in batch ==> h in requested && h !in retryCount
      requires forall n, b :: server(n, b).Some? ==> NamesOnly(server(n, b).value, universe)
      modifies this`store, this`pending, this`retries, this`retryCount, this`requested, this`processed
      ensures Valid() && (retryCount.Keys <= old(retryCount.Keys) + set h | h in batch)
      ensures err == if server(batches, batch).None? then Some(FetchFailed) else None
      ensures err.Some? ==> store == old(store) && pending == old(pending) && requested == old(requested)
      ensures err.None? ==>
                && store == old(store) + server(batches, batch).value
                && LookedThrough(server(batches, batch).value, store, old(requested), requested,
                                 old(processed), processed)
      ensures pending == old(pending) || old(requested) < requested
    {
      var answer := server(batches, batch);
      if answer.None? { return Some(FetchFailed); }
      store := store + answer.value;
      err := HandleMissingObjects(batch, answer.value);
      assert err.None?;  // nothing is asked for twice, so nothing is given up
      CollectMissingTreeHashes(answer.value);
    }

    /** What a fetch from a repository keeps true of the collection, the queue, and
        what has been asked for; `frugal` if the server sends nothing else. */
    ghost predicate Follows(frugal: bool)
      reads this
    {
      var held := cached + initial;
      && OnTrack(repo, held, cached.Keys - initial.Keys, store, requested, processed, sent)
      && (frugal ==> Lean(repo, held, initial, store, requested, sent))
    }

    /** One round: takes a batch off the queue and processes it. */
    method ProcessBatch(server: Server) returns (err: Option<CollectError>)
      requires Valid() && MissesSent() && pending != [] && batches < MAX_BATCHES
      requires forall n, b :: server(n, b).Some? ==> NamesOnly(server(n, b).value, universe)
      modifies this
      ensures Valid() && MissesSent() && batches == old(batches) + 1
      ensures old(sent) <= sent
      ensures var answer := server(batches, sent[|old(sent)|..]);
              if answer.None? then err == Some(FetchFailed) && store == old(store)
              else err == None && store == old(store) + answer.value
      ensures FromRepository(repo, cached, initial, server) && old(Follows(Frugal(server))) ==>
                err.None? && Follows(Frugal(server))
      ensures old(requested) < requested || (requested == old(requested) && |pending| < |old(pending)|)
    {
      ghost var queue, done := pending, sent;
      ghost var before, asked, seen := store, requested, processed;
      batches := batches + 1;
      var batch := PrepareBatch();
      assert sent + pending == done + queue;
      BatchApart(done, batch, pending);
      assert sent[|done|..] == batch;
      err := ProcessSingleBatch(batch, server);
      if FromRepository(repo, cached, initial, server) && old(Follows(Frugal(server))) {
        RoundFollows(server, before, asked, seen, done, batch);
      }
    }

    lemma RoundFollows(server: Server, before: Collection, asked: set<Hash>, seen: set<Hash>, done: seq<Hash>,
                       batch: seq<Hash>)
      requires FromRepository(repo, cached, initial, server)
      requires var held := cached + initial;
               && OnTrack(repo, held, cached.Keys - initial.Keys, before, asked, seen, done)
               && (Frugal(server) ==> Lean(repo, held, initial, before, asked, done))
      requires sent == done + batch && forall h :: h in batch ==> h in asked
      requires server(batches, batch).Some? ==>
                 && store == before + server(batches, batch).value
                 && LookedThrough(server(batches, batch).value, store, asked, requested, seen, processed)
      ensures server(batches, batch).Some? && Follows(Frugal(server))
    {
      var held := cached + initial;
      PartUnion(cached, initial, repo);
      assert AnswersFrom(repo, batch, server(batches, batch));
      var objects := server(batches, batch).value;
      StaysOnTrack(repo, held, cached.Keys - initial.Keys, before, objects, asked, requested, seen, processed, done,
        batch);
      if Frugal(server) {
        StaysLean(repo, held, initial, before, objects, asked, requested, seen, processed, done, batch);
      }
    }

    /** After the trees of the first answer have been looked through. */
    lemma Started()
      requires WholeTrees(repo) && Part(cached, repo) && Part(initial, repo) && store == cached + initial && sent == []
      requires LookedThrough(initial, store, {}, requested, {}, processed)
      ensures Follows(true)
    {
      var held := cached + initial;
      PartUnion(cached, initial, repo);
      var before := map h | h in cached && h !in initial :: cached[h];
      assert before + initial == store;
      NothingBehind(sent);
      StaysOnTrack(repo, held, cached.Keys - initial.Keys, before, initial, {}, requested, {}, processed, [], []);
      forall c | c in requested ensures Asked(repo, held, initial, c) {
        NamedIsAsked(initial, repo, held, initial, c);
      }
    }

    /** Works off the queue in batches until it is empty or the cap is hit. */
    method ProcessPendingTreeBatches(server: Server) returns (err: Option<CollectError>)
      requires Valid() && retryCount == map[] && batches == 0 && sent == []
      requires forall n, b :: server(n, b).Some? ==> NamesOnly(server(n, b).value, universe)
      modifies this
      ensures Valid() && NoRepeats(sent)
      ensures old(store.Keys) <= store.Keys
      ensures old(Honest(store)) && HonestServer(server) ==> Honest(store)
      ensures FromRepository(repo, cached, initial, server) && old(Follows(Frugal(server))) ==>
                Follows(Frugal(server)) && (err.Some? ==> err.value.TooManyBatches?)
      ensures err.Some? ==> err.value.FetchFailed? || (err.value.TooManyBatches? && |sent| >= MAX_BATCHES)
      ensures err.None? ==> pending == []
    {
      while pending != [] || retries != []
        invariant Valid() && MissesSent() && batches <= MAX_BATCHES && old(store.Keys) <= store.Keys
        invariant old(Honest(store)) && HonestServer(server) ==> Honest(store)
        invariant FromRepository(repo, cached, initial, server) && old(Follows(Frugal(server))) ==>
                    Follows(Frugal(server))
        decreases universe - requested, |pending|
      {
        if batches == MAX_BATCHES {
          PrefixNoRepeats(sent, pending);
          return Some(TooManyBatches);
        }
        err := ProcessBatch(server);
        if err.Some? {
          PrefixNoRepeats(sent, pending);
          return;
        }
      }
      PrefixNoRepeats(sent, pending);
      err := None;
    }
  }

  // ----- the whole collection

  /** The objects a server answers with when asked for `missing` in larger batches,
      the n-th request being the first; nothing if one of them fails. */
  ghost function Answered(server: Server, n: nat, missing: seq<Hash>): Option<Collection>
    decreases |missing|
  {
    if missing == [] then Some(map[])
    else
      var size := if |missing| < COMPLETION_BATCH_SIZE then |missing| else COMPLETION_BATCH_SIZE;
      var answer, rest := server(n, missing[..size]), Answered(server, n + 1, missing[size..]);
      if answer.None? || rest.None? then None else Some(answer.value + rest.value)
  }

  lemma {:induction false} AnsweredHonest(server: Server, n: nat, missing: seq<Hash>)
    requires HonestServer(server)
    ensures Answered(server, n, missing).Some? ==> Honest(Answered(server, n, missing).value)
    decreases |missing|
  {
    if missing != [] {
      var size := if |missing| < COMPLETION_BATCH_SIZE then |missing| else COMPLETION_BATCH_SIZE;
      AnsweredHonest(server, n + 1, missing[size..]);
    }
  }

  lemma {:induction false} AnsweredFrom(repo: Collection, server: Server, n: nat, missing: seq<Hash>)
    requires Serves(server, repo)
    ensures AnswersFrom(repo, missing, Answered(server, n, missing))
    decreases |missing|
  {
    if missing != [] {
      var size := if |missing| < COMPLETION_BATCH_SIZE then |missing| else COMPLETION_BATCH_SIZE;
      var first, rest := missing[..size], missing[size..];
      AnsweredFrom(repo, server, n + 1, rest);
      assert AnswersFrom(repo, first, server(n, first));
      assert missing == first + rest;
      if server(n, first).Some? && Answered(server, n + 1, rest).Some? {
        PartUnion(server(n, first).value, Answered(server, n + 1, rest).value, repo);
      }
    }
  }

  lemma {:induction false} AnsweredFrugal(server: Server, n: nat, missing: seq<Hash>)
    requires Frugal(server)
    ensures Answered(server, n, missing).Some? ==> forall h :: h in Answered(server, n, missing).value ==> h in missing
    decreases |missing|
  {
    if missing != [] {
      var size := if |missing| < COMPLETION_BATCH_SIZE then |missing| else COMPLETION_BATCH_SIZE;
      AnsweredFrugal(server, n + 1, missing[size..]);
    }
  }

  function Added(objects: Collection, answers: Option<Collection>): Option<Collection> {
    if answers.None? then None else Some(objects + answers.value)
  }

  lemma AnsweredStep(objects: Collection, server: Server, n: nat, missing: seq<Hash>, i: nat, end: nat)
    requires i < end <= |missing|
    requires end == i + COMPLETION_BATCH_SIZE || (end == |missing| && end < i + COMPLETION_BATCH_SIZE)
    ensures var answer := server(n, missing[i..end]);
            Added(objects, Answered(server, n, missing[i..])) ==
              if answer.None? then None
              else Added(objects + answer.value, Answered(server, n + 1, missing[end..]))
  {
    assert missing[i..][..end - i] == missing[i..end] && missing[i..][end - i..] == missing[end..];
    var answer, rest := server(n, missing[i..end]), Answered(server, n + 1, missing[end..]);
    if answer.Some? && rest.Some? {
      assert objects + (answer.value + rest.value) == (objects + answer.value) + rest.value;
    }
  }

  /** Asks for the missing directories in larger batches, each once and in order, and
      adds everything that is answered. */
  method CompleteMissingTrees(missing: seq<Hash>, store: Collection, server: Server, n: nat)
    returns (r: Result<Collection, CollectError>, ghost sent: seq<Hash>)
    ensures var all := Added(store, Answered(server, n, missing));
            r == if all.None? then Err(FetchFailed) else Ok(all.value)
    ensures sent <= missing && (r.Ok? ==> sent == missing)
  {
    var objects := store;
    var i, request := 0, n;
    sent := [];
    assert missing[0..] == missing;
    while i < |missing|
      invariant i <= |missing| && sent == missing[..i]
      invariant Added(store, Answered(server, n, missing)) == Added(objects, Answered(server, request, missing[i..]))
    {
      var end := i + COMPLETION_BATCH_SIZE;
      if end > |missing| { end := |missing|; }
      AnsweredStep(objects, server, request, missing, i, end);
      var answer := server(request, missing[i..end]);
      sent := sent + missing[i..end];
      assert sent == missing[..end];
      if answer.None? { return Err(FetchFailed), sent; }
      objects := objects + answer.value;
      i, request := end, request + 1;
    }
    TakeAll(missing);
    assert objects + map[] == objects;
    r := Ok(objects);
  }

  // ----- when a fetch succeeds

  /** The discovery from a server with a repository leaves every child of a tree it
      has seen in the collection. */
  lemma DiscoveryListed(store: Collection, requested: set<Hash>, sent: seq<Hash>, cached: Collection,
                        initial: Collection, repo: Collection)
    requires Part(store, repo) && Handled(store, requested, cached.Keys - initial.Keys)
    requires Part(cached, repo) && Part(initial, repo) && (cached + initial).Keys <= store.Keys
    requires ListedIn(cached, cached + initial)
    requires forall h :: h in requested ==> h in sent
    requires forall h :: h in sent ==> HasTree(store, h)
    ensures ListedIn(store, store)
  {
    PartUnion(cached, initial, repo);
    forall h, c | c in ChildrenOf(store, h) ensures HasTree(store, c) {
      PartChildren(store, repo, h);
      if h in cached {
        PartChildren(cached, repo, h);
        assert HasTree(cached + initial, c);
      }
    }
  }

  lemma ListedIsComplete(store: Collection, root: Hash)
    requires HasTree(store, root) && ListedIn(store, store)
    ensures Complete(store, root)
  {
    forall h | Reachable(store, root, h) ensures HasTree(store, h) {
      var path :| ChainTo(store, root, h, path);
      var trees := set x | x in store && HasTree(store, x);
      forall v, c | v in trees && c in ChildrenOf(store, v) ensures c in trees {
        assert HasTree(store, c);
      }
      ClosedContains(store, trees, path, |path| - 1);
    }
  }

  /** A frugal server leaves exactly what was there and what had to be asked for. */
  lemma DiscoveryExact(repo: Collection, cached: Collection, initial: Collection, store: Collection,
                       requested: set<Hash>, processed: set<Hash>, sent: seq<Hash>)
    requires Part(cached, repo) && Part(initial, repo)
    requires OnTrack(repo, cached + initial, cached.Keys - initial.Keys, store, requested, processed, sent)
    requires Lean(repo, cached + initial, initial, store, requested, sent)
    requires forall h :: h in requested <==> h in sent
    ensures (set h | h in sent) == Discovered(repo, cached + initial, initial)
    ensures store == Known(repo, (cached + initial).Keys + Discovered(repo, cached + initial, initial))
  {
    var held, found := cached + initial, set h | h in sent;
    PartUnion(cached, initial, repo);
    forall h, c | (HasTree(initial, h) || h in found) && c in ChildrenOf(repo, h)
      ensures HasTree(held, c) || c in found
    {
      if h in found { AskedIsAbsent(repo, held, initial, h); }
      assert HasTree(store, h) && h !in cached.Keys - initial.Keys;
      PartChildren(store, repo, h);
      assert HasTree(store, c);
    }
    forall h | Asked(repo, held, initial, h) ensures h in found {
      var path :| Trail(repo, held, initial, path) && path[|path| - 1] == h;
      TrailWithin(repo, held, initial, found, path, |path| - 1);
    }
    PartIsKnown(store, repo);
  }

  /** What a fetch from a repository comes to: it succeeds unless the batch cap is hit
      if the trees that were there already list no others, and, from a server that sends
      nothing else, exactly if two steps are enough. */
  ghost predicate Outcome(repo: Collection, cached: Collection, initial: Collection, root: Hash, frugal: bool,
                          r: Result<Collection, CollectError>, discovered: seq<Hash>) {
    var held := cached + initial;
    && (ListedIn(cached, held) ==> r.Ok?)
    && (frugal ==>
          && (set h | h in discovered) == Discovered(repo, held, initial)
          && if TwoStepsComplete(repo, held, initial, root) then r.Ok? else r.Err? && r.error.StillMissing?)
  }

  /** What the discovery has collected when its queue is empty. */
  ghost predicate Collected(repo: Collection, cached: Collection, initial: Collection, root: Hash, frugal: bool,
                            store: Collection, sent: seq<Hash>) {
    var held, found := cached + initial, Discovered(repo, cached + initial, initial);
    && Part(store, repo) && HasTree(store, root)
    && (ListedIn(cached, held) ==> Complete(store, root))
    && (frugal ==> (set h | h in sent) == found && store == Known(repo, held.Keys + found))
  }

  lemma DiscoveryEnds(repo: Collection, cached: Collection, initial: Collection, root: Hash, frugal: bool,
                      store: Collection, requested: set<Hash>, processed: set<Hash>, sent: seq<Hash>)
    requires Part(cached, repo) && Part(initial, repo) && HasTree(cached + initial, root)
    requires OnTrack(repo, cached + initial, cached.Keys - initial.Keys, store, requested, processed, sent)
    requires frugal ==> Lean(repo, cached + initial, initial, store, requested, sent)
    requires forall h :: h in requested <==> h in sent
    ensures Collected(repo, cached, initial, root, frugal, store, sent)
  {
    PartUnion(cached, initial, repo);
    if ListedIn(cached, cached + initial) {
      DiscoveryListed(store, requested, sent, cached, initial, repo);
      ListedIsComplete(store, root);
    }
    if frugal { DiscoveryExact(repo, cached, initial, store, requested, processed, sent); }
  }

  lemma MissedExactly(store: Collection, repo: Collection, root: Hash, missing: seq<Hash>)
    requires Part(store, repo) && WholeTrees(repo) && HasTree(store, root)
    requires forall h :: h in missing <==> Reachable(store, root, h) && !HasTree(store, h)
    ensures (set h | h in missing) == Missed(repo, store, root)
    ensures forall h :: h in missing ==> HasTree(repo, h)
  {
    forall h | h in missing ensures HasTree(repo, h) {
      var path :| ChainTo(store, root, h, path);
      var p := path[|path| - 2];
      assert path[|path| - 2 + 1] in ChildrenOf(store, p);
      PartChildren(store, repo, p);
    }
  }

  lemma AnsweredAll(repo: Collection, store: Collection, root: Hash, server: Server, n: nat, missing: seq<Hash>)
    requires Serves(server, repo) && Part(store, repo) && WholeTrees(repo) && HasTree(store, root)
    requires forall h :: h in missing <==> Reachable(store, root, h) && !HasTree(store, h)
    ensures Answered(server, n, missing).Some? && Part(Answered(server, n, missing).value, repo)
    ensures forall h :: h in missing ==> HasTree(Answered(server, n, missing).value, h)
    ensures Frugal(server) ==> forall h :: h in Answered(server, n, missing).value ==> h in missing
  {
    MissedExactly(store, repo, root, missing);
    AnsweredFrom(repo, server, n, missing);
    if Frugal(server) { AnsweredFrugal(server, n, missing); }
  }

  lemma MissedNothing(repo: Collection, cached: Collection, initial: Collection, root: Hash, frugal: bool,
                      store: Collection, sent: seq<Hash>)
    requires Collected(repo, cached, initial, root, frugal, store, sent) && Complete(store, root)
    ensures Outcome(repo, cached, initial, root, frugal, Ok(store), sent)
  {
    if frugal {
      assert Missed(repo, store, root) == {};
      assert store.Keys + {} == store.Keys;
      PartIsKnown(store, repo);
    }
  }

  lemma MissedSome(repo: Collection, cached: Collection, initial: Collection, root: Hash, frugal: bool,
                   store: Collection, sent: seq<Hash>, missing: seq<Hash>, answers: Collection,
                   r: Result<Collection, CollectError>)
    requires Collected(repo, cached, initial, root, frugal, store, sent) && WholeTrees(repo) && Part(answers, repo)
    requires missing != [] && forall h :: h in missing <==> Reachable(store, root, h) && !HasTree(store, h)
    requires forall h :: h in missing ==> HasTree(answers, h)
    requires frugal ==> forall h :: h in answers ==> h in missing
    requires if Complete(store + answers, root) then r.Ok? else r.Err? && r.error.StillMissing?
    ensures Outcome(repo, cached, initial, root, frugal, r, sent)
  {
    assert !Complete(store, root) by { assert missing[0] in missing; }
    if frugal {
      MissedExactly(store, repo, root, missing);
      PartUnion(store, answers, repo);
      PartIsKnown(store + answers, repo);
      assert (store + answers).Keys == store.Keys + Missed(repo, store, root);
    }
  }

  lemma NothingToAsk(repo: Collection, held: Collection, initial: Collection)
    requires Part(initial, repo) && ListedIn(initial, held)
    ensures Discovered(repo, held, initial) == {}
  {
    forall h, c | HasTree(initial, h) && c in ChildrenOf(repo, h) ensures HasTree(held, c) {
      PartChildren(initial, repo, h);
    }
    forall h ensures !Asked(repo, held, initial, h) {
      if Asked(repo, held, initial, h) {
        var path :| Trail(repo, held, initial, path) && path[|path| - 1] == h;
        TrailWithin(repo, held, initial, {}, path, |path| - 1);
      }
    }
  }

  /** What is reached below `root` is `root` itself or listed by a tree. */
  lemma ReachedIsListed(store: Collection, root: Hash, h: Hash) returns (p: Hash)
    requires Reachable(store, root, h) && h != root
    ensures h in ChildrenOf(store, p)
  {
    var path :| ChainTo(store, root, h, path);
    p := path[|path| - 2];
    assert path[|path| - 2 + 1] in ChildrenOf(store, p);
  }

  lemma OnlySecondMissed(repo: Collection, root: Hash, a: Hash, b: Hash)
    requires HasTree(repo, a) && HasTree(repo, b) && b !in {root, a}
    requires ChildrenOf(repo, root) == [a] && ChildrenOf(repo, a) == [b]
    ensures Missed(repo, Known(repo, {root, a}), root) == {b}
  {
    var first := Known(repo, {root, a});
    forall h | h in Missed(repo, first, root) ensures h == b {
      var p := ReachedIsListed(first, root, h);
    }
    BelowThree(first, root, a, b);
  }

  /** Two steps are not always enough. Say the root lists `a`, which lists `b`, which
      lists `c`, and `a` is there from the start: the discovery stops at `a`, the
      completion asks for `b`, and nobody ever asks for `c`. */
  lemma HiddenSubtreeIsMissed(repo: Collection, cached: Collection, initial: Collection, root: Hash, a: Hash, b: Hash,
                              c: Hash)
    requires Part(cached, repo) && Part(initial, repo) && initial.Keys == {root} && cached.Keys == {a}
    requires HasTree(repo, b) && HasTree(repo, c) && b !in {root, a} && c !in {root, a, b}
    requires ChildrenOf(repo, root) == [a] && ChildrenOf(repo, a) == [b] && ChildrenOf(repo, b) == [c]
    ensures !TwoStepsComplete(repo, cached + initial, initial, root)
  {
    var held := cached + initial;
    PartChildren(initial, repo, root);
    NothingToAsk(repo, held, initial);
    assert held.Keys + {} == {root, a};
    OnlySecondMissed(repo, root, a, b);
    assert Known(repo, {root, a}).Keys + {b} == {root, a, b};
    var second := Known(repo, {root, a, b});
    BelowThree(second, a, b, c);
    ReachChild(second, root, a, c);
  }

  lemma BelowThree(store: Collection, a: Hash, b: Hash, c: Hash)
    requires b in ChildrenOf(store, a) && c in ChildrenOf(store, b)
    ensures Reachable(store, a, c)
  {
    ReachSelf(store, c);
    ReachChild(store, b, c, c);
    ReachChild(store, a, b, c);
  }

  /** What the check and the completion do to the collection the discovery left. */
  ghost predicate CheckedAndCompleted(root: Hash, store: Collection, server: Server, n: nat, missing: seq<Hash>,
                                      r: Result<Collection, CollectError>) {
    && (forall h :: h in missing <==> Reachable(store, root, h) && !HasTree(store, h))
    && if missing == [] then r == Ok(store)
       else
         var all := Added(store, Answered(server, n, missing));
         if all.None? then r == Err(FetchFailed)
         else if Complete(all.value, root) then r == Ok(all.value)
         else r.Err? && r.error.StillMissing?
  }

  lemma Concludes(repo: Collection, cached: Collection, initial: Collection, root: Hash, server: Server, n: nat,
                  store: Collection, sent: seq<Hash>, missing: seq<Hash>, r: Result<Collection, CollectError>)
    requires Serves(server, repo) && WholeTrees(repo)
    requires Collected(repo, cached, initial, root, Frugal(server), store, sent)
    requires CheckedAndCompleted(root, store, server, n, missing, r)
    ensures Outcome(repo, cached, initial, root, Frugal(server), r, sent)
  {
    if missing == [] {
      MissedNothing(repo, cached, initial, root, Frugal(server), store, sent);
    } else {
      AnsweredAll(repo, store, root, server, n, missing);
      var answers := Answered(server, n, missing).value;
      MissedSome(repo, cached, initial, root, Frugal(server), store, sent, missing, answers, r);
    }
  }

  /** Checks the collection, asks for what is missing, and checks again. */
  method CheckAndComplete(root: Hash, store: Collection, server: Server, n: nat)
    returns (r: Result<Collection, CollectError>, ghost missing: seq<Hash>, ghost completed: seq<Hash>)
    ensures CheckedAndCompleted(root, store, server, n, missing, r)
    ensures r.Ok? ==> Complete(r.value, root) && store.Keys <= r.value.Keys
    ensures r.Ok? && Honest(store) && HonestServer(server) ==> Honest(r.value)
    ensures NoRepeats(completed)
  {
    completed := [];
    var absent := VerifyTreeCompleteness(root, store);
    missing := absent;
    if |absent| == 0 { return Ok(store), missing, completed; }
    r, completed := CompleteMissingTrees(absent, store, server, n);
    assert NoRepeats(completed);
    if r.Err? { return; }
    if HonestServer(server) { AnsweredHonest(server, n, absent); }
    var stillMissing := VerifyTreeCompleteness(root, r.value);
    if |stillMissing| > 0 {
      assert !Complete(r.value, root) by { assert stillMissing[0] in stillMissing; }
      return Err(StillMissing(|stillMissing|)), missing, completed;
    }
  }

  /** Looks through the trees of the first answer and works off what they name. */
  method Discover(ghost root: Hash, initial: Collection, cached: Collection, server: Server, ghost universe: set<Hash>,
                  ghost repo: Collection)
    returns (err: Option<CollectError>, store: Collection, requests: nat, ghost sent: seq<Hash>)
    requires NamesOnly(initial, universe) && HasTree(cached + initial, root)
    requires forall n, b :: server(n, b).Some? ==> NamesOnly(server(n, b).value, universe)
    ensures (cached + initial).Keys <= store.Keys && NoRepeats(sent)
    ensures Honest(initial) && Honest(cached) && HonestServer(server) ==> Honest(store)
    ensures err.Some? ==> err.value.FetchFailed? || (err.value.TooManyBatches? && |sent| >= MAX_BATCHES)
    ensures FromRepository(repo, cached, initial, server) ==>
              if err.Some? then err.value.TooManyBatches?
              else Collected(repo, cached, initial, root, Frugal(server), store, sent)
  {
    ghost var following := FromRepository(repo, cached, initial, server);
    var search := new Discovery(cached, initial, universe, repo);
    search.CollectMissingTreeHashes(initial);
    if following { search.Started(); }
    err := search.ProcessPendingTreeBatches(server);
    store, requests, sent := search.store, search.batches + 1, search.sent;
    if following && err.None? {
      NothingBehind(sent);
      DiscoveryEnds(repo, cached, initial, root, Frugal(server), store, search.requested, search.processed, sent);
    }
  }

  /** The fetch from a root that is there: it succeeds, unless the batch cap is hit,
      from every server that answers with all the trees it is asked for, provided the
      trees that were there already list no others. From a server that sends nothing
      else it succeeds exactly when two steps are enough. Whatever the server answers,
      success means a complete collection, and neither the discovery nor the completion
      asks for a hash twice. */
  method FetchAllTreeObjects(root: Hash, initial: Collection, cached: Collection, server: Server,
                             ghost universe: set<Hash>, ghost repo: Collection)
    returns (r: Result<Collection, CollectError>, ghost discovered: seq<Hash>, ghost completed: seq<Hash>)
    requires NamesOnly(initial, universe)
    requires forall n, b :: server(n, b).Some? ==> NamesOnly(server(n, b).value, universe)
    ensures r.Err? && r.error.RootNotFound? <==> !HasTree(cached + initial, root)
    ensures r.Ok? ==> Complete(r.value, root)
    ensures r.Ok? ==> cached.Keys + initial.Keys <= r.value.Keys
    ensures r.Ok? && Honest(initial) && Honest(cached) && HonestServer(server) ==> Honest(r.value)
    ensures r.Err? ==> !r.error.NotReturned?
    ensures r.Err? && r.error.TooManyBatches? ==> |discovered| >= MAX_BATCHES
    ensures NoRepeats(discovered) && NoRepeats(completed)
    ensures FromRepository(repo, cached, initial, server) && HasTree(cached + initial, root) &&
            !(r.Err? && r.error.TooManyBatches?) ==>
              Outcome(repo, cached, initial, root, Frugal(server), r, discovered)
  {
    discovered, completed := [], [];
    if !HasTree(cached + initial, root) { return Err(RootNotFound), discovered, completed; }
    var err, store, n;
    err, store, n, discovered := Discover(root, initial, cached, server, universe, repo);
    if err.Some? { return Err(err.value), discovered, completed; }
    ghost var missing;
    r, missing, completed := CheckAndComplete(root, store, server, n);
    if FromRepository(repo, cached, initial, server) {
      Concludes(repo, cached, initial, root, server, n, store, discovered, missing, r);
    }
  }

  /** The trees of a collection by their hashes. */
  function Trees(store: Collection): map<Hash, TreeEntries> {
    map h | h in store && store[h].TreeObj? :: store[h].entries
  }

  /** Fetching and flattening: with answers that have the hashes they are stored
      under, a collection that could be fetched is flattened without asking for any
      directory again, and gives the flat listing of the root. */
  method GetFlatTree(root: Hash, initial: Collection, cached: Collection, server: Server, ghost universe: set<Hash>,
                     ghost repo: Collection)
    returns (r: Result<(seq<FlatItem>, seq<FlatItem>), CollectError>)
    requires NamesOnly(initial, universe)
    requires forall n, b :: server(n, b).Some? ==> NamesOnly(server(n, b).value, universe)
    requires Honest(initial) && Honest(cached) && HonestServer(server) && WellNamed(root)
    ensures r.Ok? ==> ListsTree(root, [], r.value.0, r.value.1)
    ensures r.Ok? ==> InPathOrder(r.value.0) && InPathOrder(r.value.1)
    ensures r.Err? ==> !r.error.NotReturned?
    ensures FromRepository(repo, cached, initial, server) && HasTree(cached + initial, root) &&
            ListedIn(cached, cached + initial) ==>
              r.Ok? || r.error.TooManyBatches?
  {
    var fetched;
    ghost var discovered, completed;
    fetched, discovered, completed := FetchAllTreeObjects(root, initial, cached, server, universe, repo);
    if fetched.Err? { return Err(fetched.error); }
    var trees := Trees(fetched.value);
    ReachSelf(fetched.value, root);
    CompleteMeansNoFallback(fetched.value, trees, root);
    var missing, entries, links := TraverseTree(root, [], trees);
    assert missing.None?;  // the fallback is never needed
    r := Ok((entries, links));
  }

  lemma PrefixNoRepeats(a: seq<Hash>, b: seq<Hash>)
    requires NoRepeats(a + b)
    ensures NoRepeats(a)
  {
    forall i, j | 0 <= i < j < |a| ensures a[i] != a[j] {
      assert (a + b)[i] != (a + b)[j];
    }
  }

  lemma BatchApart(done: seq<Hash>, batch: seq<Hash>, rest: seq<Hash>)
    requires NoRepeats((done + batch) + rest)
    ensures NoRepeats(batch) && NoRepeats(done + batch) && forall h :: h in batch ==> h !in done
  {
    var all := (done + batch) + rest;
    forall i, j | 0 <= i < j < |done + batch| ensures (done + batch)[i] != (done + batch)[j] {
      assert all[i] != all[j];
    }
    forall i, j | 0 <= i < j < |batch| ensures batch[i] != batch[j] {
      assert all[|done| + i] != all[|done| + j];
    }
    forall i, j | 0 <= i < |done| && 0 <= j < |batch| ensures done[i] != batch[j] {
      assert all[i] != all[|done| + j];
    }
  }
}
