/** Resolving the deltas of a fetched pack against the objects at hand: a worklist
    whose outcome does not depend on the order of the deltas. */
module DeltaResolution {
  import opened GitTypes
  import opened GitObjects
  import opened Sequences
  import opened DeltaCodec
  import opened DeltaApply

  type Store = map<ObjectId, Object>

  /** A delta object of the pack: its base and, unless parsing left it out, its body. */
  datatype DeltaObject = DeltaObject(parent: ObjectId, body: Option<Delta>)

  ghost predicate HashConsistent(m: Store) {
    forall h :: h in m ==> ObjectId(m[h]) == h
  }

  // ----- what a delta resolves to

  /** The instructions can be applied to the base. */
  ghost predicate Applies(base: Bytes, d: Delta) {
    |base| == d.sourceLength && forall c :: c in d.changes ==> InBounds(base, c)
  }

  /** Copies stay within 64 bits, as those of every parsed delta do. */
  ghost predicate WellSized(d: DeltaObject) {
    d.body.Some? ==> forall c :: c in d.body.value.changes && c.Copy? ==> c.offset + c.length < TWO64
  }

  lemma ParsedIsWellSized(parent: ObjectId, payload: Bytes)
    requires ParsedDelta(payload).Ok?
    ensures WellSized(DeltaObject(parent, Some(ParsedDelta(payload).value)))
  {
    var h := Headers(payload);
    forall c | c in ParsedDelta(payload).value.changes && c.Copy? ensures c.offset + c.length < TWO64 {
      InstructionsInRange(h.2, h.0, h.1, h.1, c);
    }
  }

  /** The object a delta stands for: the base's type with the target's bytes. */
  ghost function Resolved(d: DeltaObject): Option<ObjectId> {
    var base := d.parent.content;
    if d.body.Some? && Applies(base.data, d.body.value)
    then Some(ObjectId(Object(base.kind, Target(base.data, d.body.value.changes))))
    else None
  }

  /** `o` has the base's type, and byte by byte what the instructions say. */
  ghost predicate ResolvesTo(d: DeltaObject, o: Object) {
    && d.body.Some? && o.kind == d.parent.content.kind
    && Describes(d.parent.content.data, d.body.value.changes, o.data)
  }

  lemma ResolvedMeans(d: DeltaObject)
    requires Resolved(d).Some?
    ensures ResolvesTo(d, Resolved(d).value.content)
  {
    TargetDescribed(d.parent.content.data, d.body.value.changes);
  }

  /** `h` is at hand after at most `n` delta applications from `start`. */
  ghost predicate DerivableIn(start: set<ObjectId>, deltas: seq<DeltaObject>, h: ObjectId, n: nat)
    decreases n
  {
    h in start ||
    (n > 0 && exists d :: d in deltas && Resolved(d) == Some(h) && DerivableIn(start, deltas, d.parent, n - 1))
  }

  ghost predicate Derivable(start: set<ObjectId>, deltas: seq<DeltaObject>, h: ObjectId) {
    exists n: nat :: DerivableIn(start, deltas, h, n)
  }

  /** The delta can be resolved by following bases. */
  ghost predicate Resolvable(start: set<ObjectId>, deltas: seq<DeltaObject>, d: DeltaObject) {
    Resolved(d).Some? && Derivable(start, deltas, d.parent)
  }

  /** What resolving all resolvable deltas adds. */
  ghost function Results(start: set<ObjectId>, deltas: seq<DeltaObject>): set<ObjectId> {
    set d | d in deltas && Resolvable(start, deltas, d) :: Resolved(d).value
  }

  /** Everything that resolving adds is what some delta says about its base. */
  lemma ResultsMean(start: set<ObjectId>, deltas: seq<DeltaObject>)
    ensures forall h :: h in Results(start, deltas) ==>
              exists d :: d in deltas && Derivable(start, deltas, d.parent) && ResolvesTo(d, h.content)
  {
    forall h | h in Results(start, deltas)
      ensures exists d :: d in deltas && Derivable(start, deltas, d.parent) && ResolvesTo(d, h.content)
    {
      var d :| d in deltas && Resolvable(start, deltas, d) && Resolved(d).value == h;
      ResolvedMeans(d);
    }
  }

  lemma ResolvableDerives(start: set<ObjectId>, deltas: seq<DeltaObject>, d: DeltaObject)
    requires d in deltas && Resolvable(start, deltas, d)
    ensures Derivable(start, deltas, Resolved(d).value)
  {
    var n: nat :| DerivableIn(start, deltas, d.parent, n);
    assert DerivableIn(start, deltas, Resolved(d).value, n + 1);
  }

  /** A set that contains the start and every result whose base it contains
      contains everything derivable. */
  lemma {:induction false} FixpointContains(start: set<ObjectId>, deltas: seq<DeltaObject>, known: set<ObjectId>,
                                            h: ObjectId, n: nat)
    requires start <= known && DerivableIn(start, deltas, h, n)
    requires forall d :: d in deltas && Resolved(d).Some? && d.parent in known ==> Resolved(d).value in known
    ensures h in known
    decreases n
  {
    if h !in start {
      var d :| d in deltas && Resolved(d) == Some(h) && DerivableIn(start, deltas, d.parent, n - 1);
      FixpointContains(start, deltas, known, d.parent, n - 1);
    }
  }

  /** The order of the deltas does not change what is derivable. */
  lemma {:induction false} DerivableIgnoresOrder(start: set<ObjectId>, a: seq<DeltaObject>, b: seq<DeltaObject>,
                                                 h: ObjectId, n: nat)
    requires forall d :: d in a ==> d in b
    requires DerivableIn(start, a, h, n)
    ensures DerivableIn(start, b, h, n)
    decreases n
  {
    if h !in start {
      var d :| d in a && Resolved(d) == Some(h) && DerivableIn(start, a, d.parent, n - 1);
      DerivableIgnoresOrder(start, a, b, d.parent, n - 1);
    }
  }

  lemma ResultsIgnoreOrder(start: set<ObjectId>, a: seq<DeltaObject>, b: seq<DeltaObject>)
    requires forall d :: d in a <==> d in b
    ensures Results(start, a) == Results(start, b)
    ensures forall d :: d in a ==> (Resolvable(start, a, d) <==> Resolvable(start, b, d))
  {
    forall h, n: nat ensures DerivableIn(start, a, h, n) <==> DerivableIn(start, b, h, n) {
      if DerivableIn(start, a, h, n) { DerivableIgnoresOrder(start, a, b, h, n); }
      if DerivableIn(start, b, h, n) { DerivableIgnoresOrder(start, b, a, h, n); }
    }
    forall d ensures Resolvable(start, a, d) <==> Resolvable(start, b, d) {
      if Resolvable(start, a, d) {
        var n: nat :| DerivableIn(start, a, d.parent, n);
        assert DerivableIn(start, b, d.parent, n);
      }
      if Resolvable(start, b, d) {
        var n: nat :| DerivableIn(start, b, d.parent, n);
        assert DerivableIn(start, a, d.parent, n);
      }
    }
  }

  /** The deltas that cannot be resolved, in order. */
  ghost function Unresolvable(start: set<ObjectId>, all: seq<DeltaObject>, deltas: seq<DeltaObject>): seq<DeltaObject> {
    if deltas == [] then []
    else
      var rest := Unresolvable(start, all, deltas[1..]);
      if deltas[0].body.Some? && !Resolvable(start, all, deltas[0]) then [deltas[0]] + rest else rest
  }

  lemma {:induction false} UnresolvableAppend(start: set<ObjectId>, all: seq<DeltaObject>, a: seq<DeltaObject>,
                                              d: DeltaObject)
    ensures Unresolvable(start, all, a + [d]) ==
            Unresolvable(start, all, a) + if d.body.Some? && !Resolvable(start, all, d) then [d] else []
  {
    if a == [] {
      assert [d][1..] == [];
    } else {
      assert (a + [d])[1..] == a[1..] + [d];
      UnresolvableAppend(start, all, a[1..], d);
    }
  }

  lemma {:induction false} AllUnresolvable(start: set<ObjectId>, all: seq<DeltaObject>, a: seq<DeltaObject>)
    requires forall d :: d in a ==> d.body.Some? && !Resolvable(start, all, d)
    ensures Unresolvable(start, all, a) == a
  {
    if a != [] { AllUnresolvable(start, all, a[1..]); }
  }

  datatype ResolveError = MissingBases(parents: seq<ObjectId>) | IterationLimit(remaining: nat)

  function Parents(deltas: seq<DeltaObject>): seq<ObjectId> {
    seq(|deltas|, i requires 0 <= i < |deltas| => deltas[i].parent)
  }

  lemma NothingAdded(ids: set<ObjectId>)
    ensures ids + {} == ids
  {
  }

  // ----- the worklist

  class Resolver {
    /** The objects of this fetch, and the shared storage if there is one. */
    var objects: Store
    var storage: Option<Store>

    constructor (fetched: Store, shared: Option<Store>)
      ensures objects == fetched && storage == shared
    {
      objects, storage := fetched, shared;
    }

    ghost predicate Valid()
      reads this
    {
      HashConsistent(objects) && (storage.Some? ==> HashConsistent(storage.value))
    }

    ghost function Known(): set<ObjectId>
      reads this
    {
      objects.Keys + if storage.Some? then storage.value.Keys else {}
    }

    ghost function SharedKeys(): Option<set<ObjectId>>
      reads this
    {
      if storage.Some? then Some(storage.value.Keys) else None
    }

    /** The fetch has `more` besides `mine` and, if there is one, storage besides `shared`. */
    ghost predicate Holds(mine: set<ObjectId>, shared: Option<set<ObjectId>>, more: set<ObjectId>)
      reads this
    {
      && objects.Keys == mine + more
      && (storage.Some? <==> shared.Some?)
      && (storage.Some? ==> storage.value.Keys == shared.value + more)
    }

    /** The objects `more` were added to the fetch and, if there is one, to storage. */
    twostate predicate Added(more: set<ObjectId>)
      reads this
    {
      Holds(old(objects.Keys), old(SharedKeys()), more)
    }

    /** Adding `found` after `more`. */
    lemma HoldsMore(mine: set<ObjectId>, shared: Option<set<ObjectId>>, more: set<ObjectId>,
                    mine': set<ObjectId>, shared': Option<set<ObjectId>>, found: set<ObjectId>)
      requires mine' == mine + more && Holds(mine', shared', found) && (shared.Some? <==> shared'.Some?)
      requires shared.Some? ==> shared'.value == shared.value + more
      ensures Holds(mine, shared, more + found)
    {
      UnionAssociates(mine, more, found);
      if shared.Some? { UnionAssociates(shared.value, more, found); }
    }

    lemma HoldsNothingMore()
      ensures Holds(objects.Keys, SharedKeys(), {})
    {
      NothingAdded(objects.Keys);
      if storage.Some? { NothingAdded(storage.value.Keys); }
    }

    method Store(o: Object)
      requires Valid()
      modifies this
      ensures Valid() && Added({ObjectId(o)})
    {
      objects := objects[ObjectId(o) := o];
      if storage.Some? { storage := Some(storage.value[ObjectId(o) := o]); }
    }

    method FindBaseObject(parent: ObjectId) returns (base: Option<Object>)
      requires Valid()
      ensures base == if parent in Known() then Some(parent.content) else None
    {
      if parent in objects { return Some(objects[parent]); }
      if storage.Some? && parent in storage.value { return Some(storage.value[parent]); }
      base := None;
    }

    /** Applies a delta to its base and records the result, unless it does not apply. */
    method ResolveSingleDelta(d: DeltaObject) returns (ok: bool)
      requires Valid() && WellSized(d) && d.body.Some?
      modifies this
      ensures Valid() && (ok <==> Resolved(d).Some?)
      ensures Added(if ok then {Resolved(d).value} else {})
      ensures ok ==> Resolved(d).value in objects && ResolvesTo(d, objects[Resolved(d).value])
    {
      var base := d.parent.content;
      var r := ApplyDelta(base.data, d.body.value);
      if r.Err? { return false; }
      var o := Object(base.kind, r.value);
      ResolvedMeans(d);
      Store(o);
      ok := true;
    }

    /** Everything known follows from the start. */
    ghost predicate OnlyDerived(start: set<ObjectId>, all: seq<DeltaObject>)
      reads this
    {
      start <= Known() && forall h :: h in Known() ==> Derivable(start, all, h)
    }

    /** Looks for the base and applies the delta to it. */
    method TryDelta(d: DeltaObject, ghost start: set<ObjectId>, ghost all: seq<DeltaObject>) returns (ok: bool)
      requires Valid() && WellSized(d) && d.body.Some? && d in all && OnlyDerived(start, all)
      modifies this
      ensures Valid() && OnlyDerived(start, all)
      ensures ok <==> Resolved(d).Some? && d.parent in old(Known())
      ensures Added(if ok then {Resolved(d).value} else {})
      ensures ok ==> Resolvable(start, all, d)
    {
      var base := FindBaseObject(d.parent);
      if base.None? { return false; }
      ok := ResolveSingleDelta(d);
      if ok { ResolvableDerives(start, all, d); }
    }

    /** One pass over the worklist; results are available to later deltas at once. */
    method ResolveDeltaIteration(deltas: seq<DeltaObject>, ghost start: set<ObjectId>, ghost all: seq<DeltaObject>)
      returns (resolved: nat, pending: seq<DeltaObject>, ghost more: set<ObjectId>)
      requires Valid() && (forall d :: d in deltas ==> d in all && WellSized(d)) && OnlyDerived(start, all)
      modifies this
      ensures Valid() && OnlyDerived(start, all) && Added(more)
      ensures PassDone(start, all, deltas, resolved, pending, more)
      ensures resolved == 0 ==> more == {} && forall d :: d in pending ==> Resolved(d).None? || d.parent !in Known()
    {
      resolved, pending, more := 0, [], {};
      ghost var done: seq<DeltaObject> := [];
      ghost var mine, shared := objects.Keys, SharedKeys();
      HoldsNothingMore();
      for k := 0 to |deltas|
        invariant Valid() && OnlyDerived(start, all) && Holds(mine, shared, more)
        invariant done == deltas[..k]
        invariant PassDone(start, all, done, resolved, pending, more)
        invariant resolved == 0 ==> more == {} && forall d :: d in pending ==> Resolved(d).None? || d.parent !in Known()
      {
        var d := deltas[k];
        TakeOneMore(deltas, k);
        if d.body.None? {
          PassSkips(start, all, done, resolved, pending, more, d);
        } else {
          ghost var mine', shared' := objects.Keys, SharedKeys();
          var ok := TryDelta(d, start, all);
          HoldsMore(mine, shared, more, mine', shared', if ok then {Resolved(d).value} else {});
          NothingAdded(more);
          if ok {
            PassResolves(start, all, done, resolved, pending, more, d);
            more := more + {Resolved(d).value};
            resolved := resolved + 1;
          } else {
            PassDefers(start, all, done, resolved, pending, more, d);
            pending := pending + [d];
          }
        }
        done := done + [d];
      }
      TakeAll(deltas);
    }

    /** Resolves all deltas in rounds. Whatever their order: what can be derived is
        added and nothing else, the outcome is success exactly when every delta is
        resolvable, and otherwise the bases of the unresolvable ones are reported. */
    method ResolveDeltas(deltas: seq<DeltaObject>) returns (r: Result<(), ResolveError>)
      requires Valid() && forall d :: d in deltas ==> WellSized(d)
      modifies this
      ensures Valid() && Added(Results(old(Known()), deltas))
      ensures forall h :: h in Results(old(Known()), deltas) ==>
                h in objects && exists d :: d in deltas && ResolvesTo(d, objects[h])
      ensures r.Ok? <==> Unresolvable(old(Known()), deltas, deltas) == []
      ensures r.Err? ==> r.error == MissingBases(Parents(Unresolvable(old(Known()), deltas, deltas)))
    {
      ghost var start := Known();
      var remaining := deltas;
      var maxIterations := |deltas| + 1;
      var iteration := 1;
      ghost var more: set<ObjectId> := {};
      StartDerives(start, deltas);
      ResultsMean(start, deltas);
      ghost var mine, shared := objects.Keys, SharedKeys();
      HoldsNothingMore();
      while |remaining| > 0 && iteration <= maxIterations
        invariant Valid() && OnlyDerived(start, deltas) && Holds(mine, shared, more)
        invariant |remaining| > 0 ==> |remaining| + iteration <= |deltas| + 1
        invariant Sorted(start, deltas, remaining, more)
        decreases maxIterations + 1 - iteration
      {
        var resolved, pending;
        ghost var found;
        ghost var mine', shared' := objects.Keys, SharedKeys();
        resolved, pending, found := ResolveDeltaIteration(remaining, start, deltas);
        SortedAfter(start, deltas, remaining, more, resolved, pending, found);
        HoldsMore(mine, shared, more, mine', shared', found);
        remaining, more := pending, more + found;
        if resolved == 0 && |remaining| > 0 {
          Stuck(start, deltas, remaining, more, Known());
          return Err(MissingBases(Parents(remaining)));
        }
        iteration := iteration + 1;
      }
      assert remaining == [];  // the iteration limit is never reached
      AllFound(start, deltas, more);
      r := Ok(());
    }
  }

  lemma StartDerives(start: set<ObjectId>, deltas: seq<DeltaObject>)
    ensures forall h :: h in start ==> Derivable(start, deltas, h)
  {
    forall h | h in start ensures Derivable(start, deltas, h) {
      assert DerivableIn(start, deltas, h, 0);
    }
  }

  /** Every delta is still on the worklist or its result has been found, rightly. */
  ghost predicate Sorted(start: set<ObjectId>, deltas: seq<DeltaObject>, remaining: seq<DeltaObject>,
                         more: set<ObjectId>) {
    && (forall d :: d in remaining ==> d in deltas)
    && (forall d :: d in deltas && d.body.Some? ==> d in remaining || (Resolved(d).Some? && Resolved(d).value in more))
    && more <= Results(start, deltas)
    && Unresolvable(start, deltas, remaining) == Unresolvable(start, deltas, deltas)
  }

  lemma SortedAfter(start: set<ObjectId>, deltas: seq<DeltaObject>, remaining: seq<DeltaObject>, more: set<ObjectId>,
                    resolved: nat, pending: seq<DeltaObject>, found: set<ObjectId>)
    requires Sorted(start, deltas, remaining, more) && PassDone(start, deltas, remaining, resolved, pending, found)
    ensures Sorted(start, deltas, pending, more + found)
  {
    forall h | h in found ensures h in Results(start, deltas) {
      var d :| d in remaining && Resolvable(start, deltas, d) && Resolved(d) == Some(h);
    }
  }

  /** A round that resolves nothing leaves exactly the unresolvable deltas. */
  lemma Stuck(start: set<ObjectId>, deltas: seq<DeltaObject>, remaining: seq<DeltaObject>, more: set<ObjectId>,
              known: set<ObjectId>)
    requires Sorted(start, deltas, remaining, more) && start <= known && more <= known && remaining != []
    requires forall d :: d in remaining ==> d.body.Some? && (Resolved(d).None? || d.parent !in known)
    ensures remaining == Unresolvable(start, deltas, deltas)
    ensures more == Results(start, deltas)
  {
    forall d | d in deltas && Resolvable(start, deltas, d) ensures d.parent in known && Resolved(d).value in more {
      var n: nat :| DerivableIn(start, deltas, d.parent, n);
      FixpointContains(start, deltas, known, d.parent, n);
    }
    AllUnresolvable(start, deltas, remaining);
  }

  lemma {:induction false} NoneUnresolvable(start: set<ObjectId>, all: seq<DeltaObject>, a: seq<DeltaObject>,
                                            d: DeltaObject)
    requires Unresolvable(start, all, a) == [] && d in a && d.body.Some?
    ensures Resolvable(start, all, d)
  {
    if a[0] != d { NoneUnresolvable(start, all, a[1..], d); }
  }

  /** An empty worklist means every result has been found. */
  lemma AllFound(start: set<ObjectId>, deltas: seq<DeltaObject>, more: set<ObjectId>)
    requires Sorted(start, deltas, [], more)
    ensures more == Results(start, deltas)
    ensures Unresolvable(start, deltas, deltas) == []
  {
  }

  /** Success is for every delta at once. */
  lemma SuccessMeansAllResolvable(start: set<ObjectId>, deltas: seq<DeltaObject>)
    ensures Unresolvable(start, deltas, deltas) == [] <==>
              forall d :: d in deltas && d.body.Some? ==> Resolvable(start, deltas, d)
  {
    if Unresolvable(start, deltas, deltas) == [] {
      forall d | d in deltas && d.body.Some? ensures Resolvable(start, deltas, d) {
        NoneUnresolvable(start, deltas, deltas, d);
      }
    } else {
      SomeUnresolvable(start, deltas, deltas);
    }
  }

  lemma {:induction false} SomeUnresolvable(start: set<ObjectId>, all: seq<DeltaObject>, a: seq<DeltaObject>)
    requires Unresolvable(start, all, a) != []
    ensures exists d :: d in a && d.body.Some? && !Resolvable(start, all, d)
  {
    if a[0].body.Some? && !Resolvable(start, all, a[0]) {
      assert a[0] in a;
    } else {
      SomeUnresolvable(start, all, a[1..]);
      var d :| d in a[1..] && d.body.Some? && !Resolvable(start, all, d);
      assert d in a;
    }
  }

  /** Two orders of the same deltas: the same results, and both succeed or both fail. */
  lemma OrderDoesNotMatter(start: set<ObjectId>, a: seq<DeltaObject>, b: seq<DeltaObject>)
    requires forall d :: d in a <==> d in b
    ensures Results(start, a) == Results(start, b)
    ensures Unresolvable(start, a, a) == [] <==> Unresolvable(start, b, b) == []
  {
    ResultsIgnoreOrder(start, a, b);
    SuccessMeansAllResolvable(start, a);
    SuccessMeansAllResolvable(start, b);
  }

  /** What a pass over `done` has sorted into results and pending deltas. */
  ghost predicate PassDone(start: set<ObjectId>, all: seq<DeltaObject>, done: seq<DeltaObject>,
                           resolved: nat, pending: seq<DeltaObject>, more: set<ObjectId>)
  {
    && resolved + |pending| <= |done|
    && (forall d :: d in pending ==> d in done && d.body.Some?)
    && (forall d :: d in done && d.body.Some? ==> d in pending || (Resolved(d).Some? && Resolved(d).value in more))
    && (forall h :: h in more ==> exists d :: d in done && Resolvable(start, all, d) && Resolved(d) == Some(h))
    && Unresolvable(start, all, pending) == Unresolvable(start, all, done)
  }

  lemma PassSkips(start: set<ObjectId>, all: seq<DeltaObject>, done: seq<DeltaObject>,
                  resolved: nat, pending: seq<DeltaObject>, more: set<ObjectId>, d: DeltaObject)
    requires PassDone(start, all, done, resolved, pending, more) && d.body.None?
    ensures PassDone(start, all, done + [d], resolved, pending, more)
  {
    UnresolvableAppend(start, all, done, d);
    assert forall x :: x in done + [d] <==> x in done || x == d;
  }

  lemma PassDefers(start: set<ObjectId>, all: seq<DeltaObject>, done: seq<DeltaObject>,
                   resolved: nat, pending: seq<DeltaObject>, more: set<ObjectId>, d: DeltaObject)
    requires PassDone(start, all, done, resolved, pending, more) && d.body.Some?
    ensures PassDone(start, all, done + [d], resolved, pending + [d], more)
  {
    UnresolvableAppend(start, all, done, d);
    UnresolvableAppend(start, all, pending, d);
    assert forall x :: x in done + [d] <==> x in done || x == d;
    assert forall x :: x in pending + [d] <==> x in pending || x == d;
  }

  lemma PassResolves(start: set<ObjectId>, all: seq<DeltaObject>, done: seq<DeltaObject>,
                     resolved: nat, pending: seq<DeltaObject>, more: set<ObjectId>, d: DeltaObject)
    requires PassDone(start, all, done, resolved, pending, more) && d.body.Some? && Resolvable(start, all, d)
    ensures PassDone(start, all, done + [d], resolved + 1, pending, more + {Resolved(d).value})
  {
    UnresolvableAppend(start, all, done, d);
    assert forall x :: x in done + [d] <==> x in done || x == d;
  }

  // ----- reading the pack

  /** What reading the pack yields next; running out of events is the end of the stream. */
  datatype Event =
    | ObjectRead(content: Object)
    | DeltaRead(delta: DeltaObject)
    | TrailerRead
    | ReadFailed(tooLarge: bool)

  datatype FetchError = ReadError(position: nat) | Unresolved(error: ResolveError)

  /** The objects among the first `k` events. */
  function IdsRead(stream: seq<Event>, k: nat): set<ObjectId>
    requires k <= |stream|
  {
    set i | 0 <= i < k && stream[i].ObjectRead? :: ObjectId(stream[i].content)
  }

  /** Neither a failure nor the trailer is among the first `k` events. */
  predicate Reads(stream: seq<Event>, k: nat)
    requires k <= |stream|
  {
    forall i :: 0 <= i < k ==> stream[i].ObjectRead? || stream[i].DeltaRead?
  }

  /** A size-cap breach is forgiven only when the wanted objects were tracked and all seen. */
  function ClassifyReadError(tooLarge: bool, pendingWanted: Option<set<ObjectId>>,
                             objectsRead: nat): Option<FetchError> {
    if tooLarge && pendingWanted == Some({}) then None else Some(ReadError(objectsRead + 1))
  }

  /** Every wanted object is among the first `k` events, which all could be read. */
  ghost predicate Satisfied(stream: seq<Event>, want: seq<ObjectId>, k: nat) {
    k <= |stream| && Reads(stream, k) && forall w :: w in want ==> w in IdsRead(stream, k)
  }

  /** The deltas among the first `k` events, in order. */
  function DeltasRead(stream: seq<Event>, k: nat): seq<DeltaObject>
    requires k <= |stream|
  {
    if k == 0 then []
    else DeltasRead(stream, k - 1) + if stream[k - 1].DeltaRead? then [stream[k - 1].delta] else []
  }

  /** Reading is over once the wanted objects are tracked and complete. */
  ghost predicate Complete(stream: seq<Event>, want: seq<ObjectId>, tracked: bool, k: nat) {
    tracked && Satisfied(stream, want, k)
  }

  /** Reading stops after `k` events: they could be read, and it is the first time the
      wanted objects are complete, or they are not and nothing more can be read. */
  ghost predicate StopsAfter(stream: seq<Event>, want: seq<ObjectId>, tracked: bool, k: nat) {
    && k <= |stream| && Reads(stream, k)
    && (forall j: nat :: j < k ==> !Complete(stream, want, tracked, j))
    && (Complete(stream, want, tracked, k) || k == |stream| || stream[k].TrailerRead? || stream[k].ReadFailed?)
  }

  /** A failure was met before the wanted objects were complete. */
  ghost predicate FailsAfter(stream: seq<Event>, want: seq<ObjectId>, tracked: bool, k: nat) {
    k < |stream| && stream[k].ReadFailed? && !Complete(stream, want, tracked, k)
  }

  /** The deltas to resolve: none once the wanted objects are complete. */
  ghost function DeltasLeft(stream: seq<Event>, want: seq<ObjectId>, tracked: bool, k: nat): seq<DeltaObject>
    requires k <= |stream|
  {
    if Complete(stream, want, tracked, k) then [] else DeltasRead(stream, k)
  }

  /** What the read loop holds after `k` events, when it is to go on. */
  ghost predicate Reading(stream: seq<Event>, want: seq<ObjectId>, tracked: bool, k: nat,
                          pendingWanted: Option<set<ObjectId>>, deltas: seq<DeltaObject>)
  {
    && k <= |stream| && Reads(stream, k) && deltas == DeltasRead(stream, k)
    && (tracked <==> pendingWanted.Some?)
    && (tracked ==> pendingWanted.value == (set w | w in want) - IdsRead(stream, k) && pendingWanted.value != {})
  }

  lemma StartReading(stream: seq<Event>, want: seq<ObjectId>, tracked: bool)
    requires tracked ==> want != []
    ensures Reading(stream, want, tracked, 0, if tracked then Some(set w | w in want) else None, [])
  {
    assert IdsRead(stream, 0) == {};
    assert tracked ==> want[0] in (set w | w in want) - IdsRead(stream, 0);
  }

  lemma IdsOneMore(stream: seq<Event>, k: nat)
    requires k < |stream|
    ensures IdsRead(stream, k + 1) ==
            IdsRead(stream, k) + if stream[k].ObjectRead? then {ObjectId(stream[k].content)} else {}
  {
  }

  /** While something is missing, nothing was complete before. */
  lemma NotComplete(stream: seq<Event>, want: seq<ObjectId>, tracked: bool, k: nat,
                    pendingWanted: Option<set<ObjectId>>, deltas: seq<DeltaObject>, j: nat)
    requires Reading(stream, want, tracked, k, pendingWanted, deltas) && j <= k
    ensures !Complete(stream, want, tracked, j)
  {
    if tracked {
      var w :| w in pendingWanted.value;
      assert w in want && w !in IdsRead(stream, k);
      assert w !in IdsRead(stream, j);
    }
  }

  lemma ReadDelta(stream: seq<Event>, want: seq<ObjectId>, tracked: bool, k: nat,
                  pendingWanted: Option<set<ObjectId>>, deltas: seq<DeltaObject>)
    requires Reading(stream, want, tracked, k, pendingWanted, deltas) && k < |stream| && stream[k].DeltaRead?
    ensures Reading(stream, want, tracked, k + 1, pendingWanted, deltas + [stream[k].delta])
  {
    IdsOneMore(stream, k);
  }

  lemma ReadObject(stream: seq<Event>, want: seq<ObjectId>, tracked: bool, k: nat,
                   pendingWanted: Option<set<ObjectId>>, deltas: seq<DeltaObject>)
    requires Reading(stream, want, tracked, k, pendingWanted, deltas) && k < |stream| && stream[k].ObjectRead?
    ensures var left := if tracked then Some(pendingWanted.value - {ObjectId(stream[k].content)}) else None;
            if left == Some({}) then Complete(stream, want, tracked, k + 1)
            else Reading(stream, want, tracked, k + 1, left, deltas)
  {
    IdsOneMore(stream, k);
    if tracked {
      var ids := IdsRead(stream, k + 1);
      assert pendingWanted.value - {ObjectId(stream[k].content)} == (set w | w in want) - ids;
      if (set w | w in want) - ids == {} {
        forall w | w in want ensures w in ids { assert w !in (set w | w in want) - ids; }
      }
    }
  }

  lemma CompleteStops(stream: seq<Event>, want: seq<ObjectId>, tracked: bool, k: nat,
                      pendingWanted: Option<set<ObjectId>>, deltas: seq<DeltaObject>)
    requires Reading(stream, want, tracked, k, pendingWanted, deltas) && Complete(stream, want, tracked, k + 1)
    ensures StopsAfter(stream, want, tracked, k + 1)
  {
    forall j: nat | j < k + 1 ensures !Complete(stream, want, tracked, j) {
      NotComplete(stream, want, tracked, k, pendingWanted, deltas, j);
    }
  }

  lemma NothingMoreStops(stream: seq<Event>, want: seq<ObjectId>, tracked: bool, k: nat,
                         pendingWanted: Option<set<ObjectId>>, deltas: seq<DeltaObject>)
    requires Reading(stream, want, tracked, k, pendingWanted, deltas)
    requires k == |stream| || stream[k].TrailerRead? || stream[k].ReadFailed?
    ensures StopsAfter(stream, want, tracked, k) && !Complete(stream, want, tracked, k)
    ensures deltas == DeltasLeft(stream, want, tracked, k)
  {
    forall j: nat | j <= k ensures !Complete(stream, want, tracked, j) {
      NotComplete(stream, want, tracked, k, pendingWanted, deltas, j);
    }
  }

  /** The read loop. When only wanted objects matter, it stops right after the last of
      them to appear, duplicates notwithstanding, and drops the deltas so far. A
      failure met before that is reported, and none is ever forgiven. */
  method ReadPack(resolver: Resolver, stream: seq<Event>, want: seq<ObjectId>, tracked: bool)
    returns (error: Option<FetchError>, deltas: seq<DeltaObject>, ghost read: nat, ghost forgiven: bool)
    requires resolver.Valid() && (tracked ==> want != [])
    modifies resolver
    ensures StopsAfter(stream, want, tracked, read)
    ensures resolver.Valid() && resolver.Added(IdsRead(stream, read))
    ensures error == if FailsAfter(stream, want, tracked, read) then Some(ReadError(read + 1)) else None
    ensures error.None? ==> deltas == DeltasLeft(stream, want, tracked, read)
    ensures !forgiven
  {
    var pendingWanted: Option<set<ObjectId>> := if tracked then Some(set w | w in want) else None;
    ghost var mine, shared := resolver.objects.Keys, resolver.SharedKeys();
    deltas, forgiven := [], false;
    var k := 0;
    StartReading(stream, want, tracked);
    resolver.HoldsNothingMore();
    while k < |stream|
      invariant Reading(stream, want, tracked, k, pendingWanted, deltas) && resolver.Valid() && !forgiven
      invariant resolver.Holds(mine, shared, IdsRead(stream, k))
    {
      var e := stream[k];
      if e.TrailerRead? || e.ReadFailed? {
        NothingMoreStops(stream, want, tracked, k, pendingWanted, deltas);
        if e.TrailerRead? { return None, deltas, k, forgiven; }
        error := ClassifyReadError(e.tooLarge, pendingWanted, k);
        if error.None? { deltas, forgiven := [], true; }
        return error, deltas, k, forgiven;
      }
      if e.DeltaRead? {
        ReadDelta(stream, want, tracked, k, pendingWanted, deltas);
        IdsOneMore(stream, k);
        NothingAdded(IdsRead(stream, k));
        deltas := deltas + [e.delta];
      } else {
        ghost var mine', shared' := resolver.objects.Keys, resolver.SharedKeys();
        resolver.Store(e.content);
        resolver.HoldsMore(mine, shared, IdsRead(stream, k), mine', shared', {ObjectId(e.content)});
        ReadObject(stream, want, tracked, k, pendingWanted, deltas);
        IdsOneMore(stream, k);
        var done;
        ghost var left := if tracked then Some(pendingWanted.value - {ObjectId(e.content)}) else None;
        if left == Some({}) { CompleteStops(stream, want, tracked, k, pendingWanted, deltas); }
        pendingWanted, done := ShouldTerminateEarly(pendingWanted, ObjectId(e.content));
        if done { return None, [], k + 1, forgiven; }
      }
      k := k + 1;
    }
    NothingMoreStops(stream, want, tracked, k, pendingWanted, deltas);
    return None, deltas, k, forgiven;
  }

  /** Ticks off a wanted object; true once the last one is. */
  method ShouldTerminateEarly(pendingWanted: Option<set<ObjectId>>, id: ObjectId)
    returns (left: Option<set<ObjectId>>, done: bool)
    requires pendingWanted != Some({})
    ensures left == match pendingWanted case None => None case Some(ids) => Some(ids - {id})
    ensures done <==> left == Some({})
  {
    if pendingWanted.None? || id !in pendingWanted.value {
      if pendingWanted.Some? { assert pendingWanted.value - {id} == pendingWanted.value; }
      return pendingWanted, false;
    }
    left := Some(pendingWanted.value - {id});
    done := left.value == {};
  }

  lemma {:induction false} DeltasReadFrom(stream: seq<Event>, k: nat)
    requires k <= |stream|
    ensures forall d :: d in DeltasRead(stream, k) ==> DeltaRead(d) in stream
  {
    if k > 0 { DeltasReadFrom(stream, k - 1); }
  }

  /** Reads a pack and resolves its deltas. The fetch fails exactly when a failure is met
      before the wanted objects are complete, or some delta to resolve is not
      resolvable; what is added are the objects read and the results of the deltas. */
  method ProcessPackfileResponse(resolver: Resolver, stream: seq<Event>, want: seq<ObjectId>, noExtraObjects: bool)
    returns (r: Result<(), FetchError>, ghost read: nat)
    requires resolver.Valid()
    requires forall d :: DeltaRead(d) in stream ==> WellSized(d)
    modifies resolver
    ensures resolver.Valid()
    ensures StopsAfter(stream, want, noExtraObjects && want != [], read)
    ensures var tracked, ids := noExtraObjects && want != [], IdsRead(stream, read);
            var known, deltas := old(resolver.Known()) + ids, DeltasLeft(stream, want, tracked, read);
            var failed, stuck := FailsAfter(stream, want, tracked, read), Unresolvable(known, deltas, deltas);
            r == (if failed then Err(ReadError(read + 1))
                  else if stuck != [] then Err(Unresolved(MissingBases(Parents(stuck))))
                  else Ok(())) &&
            resolver.Added(ids + if failed then {} else Results(known, deltas))
  {
    var error, deltas;
    ghost var forgiven;
    ghost var mine, shared := resolver.objects.Keys, resolver.SharedKeys();
    error, deltas, read, forgiven := ReadPack(resolver, stream, want, noExtraObjects && want != []);
    ghost var ids := IdsRead(stream, read);
    NothingAdded(ids);
    if error.Some? { return Err(error.value), read; }
    DeltasReadFrom(stream, read);
    ghost var known := old(resolver.Known()) + ids;
    assert resolver.Known() == known;
    if |deltas| > 0 {
      ghost var mine', shared' := resolver.objects.Keys, resolver.SharedKeys();
      var resolution := resolver.ResolveDeltas(deltas);
      resolver.HoldsMore(mine, shared, ids, mine', shared', Results(known, deltas));
      if resolution.Err? { return Err(Unresolved(resolution.error)), read; }
    } else {
      assert Results(known, deltas) == {};
    }
    r := Ok(());
  }

  /** Once all wanted objects have been read, nothing later in the stream can make the
      fetch fail. */
  lemma CompleteNeverFails(stream: seq<Event>, want: seq<ObjectId>, k: nat, read: nat)
    requires Satisfied(stream, want, k) && StopsAfter(stream, want, true, read)
    ensures read <= k && !FailsAfter(stream, want, true, read) && DeltasLeft(stream, want, true, read) == []
    ensures forall w :: w in want ==> w in IdsRead(stream, read)
  {
    if read > k { assert Complete(stream, want, true, k); }
  }
}
