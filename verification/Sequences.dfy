/** Slices of sequences, results that are sequences, and loops over sets. */
module Sequences {
  import opened GitTypes

  lemma TakeOneMore<T>(s: seq<T>, k: nat)
    requires k < |s|
    ensures s[..k + 1] == s[..k] + [s[k]]
  {
  }

  lemma TakeAll<T>(s: seq<T>)
    ensures s[..|s|] == s
  {
  }

  lemma SplitLast<T>(s: seq<T>)
    requires s != []
    ensures s == s[..|s| - 1] + [s[|s| - 1]]
  {
  }

  lemma NothingInFront<T>(s: seq<T>)
    ensures [] + s == s
  {
  }

  lemma NothingBehind<T>(s: seq<T>)
    ensures s + [] == s
  {
  }

  lemma DropTwice<T>(s: seq<T>, a: nat, b: nat)
    requires a + b <= |s|
    ensures s[a..][b..] == s[a + b..]
  {
  }

  /** What is in front of, and behind, the first element. */
  lemma FirstOf<T>(x: T, s: seq<T>, rest: seq<T>)
    ensures (([x] + s) + rest)[0] == x && (([x] + s) + rest)[1..] == s + rest
  {
    assert ([x] + s) + rest == [x] + (s + rest);
  }

  lemma AppendAssociates<T>(a: seq<T>, b: seq<T>, c: seq<T>)
    ensures a + (b + c) == (a + b) + c
  {
  }

  lemma PrefixSlices<T>(a: seq<T>, b: seq<T>, n: nat)
    requires a <= b && n <= |a|
    ensures a[..n] == b[..n] && a[n..] <= b[n..]
  {
  }

  /** The result with `front` before it. */
  function Prepend<T, E>(front: seq<T>, r: Result<seq<T>, E>): Result<seq<T>, E> {
    match r
    case Err(e) => Err(e)
    case Ok(rest) => Ok(front + rest)
  }

  lemma PrependTwice<T, E>(a: seq<T>, b: seq<T>, r: Result<seq<T>, E>)
    ensures Prepend(a, Prepend(b, r)) == Prepend(a + b, r)
  {
    if r.Ok? { assert a + (b + r.value) == (a + b) + r.value; }
  }

  lemma PrependNothing<T, E>(r: Result<seq<T>, E>)
    ensures Prepend([], r) == r
  {
    if r.Ok? { assert [] + r.value == r.value; }
  }

  lemma UnionAssociates<T>(a: set<T>, b: set<T>, c: set<T>)
    ensures (a + b) + c == a + (b + c)
  {
  }

  /** The keys of a loop over a set: those still to visit and those done. */
  ghost predicate Partition<K>(keys: set<K>, todo: set<K>, done: set<K>) {
    todo !! done && todo + done == keys
  }

  lemma VisitOne<K>(keys: set<K>, todo: set<K>, done: set<K>, k: K)
    requires Partition(keys, todo, done) && k in todo
    ensures Partition(keys, todo - {k}, done + {k})
    ensures k in keys && k !in done && |todo - {k}| < |todo| && done <= keys
  {
  }

  lemma AllVisited<K>(keys: set<K>, done: set<K>)
    requires Partition(keys, {}, done)
    ensures done == keys
  {
  }
}
