/** Reading back what a writer commits: flattening the committed tree gives exactly
    the staged entries and the gitlinks the writer keeps. */
module FlatRoundTrip {
  import opened GitTypes
  import opened TreeOrder
  import opened StagedTree
  import opened StagedInvariant
  import opened StagedRebuild
  import opened WriterRuns
  import opened FlatTrees

  lemma ChildLink(s: Stage, d: Path, n: Name)
    ensures FindEntry(NodeHash(s, d).entries, n) == Lookup(s, d + [n])
  {
    var m := Children(s, d);
    var t := NodeHash(s, d).entries;
    CanonicalDistinct(t, m);
    if n in m {
      assert TreeEntry(m[n].mode, n, m[n].hash) in t;
      FindEntryIs(t, TreeEntry(m[n].mode, n, m[n].hash));
    } else if FindEntry(t, n).Some? {
      var l := FindEntry(t, n).value;
      FindEntryIs(t, TreeEntry(l.mode, n, l.hash));
      assert false;
    }
  }

  lemma FreshChild(s: Stage, d: Path, n: Name)
    requires Typed(s) && FreshExcept(s, {}) && Lookup(s, d + [n]).Some?
    ensures Lookup(s, d + [n]).value.mode == MODE_TREE <==> IsDir(s.tree, d + [n])
    ensures IsDir(s.tree, d + [n]) ==> Lookup(s, d + [n]).value.hash == NodeHash(s, d + [n])
  {
    assert Fresh(s, d + [n]);
  }

  /** Walking the committed tree finds at each path what is staged there. */
  lemma {:induction false} WalkIsLookup(s: Stage, d: Path, p: Path)
    requires Typed(s) && Rooted(s) && FreshExcept(s, {}) && p != []
    ensures Walk(NodeHash(s, d), p) == Lookup(s, d + p)
    decreases |p|
  {
    var n := p[0];
    ChildLink(s, d, n);
    if |p| == 1 {
      assert p == [n];
    } else {
      var c := d + [n];
      assert d + p == c + p[1..];
      if Lookup(s, c).Some? { FreshChild(s, d, n); }
      if IsDir(s.tree, c) {
        WalkIsLookup(s, c, p[1..]);
      } else {
        NothingBelowFile(s, c);
        assert Under(c, d + p) && d + p != c by { assert (d + p)[..|c|] == c; }
      }
    }
  }

  /** Every tree a clean stage holds is in the order Git wants, at every depth. */
  lemma {:induction false} BuiltTreesCanonical(s: Stage, d: Path)
    requires Typed(s) && FreshExcept(s, {})
    ensures WellNamed(NodeHash(s, d)) && CanonicalTree(NodeHash(s, d))
    decreases Longest(s.tree.Keys) - |d|
  {
    var m := Children(s, d);
    var t := NodeHash(s, d).entries;
    CanonicalDistinct(t, m);
    CanonicalIff(t);
    forall e | e in t && e.mode == MODE_TREE ensures WellNamed(e.hash) && CanonicalTree(e.hash) {
      assert e.name in m && Lookup(s, d + [e.name]) == Some(m[e.name]);
      FreshChild(s, d, e.name);
      BuiltTreesCanonical(s, d + [e.name]);
    }
  }

  /** Rebuilding and then flattening gives back the flat listing. */
  lemma RebuildThenFlatten(s: Stage, entries: seq<FlatItem>, links: seq<FlatItem>)
    requires Consistent(s) && s.dirty == {} && ListsTree(s.root, [], entries, links)
    ensures MapOf(entries, s.tree - {[]})
    ensures MapOf(links, Pruned(s))
  {
    assert Fresh(s, []);
    forall item: FlatItem
      ensures item in entries <==> item.path in s.tree - {[]} && (s.tree - {[]})[item.path] == item.entry
      ensures item in links <==> item.path in Pruned(s) && Pruned(s)[item.path] == item.entry
    {
      var p := item.path;
      assert p[0..] == p;
      if p != [] {
        WalkIsLookup(s, [], p);
        assert [] + p == p;
      }
      assert p in s.links ==> HasParents(s.tree, p);
    }
  }

  /** After a commit, reading the flat tree of the new commit gives exactly what is staged. */
  lemma CommitThenFlatten(w: Writer, text: CommitText, v: Writer, entries: seq<FlatItem>, links: seq<FlatItem>)
    requires Sound(w) && Step(w, Commit(text), v)
    requires ListsTree(v.lastCommit.tree, [], entries, links)
    ensures WellNamed(v.lastCommit.tree) && CanonicalTree(v.lastCommit.tree)
    ensures MapOf(entries, v.stage.tree - {[]}) && MapOf(links, Pruned(v.stage))
    ensures v.stage.tree.Keys == w.stage.tree.Keys
    ensures forall p :: p in w.stage.tree && w.stage.tree[p].kind.BlobObject? ==> v.stage.tree[p] == w.stage.tree[p]
  {
    CommitKeepsSound(w, text, v);
    assert Fresh(v.stage, []);
    assert v.lastCommit.tree == v.stage.root;
    BuiltTreesCanonical(v.stage, []);
    RebuildThenFlatten(v.stage, entries, links);
  }

  /** A commit pushed at once leaves in the cache exactly the pushed tree's gitlinks. */
  lemma GitlinkCacheAfterPush(w: Writer, text: CommitText, v: Writer, u: Writer, links: seq<FlatItem>,
                              entries: seq<FlatItem>)
    requires Sound(w) && Step(w, Commit(text), v) && Step(v, Push(true), u)
    requires ListsTree(v.lastCommit.tree, [], entries, links)
    ensures MapOf(links, u.stage.links)
    ensures forall d :: NodeHash(u.stage, d) == NodeHash(v.stage, d)
  {
    CommitThenFlatten(w, text, v, entries, links);
    CommitKeepsSound(w, text, v);
    PruningChangesNothing(v.stage);
  }

  // ----- where runs start

  /** What the walk through a stored tree reaches is stored, gitlinks excepted. */
  lemma {:induction false} WalkStored(h: Hash, p: Path, objects: set<Hash>)
    requires WellNamed(h) && AllStored(h, objects)
    requires Walk(h, p).Some? && Walk(h, p).value.mode != MODE_GITLINK
    ensures AllStored(Walk(h, p).value.hash, objects)
    decreases |p|
  {
    var l := FindEntry(h.entries, p[0]).value;
    FindEntryIs(h.entries, TreeEntry(l.mode, p[0], l.hash));
    if |p| > 1 { WalkStored(l.hash, p[1..], objects); }
  }

  /** A writer made from the flat listing of a commit that a complete remote stores is
      sound, so that every run may start from it. */
  lemma FreshWriterIsSound(commit: Hash, objects: set<Hash>, s: Stage, entries: seq<FlatItem>, links: seq<FlatItem>)
    requires commit.CommitId? && WellNamed(commit.tree) && CanonicalTree(commit.tree)
    requires commit.tree in objects && Closed(objects)
    requires ListsTree(commit.tree, [], entries, links) && StageOf(s, commit.tree, entries, links) && s.pack == {}
    ensures Sound(Writer(s, commit, false, Zero, commit, commit, objects))
  {
    FlattenThenRebuild(s, commit.tree, entries, links);
    forall p | p in s.tree ensures AllStored(s.tree[p].hash, objects) {
      StageLookupIsWalk(s, commit.tree, entries, links, p);
      WalkStored(commit.tree, p, objects);
    }
    assert objects + s.pack == objects;
  }
}
