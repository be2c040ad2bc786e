/** What the node database never loses (trie/database.go): whatever is stored below a
    referenced root, over any run of insertions, references, dereferences and commits. */
module Retained {
  import opened Common
  import opened RefGraph
  import opened Batches
  import opened CommitOrder

  /** The hashes a node refers to. Nodes are addressed by content, so its hash decides. */
  type Kids = Hash -> set<Hash>

  ghost predicate OnDisk(kids: Kids, d: Data, h: Hash) {
    forall k | k in kids(h) :: k in d
  }

  ghost predicate DiskClosed(kids: Kids, d: Data) {
    forall h: Hash | h in d :: OnDisk(kids, d, h)
  }

  /** The node under p references all its children, but for those on disk. */
  ghost predicate KidsHeld(kids: Kids, ns: Nodes, d: Data, p: Hash)
    requires p in ns
  {
    forall k | k in kids(p) :: k in ns[p].children || k in d
  }

  /** Cached nodes not on disk have exact counts, references point to the cache or the disk, the disk is closed under
      children, and cached nodes, but for one, hold on to their children. */
  ghost predicate KeptBut(kids: Kids, ns: Nodes, d: Data, but: Option<Hash>) {
    && Backed(ns, d.Keys) && DiskClosed(kids, d)
    && forall p | p in ns && p != ZeroHash && but != Some(p) :: KidsHeld(kids, ns, d, p)
  }

  ghost predicate Kept(kids: Kids, ns: Nodes, d: Data) {
    KeptBut(kids, ns, d, None)
  }

  // ----- what it gives

  ghost predicate Proper(kids: Kids) {
    forall h :: ZeroHash !in kids(h)
  }

  /** x is n references below h. */
  ghost predicate Descends(kids: Kids, h: Hash, x: Hash, n: nat)
    decreases n
  {
    if n == 0 then x == h else exists k :: k in kids(h) && Descends(kids, k, x, n - 1)
  }

  /** The children of a node that can be read can be read. */
  lemma ChildKept(kids: Kids, ns: Nodes, d: Data, h: Hash, k: Hash)
    requires Kept(kids, ns, d) && h != ZeroHash && Lookup(ns, d, h).Some? && k in kids(h)
    ensures Lookup(ns, d, k).Some?
  {
    hide RefSum;
    if h in ns {
      assert KidsHeld(kids, ns, d, h);
      if k in ns[h].children {
        assert Edge(ns, h, k);
      }
    } else {
      assert OnDisk(kids, d, h);
    }
  }

  /** So can everything below it, */
  lemma {:induction false} BelowKept(kids: Kids, ns: Nodes, d: Data, h: Hash, x: Hash, n: nat)
    requires Kept(kids, ns, d) && Proper(kids) && h != ZeroHash && Lookup(ns, d, h).Some? && Descends(kids, h, x, n)
    ensures Lookup(ns, d, x).Some?
    decreases n
  {
    hide Lookup, KeptBut;
    if n > 0 {
      var k :| k in kids(h) && Descends(kids, k, x, n - 1);
      ChildKept(kids, ns, d, h, k);
      BelowKept(kids, ns, d, k, x, n - 1);
    }
  }

  /** and in particular everything below a root that the meta-root references. */
  lemma RootKept(kids: Kids, ns: Nodes, d: Data, root: Hash, x: Hash, n: nat)
    requires Kept(kids, ns, d) && Proper(kids) && root != ZeroHash
    requires Edge(ns, ZeroHash, root) && Descends(kids, root, x, n)
    ensures Lookup(ns, d, x).Some?
  {
    hide RefSum, Descends;
    BelowKept(kids, ns, d, root, x, n);
  }

  // ----- every step keeps it

  lemma KeptStart(kids: Kids, ns: Nodes, d: Data)
    requires Exact(ns) && ns.Keys == {ZeroHash} && DiskClosed(kids, d)
    ensures Kept(kids, ns, d)
  {
    hide RefSum, DiskClosed;
    BackedMore(ns, {}, d.Keys);
  }

  lemma BackedMore(ns: Nodes, d: set<Bytes>, d': set<Bytes>)
    requires Backed(ns, d) && d <= d'
    ensures Backed(ns, d')
  {
    hide RefSum, Edge;
  }

  lemma KeptAdded(kids: Kids, ns: Nodes, d: Data, h: Hash, blob: Bytes)
    requires Kept(kids, ns, d) && Backs(ns, Added(ns, h, blob))
    ensures KeptBut(kids, Added(ns, h, blob), d, Some(h))
  {
    hide Backed, DiskClosed;
    forall p | p in ns && p != ZeroHash ensures KidsHeld(kids, ns, d, p) {
    }
  }

  lemma KeptLinked(kids: Kids, ns: Nodes, d: Data, p: Hash, c: Hash, but: Option<Hash>)
    requires p in ns && c in ns && p != c
    requires KeptBut(kids, ns, d, but) && Backs(ns, Linked(ns, p, c))
    ensures KeptBut(kids, Linked(ns, p, c), d, but)
  {
    hide Backed, DiskClosed, Mult;
    var ms := Linked(ns, p, c);
    forall q | q in ms && q != ZeroHash && but != Some(q) ensures KidsHeld(kids, ms, d, q) {
      assert KidsHeld(kids, ns, d, q);
      assert forall k | k in ns[q].children :: k in ms[q].children;
    }
  }

  /** Only a reference of the meta-root is dropped: the other nodes that stay keep all of theirs. */
  lemma KeptDropped(kids: Kids, ns: Nodes, ms: Nodes, d: Data, c: Hash, rank: Hash -> nat)
    requires Kept(kids, ns, d) && Dropped(ns, ms, ZeroHash, c, rank)
    ensures Kept(kids, ms, d)
  {
    hide Backed, DiskClosed, Graph, NoNewRoots, Exact;
    CutShape(ns, ZeroHash, c);
    forall q | q in ms && q != ZeroHash ensures KidsHeld(kids, ms, d, q) {
      assert KidsHeld(kids, ns, d, q);
    }
  }

  /** Every prefix of the writes of a commit leaves the disk closed, and nothing else has changed. */
  lemma KeptWritten(kids: Kids, ns: Nodes, ps: map<Hash, Bytes>, d: Data, pre: seq<Write>, ws: seq<Write>, k: nat)
    requires Kept(kids, ns, d) && PreimageWrites(ps, pre) && ChildrenFirst(ns, ws) && k <= |pre + ws|
    requires ZeroHash !in WrittenNodes(ns, ws)
    ensures Kept(kids, ns, Apply(d, (pre + ws)[..k]))
  {
    hide Apply, Backed, PreimageWrites, ChildrenFirst, OnDisk, WrittenNodes;
    var some := (pre + ws)[..k];
    var d' := Apply(d, some);
    forall key | key in d ensures key in d' {
      ApplyKeeps(d, some, key);
    }
    BackedMore(ns, d.Keys, d'.Keys);
    forall h: Hash | h in d' ensures OnDisk(kids, d', h) {
      if h in d {
        assert OnDisk(kids, d, h);
        OnDiskMore(kids, d, d', h);
      } else {
        WrittenClosed(kids, ns, ps, d, pre, ws, k, h);
      }
    }
    forall p | p in ns && p != ZeroHash ensures KidsHeld(kids, ns, d', p) {
      assert KidsHeld(kids, ns, d, p);
    }
  }

  lemma OnDiskMore(kids: Kids, d: Data, d': Data, h: Hash)
    requires OnDisk(kids, d, h) && forall key | key in d :: key in d'
    ensures OnDisk(kids, d', h)
  {
  }

  lemma {:induction false} ApplyKeeps(d: Data, ws: seq<Write>, key: Bytes)
    ensures key in Apply(d, ws) <==> key in d || Written(ws, key)
    decreases |ws|
  {
    if ws != [] {
      var front, last := ws[..|ws| - 1], ws[|ws| - 1];
      ApplyKeeps(d, front, key);
      assert ws == front + [last];
      WrittenConcat(front, [last], key);
      assert Written([last], key) <==> last.key == key by {
        assert [last][0] == last;
      }
    }
  }

  /** The children of a node that was just written are on disk: written before it, or there already. */
  lemma WrittenClosed(kids: Kids, ns: Nodes, ps: map<Hash, Bytes>, d: Data, pre: seq<Write>, ws: seq<Write>, k: nat,
                      h: Hash)
    requires Kept(kids, ns, d) && PreimageWrites(ps, pre) && ChildrenFirst(ns, ws) && k <= |pre + ws|
    requires h in Apply(d, (pre + ws)[..k]) && h !in d && ZeroHash !in WrittenNodes(ns, ws)
    ensures OnDisk(kids, Apply(d, (pre + ws)[..k]), h)
  {
    hide Apply, RefSum, PreimageWrite, DiskClosed;
    var all, some := pre + ws, (pre + ws)[..k];
    ApplyKeeps(d, some, h);
    var i :| 0 <= i < |some| && some[i].key == h;
    if i < |pre| {
      assert some[i] == pre[i];
      KeyOfPreimage(ps, pre[i]);
    }
    var j := i - |pre|;
    assert some[i] == ws[j] && NodeWrite(ns, ws[j]) && Written(ws, h);
    assert KidsHeld(kids, ns, d, h);
    forall x | x in kids(h) ensures x in Apply(d, some) {
      if x in ns[h].children && x in ns {
        assert ChildOf(ns, ws[j], x);
        var m :| 0 <= m < |ws[..j]| && ws[..j][m].key == x;
        assert some[|pre| + m].key == x;
      } else if x in ns[h].children {
        assert Edge(ns, h, x);
      }
      ApplyKeeps(d, some, x);
    }
  }

  /** What is on disk may be forgotten with everything below it. */
  lemma KeptForgotten(kids: Kids, ns: Nodes, d: Data, h: Hash)
    requires Kept(kids, ns, d) && forall x | x in Below(ns, h) :: x in d
    ensures Kept(kids, ns - Below(ns, h), d)
  {
    hide Backed, DiskClosed, Below;
    var ms := ns - Below(ns, h);
    BackedLess(ns, d, h);
    forall p | p in ms && p != ZeroHash ensures KidsHeld(kids, ms, d, p) {
      assert KidsHeld(kids, ns, d, p);
    }
  }

  lemma BackedLess(ns: Nodes, d: Data, h: Hash)
    requires Backed(ns, d.Keys) && forall x | x in Below(ns, h) :: x in d
    ensures Backed(ns - Below(ns, h), d.Keys)
  {
    hide RefSum, Below;
    var gone := Below(ns, h);
    var ms := ns - gone;
    forall p, c | Edge(ms, p, c) ensures c in ms || c in d {
      assert Edge(ns, p, c);
    }
    forall c | c in ms && c !in d ensures ms[c].parents == RefSum(ms, ms.Keys, c) {
      forall p | p in gone && p in ns ensures Mult(ns, p, c) == 0 {
        if Edge(ns, p, c) {
          BelowStep(ns, h, p, c);
        }
      }
      assert ms.Keys == ns.Keys - gone;
      RefSumWithout(ns, ns.Keys, gone * ns.Keys, c);
      assert ns.Keys - gone * ns.Keys == ms.Keys;
      RefSumSame(ns, ms, ms.Keys, c);
    }
  }

  lemma {:induction false} RefSumWithout(ns: Nodes, s: set<Hash>, gone: set<Hash>, c: Hash)
    requires gone <= s && forall p | p in gone :: Mult(ns, p, c) == 0
    ensures RefSum(ns, s, c) == RefSum(ns, s - gone, c)
    decreases |gone|
  {
    hide Mult, RefSum;
    if gone == {} {
      assert s - gone == s;
    } else {
      var p :| p in gone;
      RefSumPick(ns, s, c, p);
      RefSumWithout(ns, s - {p}, gone - {p}, c);
      assert s - {p} - (gone - {p}) == s - gone;
    }
  }
}
