/** The reference-counted graph of cached trie nodes (trie/database.go), as values:
    edges with multiplicities, counts, and what can be reached. */
module RefGraph {
  import opened Common

  /** cachedNode. */
  datatype CachedNode = CachedNode(blob: Bytes, parents: int, children: map<Hash, nat>)

  type Nodes = map<Hash, CachedNode>

  /** p names c as a child. */
  ghost predicate Edge(ns: Nodes, p: Hash, c: Hash) {
    p in ns && c in ns[p].children
  }

  /** How often p names c as a child. */
  ghost function Mult(ns: Nodes, p: Hash, c: Hash): nat {
    if Edge(ns, p, c) then ns[p].children[c] else 0
  }

  /** The references to c from the nodes of s. */
  ghost function RefSum(ns: Nodes, s: set<Hash>, c: Hash): nat
    decreases |s|
  {
    if s == {} then 0 else
    var p :| p in s;
    Mult(ns, p, c) + RefSum(ns, s - {p}, c)
  }

  lemma {:induction false} RefSumPick(ns: Nodes, s: set<Hash>, c: Hash, x: Hash)
    requires x in s
    ensures RefSum(ns, s, c) == Mult(ns, x, c) + RefSum(ns, s - {x}, c)
    decreases |s|
  {
    hide Mult;
    var p :| p in s && RefSum(ns, s, c) == Mult(ns, p, c) + RefSum(ns, s - {p}, c);
    if p != x {
      RefSumPick(ns, s - {p}, c, x);
      RefSumPick(ns, s - {x}, c, p);
      assert s - {p} - {x} == s - {x} - {p};
    }
  }

  lemma {:induction false} RefSumSame(ns: Nodes, ms: Nodes, s: set<Hash>, c: Hash)
    requires forall p | p in s :: Mult(ns, p, c) == Mult(ms, p, c)
    ensures RefSum(ns, s, c) == RefSum(ms, s, c)
    decreases |s|
  {
    hide Mult;
    if s != {} {
      var p :| p in s;
      RefSumPick(ns, s, c, p);
      RefSumPick(ms, s, c, p);
      RefSumSame(ns, ms, s - {p}, c);
    }
  }

  /** Changing the edges of one node changes the sum by the difference. */
  lemma RefSumChange(ns: Nodes, ms: Nodes, s: set<Hash>, c: Hash, x: Hash)
    requires x in s && forall p | p in s && p != x :: Mult(ns, p, c) == Mult(ms, p, c)
    ensures RefSum(ms, s, c) == RefSum(ns, s, c) + Mult(ms, x, c) - Mult(ns, x, c)
  {
    hide Mult, RefSum;
    RefSumPick(ns, s, c, x);
    RefSumPick(ms, s, c, x);
    RefSumSame(ns, ms, s - {x}, c);
  }

  lemma {:induction false} RefSumPositive(ns: Nodes, s: set<Hash>, c: Hash)
    requires RefSum(ns, s, c) > 0
    ensures exists p :: p in s && Mult(ns, p, c) > 0
    decreases |s|
  {
    hide Mult;
    var p :| p in s;
    RefSumPick(ns, s, c, p);
    if Mult(ns, p, c) == 0 {
      RefSumPositive(ns, s - {p}, c);
    }
  }

  lemma RefSumMember(ns: Nodes, s: set<Hash>, c: Hash, p: Hash)
    requires p in s
    ensures Mult(ns, p, c) <= RefSum(ns, s, c)
  {
    RefSumPick(ns, s, c, p);
  }

  /** The bytes the cache accounts for: 32 per hash plus the blob, the meta-root excepted. */
  ghost function SizeSum(ns: Nodes, s: set<Hash>): nat
    requires s <= ns.Keys
    decreases |s|
  {
    if s == {} then 0 else
    var h :| h in s;
    32 + |ns[h].blob| + SizeSum(ns, s - {h})
  }

  lemma {:induction false} SizeSumPick(ns: Nodes, s: set<Hash>, x: Hash)
    requires x in s && s <= ns.Keys
    ensures SizeSum(ns, s) == 32 + |ns[x].blob| + SizeSum(ns, s - {x})
    decreases |s|
  {
    var p :| p in s && SizeSum(ns, s) == 32 + |ns[p].blob| + SizeSum(ns, s - {p});
    if p != x {
      SizeSumPick(ns, s - {p}, x);
      SizeSumPick(ns, s - {x}, p);
      assert s - {p} - {x} == s - {x} - {p};
    }
  }

  lemma {:induction false} SizeSumSame(ns: Nodes, ms: Nodes, s: set<Hash>)
    requires s <= ns.Keys && s <= ms.Keys && forall h | h in s :: ns[h].blob == ms[h].blob
    ensures SizeSum(ns, s) == SizeSum(ms, s)
    decreases |s|
  {
    if s != {} {
      var p :| p in s;
      SizeSumPick(ns, s, p);
      SizeSumPick(ms, s, p);
      SizeSumSame(ns, ms, s - {p});
    }
  }

  ghost function CacheSize(ns: Nodes): nat {
    SizeSum(ns, ns.Keys - {ZeroHash})
  }

  lemma SizeDrop(ns: Nodes, h: Hash)
    requires h in ns && h != ZeroHash
    ensures CacheSize(ns - {h}) == CacheSize(ns) - 32 - |ns[h].blob|
  {
    var s := ns.Keys - {ZeroHash};
    SizeSumPick(ns, s, h);
    SizeSumSame(ns, ns - {h}, s - {h});
    assert (ns - {h}).Keys - {ZeroHash} == s - {h};
  }

  lemma SizeAdd(ns: Nodes, h: Hash, n: CachedNode)
    requires h !in ns && h != ZeroHash
    ensures CacheSize(ns[h := n]) == CacheSize(ns) + 32 + |n.blob|
  {
    SizeDrop(ns[h := n], h);
    assert ns[h := n] - {h} == ns;
  }

  lemma SizeKeeps(ns: Nodes, ms: Nodes)
    requires ns.Keys == ms.Keys && forall h | h in ns :: ns[h].blob == ms[h].blob
    ensures CacheSize(ns) == CacheSize(ms)
  {
    SizeSumSame(ns, ms, ns.Keys - {ZeroHash});
  }

  // ----- the invariants

  /** References go down in rank; only the meta-root, which is nobody's child, counts duplicates. */
  ghost predicate EdgeFine(ns: Nodes, rank: Hash -> nat, p: Hash, c: Hash)
    requires Edge(ns, p, c)
  {
    && c != ZeroHash && ns[p].children[c] > 0
    && (p != ZeroHash ==> ns[p].children[c] == 1 && rank(c) < rank(p))
  }

  ghost predicate Graph(ns: Nodes, rank: Hash -> nat) {
    ZeroHash in ns && forall p, c | Edge(ns, p, c) :: EdgeFine(ns, rank, p, c)
  }

  /** Every reference points to a cached node or to one in d, and the cached nodes that are not in d count their
      references exactly. The counts of nodes in d may be stale. */
  ghost predicate Backed(ns: Nodes, d: set<Bytes>) {
    && (forall p, c | Edge(ns, p, c) :: c in ns || c in d)
    && (forall c | c in ns && c !in d :: ns[c].parents == RefSum(ns, ns.Keys, c))
  }

  /** Every reference points to a cached node and is counted there, and nothing else is. */
  ghost predicate Exact(ns: Nodes) {
    Backed(ns, {})
  }

  /** Whatever backed ns backs ms. */
  ghost predicate Backs(ns: Nodes, ms: Nodes) {
    forall d | Backed(ns, d) :: Backed(ms, d)
  }

  lemma BacksTrans(a: Nodes, b: Nodes, c: Nodes)
    requires Backs(a, b) && Backs(b, c)
    ensures Backs(a, c)
  {
    hide Backed;
  }

  lemma BacksExact(ns: Nodes, ms: Nodes)
    requires Backs(ns, ms)
    ensures Exact(ns) ==> Exact(ms)
  {
    hide Backed;
  }

  lemma EdgeOk(ns: Nodes, rank: Hash -> nat, p: Hash, c: Hash)
    requires Graph(ns, rank) && Edge(ns, p, c)
    ensures c != ZeroHash && c != p && ns[p].children[c] > 0
    ensures p != ZeroHash ==> ns[p].children[c] == 1 && rank(c) < rank(p)
    ensures Exact(ns) ==> c in ns && ns[c].parents > 0
  {
    if Exact(ns) {
      RefSumMember(ns, ns.Keys, c, p);
    }
  }

  // ----- inserting a node

  ghost function Added(ns: Nodes, h: Hash, blob: Bytes): Nodes {
    if h in ns then ns else ns[h := CachedNode(blob, 0, map[])]
  }

  lemma AddedOk(ns: Nodes, rank: Hash -> nat, h: Hash, blob: Bytes)
    requires Graph(ns, rank)
    ensures Graph(Added(ns, h, blob), rank)
    ensures Backs(ns, Added(ns, h, blob))
    ensures CacheSize(Added(ns, h, blob)) == CacheSize(ns) + if h in ns then 0 else 32 + |blob|
  {
    hide CacheSize, Backed;
    var ms := Added(ns, h, blob);
    forall p, c | Edge(ms, p, c) ensures EdgeFine(ms, rank, p, c) {
      assert Edge(ns, p, c);
    }
    if h !in ns {
      SizeAdd(ns, h, CachedNode(blob, 0, map[]));
      forall d | Backed(ns, d) ensures Backed(ms, d) {
        AddedBacked(ns, h, blob, d);
      }
    }
  }

  lemma AddedBacked(ns: Nodes, h: Hash, blob: Bytes, d: set<Bytes>)
    requires Backed(ns, d) && h !in ns
    ensures Backed(Added(ns, h, blob), d)
  {
    hide RefSum;
    var ms := Added(ns, h, blob);
    forall p, c | Edge(ms, p, c) ensures c in ms || c in d {
      assert Edge(ns, p, c);
    }
    forall c | c in ms && c !in d ensures ms[c].parents == RefSum(ms, ms.Keys, c) {
      RefSumPick(ms, ms.Keys, c, h);
      assert ms.Keys - {h} == ns.Keys;
      RefSumSame(ns, ms, ns.Keys, c);
      if c == h {
        NoEdgesIn(ns, h, d);
      }
    }
  }

  /** Nothing that is in neither place is referenced. */
  lemma NoEdgesIn(ns: Nodes, h: Hash, d: set<Bytes>)
    requires Backed(ns, d) && h !in ns && h !in d
    ensures RefSum(ns, ns.Keys, h) == 0
  {
    hide RefSum;
    if RefSum(ns, ns.Keys, h) > 0 {
      RefSumPositive(ns, ns.Keys, h);
    }
  }

  // ----- adding and cutting one reference

  ghost function Linked(ns: Nodes, p: Hash, c: Hash): Nodes
    requires p in ns && c in ns && p != c
  {
    ns[c := ns[c].(parents := ns[c].parents + 1)]
      [p := ns[p].(children := ns[p].children[c := Mult(ns, p, c) + 1])]
  }

  lemma LinkedOk(ns: Nodes, rank: Hash -> nat, p: Hash, c: Hash)
    requires Graph(ns, rank) && p in ns && c in ns && c != ZeroHash
    requires p == ZeroHash || (rank(c) < rank(p) && c !in ns[p].children)
    ensures p != c && Graph(Linked(ns, p, c), rank)
    ensures Backs(ns, Linked(ns, p, c))
    ensures CacheSize(Linked(ns, p, c)) == CacheSize(ns)
  {
    hide CacheSize, Backs;
    var ms := Linked(ns, p, c);
    SizeKeeps(ns, ms);
    forall q, x | Edge(ms, q, x) ensures EdgeFine(ms, rank, q, x) {
      assert Edge(ns, q, x) || (q == p && x == c);
    }
    LinkedBacks(ns, p, c);
  }

  lemma LinkedBacks(ns: Nodes, p: Hash, c: Hash)
    requires p in ns && c in ns && p != c
    ensures Backs(ns, Linked(ns, p, c))
  {
    hide Backed;
    var ms := Linked(ns, p, c);
    assert forall x | x != c :: Edge(ms, p, x) <==> Edge(ns, p, x);
    forall d | Backed(ns, d) ensures Backed(ms, d) {
      CountsMove(ns, ms, p, c, 1, d);
    }
  }

  /** One edge and the count of its target move together. */
  lemma CountsMove(ns: Nodes, ms: Nodes, p: Hash, c: Hash, n: int, d: set<Bytes>)
    requires Backed(ns, d) && p in ns && (c in ns || c in d) && p != c && ns.Keys == ms.Keys
    requires forall h | h in ns && h != p :: ms[h].children == ns[h].children
    requires forall h | h in ns && h != c :: ms[h].parents == ns[h].parents
    requires (c in ns ==> ms[c].parents == ns[c].parents + n) && Mult(ms, p, c) == Mult(ns, p, c) + n
    requires forall x | x != c :: Edge(ms, p, x) <==> Edge(ns, p, x)
    requires forall x | x != c :: Mult(ms, p, x) == Mult(ns, p, x)
    ensures Backed(ms, d)
  {
    hide RefSum;
    forall q, x | Edge(ms, q, x) ensures x in ms || x in d {
      assert Edge(ns, q, x) || x == c;
    }
    forall x | x in ms && x !in d ensures ms[x].parents == RefSum(ms, ms.Keys, x) {
      RefSumChange(ns, ms, ns.Keys, x, p);
    }
  }

  ghost function CutChild(children: map<Hash, nat>, c: Hash): map<Hash, nat>
    requires c in children && children[c] > 0
  {
    if children[c] == 1 then children - {c} else children[c := children[c] - 1]
  }

  /** The edge is gone and the child, if cached, counts one reference less. */
  ghost function Cut(ns: Nodes, p: Hash, c: Hash): Nodes
    requires Edge(ns, p, c) && ns[p].children[c] > 0 && p != c
  {
    var ms := ns[p := ns[p].(children := CutChild(ns[p].children, c))];
    if c in ns then ms[c := ns[c].(parents := ns[c].parents - 1)] else ms
  }

  lemma CutOk(ns: Nodes, rank: Hash -> nat, p: Hash, c: Hash)
    requires Graph(ns, rank) && Edge(ns, p, c)
    ensures ns[p].children[c] > 0 && p != c && Graph(Cut(ns, p, c), rank)
    ensures Backs(ns, Cut(ns, p, c))
    ensures CacheSize(Cut(ns, p, c)) == CacheSize(ns)
  {
    hide CacheSize, Backed;
    var ms := Cut(ns, p, c);
    SizeKeeps(ns, ms);
    forall q, x | Edge(ms, q, x) ensures EdgeFine(ms, rank, q, x) {
      assert Edge(ns, q, x);
    }
    forall d | Backed(ns, d) ensures Backed(ms, d) {
      EdgeHeld(ns, p, c, d);
      CountsMove(ns, ms, p, c, -1, d);
    }
  }

  lemma EdgeHeld(ns: Nodes, p: Hash, c: Hash, d: set<Bytes>)
    requires Backed(ns, d) && Edge(ns, p, c)
    ensures c in ns || c in d
  {
  }

  // ----- dropping a node

  lemma DropOk(ns: Nodes, rank: Hash -> nat, h: Hash)
    requires Graph(ns, rank) && h in ns && h != ZeroHash && ns[h].children == map[]
    ensures Graph(ns - {h}, rank)
    ensures ns[h].parents == 0 ==> Backs(ns, ns - {h})
  {
    hide Backed;
    var ms := ns - {h};
    forall p, c | Edge(ms, p, c) ensures EdgeFine(ms, rank, p, c) {
      assert Edge(ns, p, c);
    }
    if ns[h].parents == 0 {
      forall d | Backed(ns, d) ensures Backed(ms, d) {
        DropBacked(ns, rank, h, d);
      }
    }
  }

  /** An unreferenced node goes: it has no referrers, or it is in d. */
  lemma DropBacked(ns: Nodes, rank: Hash -> nat, h: Hash, d: set<Bytes>)
    requires Graph(ns, rank) && Backed(ns, d) && h in ns && ns[h].children == map[] && ns[h].parents == 0
    ensures Backed(ns - {h}, d)
  {
    hide RefSum;
    var ms := ns - {h};
    forall p, c | Edge(ms, p, c) ensures c in ms || c in d {
      assert Edge(ns, p, c);
      if c == h && h !in d {
        RefSumMember(ns, ns.Keys, h, p);
      }
    }
    forall c | c in ms && c !in d ensures ms[c].parents == RefSum(ms, ms.Keys, c) {
      RefSumPick(ns, ns.Keys, c, h);
      assert ms.Keys == ns.Keys - {h};
      RefSumSame(ns, ms, ms.Keys, c);
    }
  }

  // ----- reachability

  /** h is at most k edges below one of the roots. */
  ghost predicate ReachIn(ns: Nodes, roots: set<Hash>, h: Hash, k: nat)
    decreases k
  {
    && h in ns
    && (h in roots || (k > 0 && exists p :: Edge(ns, p, h) && ReachIn(ns, roots, p, k - 1)))
  }

  ghost predicate Reachable(ns: Nodes, roots: set<Hash>, h: Hash) {
    exists k: nat :: ReachIn(ns, roots, h, k)
  }

  lemma ReachStep(ns: Nodes, roots: set<Hash>, p: Hash, h: Hash)
    requires Reachable(ns, roots, p) && Edge(ns, p, h) && h in ns
    ensures Reachable(ns, roots, h)
  {
    var k: nat :| ReachIn(ns, roots, p, k);
    assert ReachIn(ns, roots, h, k + 1);
  }

  /** A set that holds the roots and the cached children of its members holds all that is reachable. */
  lemma {:induction false} ReachClosed(ns: Nodes, roots: set<Hash>, s: set<Hash>, h: Hash, k: nat)
    requires forall x | x in roots && x in ns :: x in s
    requires forall p, c | p in s && Edge(ns, p, c) && c in ns :: c in s
    requires ReachIn(ns, roots, h, k)
    ensures h in s
    decreases k
  {
    if h !in roots {
      var p :| Edge(ns, p, h) && ReachIn(ns, roots, p, k - 1);
      ReachClosed(ns, roots, s, p, k - 1);
    }
  }

  // ----- collection

  /** ms is ns after the garbage below c has been removed: what is left is as it was, counts aside. */
  ghost predicate Shrunk(ns: Nodes, ms: Nodes, c: Hash, rank: Hash -> nat) {
    && ms.Keys <= ns.Keys
    && (forall h | h in ms :: ms[h].blob == ns[h].blob && ms[h].children == ns[h].children)
    && (forall h | h in ns && h !in ms :: h != ZeroHash && rank(h) <= rank(c))
  }

  /** No unreferenced node went away and no node was left unreferenced. */
  ghost predicate NoNewRoots(ns: Nodes, ms: Nodes) {
    && (forall h | h in ns && ns[h].parents == 0 :: h in ms && ms[h].parents == 0)
    && (forall h | h in ms && ms[h].parents == 0 :: h in ns && ns[h].parents == 0)
  }

  /** The meta-root and the nodes nobody references. */
  ghost function Roots(ns: Nodes): set<Hash> {
    (set h | h in ns && ns[h].parents == 0) + {ZeroHash}
  }

  /** The result of dropping one reference from p to c. */
  ghost predicate Dropped(ns: Nodes, ms: Nodes, p: Hash, c: Hash, rank: Hash -> nat) {
    && Edge(ns, p, c) && ns[p].children[c] > 0 && p != c
    && Graph(ms, rank) && Shrunk(Cut(ns, p, c), ms, c, rank)
    && (forall h | h in ms && h != c && rank(h) >= rank(c) :: ms[h].parents == ns[h].parents)
    && Backs(ns, ms) && (Exact(ns) ==> NoNewRoots(ns, ms))
  }

  /** c has lost some of its children, and what only they kept is gone. */
  ghost predicate Peeled(ns: Nodes, ms: Nodes, c: Hash, rank: Hash -> nat) {
    && Graph(ms, rank) && c in ms && ms.Keys <= ns.Keys
    && ms[c].blob == ns[c].blob && ms[c].children.Keys <= ns[c].children.Keys
    && (forall h | h in ms && h != c :: ms[h].blob == ns[h].blob && ms[h].children == ns[h].children)
    && (forall h | h in ns && h !in ms :: h != ZeroHash && rank(h) < rank(c))
    && (forall h | h in ms && rank(h) >= rank(c) :: ms[h].parents == ns[h].parents)
    && Backs(ns, ms) && (Exact(ns) ==> NoNewRoots(ns, ms))
  }

  lemma PeelNone(ns: Nodes, c: Hash, rank: Hash -> nat)
    requires Graph(ns, rank) && c in ns
    ensures Peeled(ns, ns, c, rank)
  {
    hide Graph, Backed;
  }

  lemma PeelStep(ns: Nodes, ms: Nodes, ms': Nodes, c: Hash, x: Hash, rank: Hash -> nat)
    requires Graph(ms, rank) && Peeled(ns, ms, c, rank) && Dropped(ms, ms', c, x, rank) && c != ZeroHash
    ensures Peeled(ns, ms', c, rank) && c in ms' && ms'[c].children == ms[c].children - {x}
  {
    hide Exact, Backs, NoNewRoots, Graph;
    assert ms[c].children[x] == 1 && rank(x) < rank(c) by { EdgeOk(ms, rank, c, x); }
    CutShape(ms, c, x);
    BacksTrans(ns, ms, ms');
    if Exact(ns) {
      BacksExact(ns, ms);
      RootsTrans(ns, ms, ms');
    }
  }

  /** Only the edge and the count of the child change. */
  lemma CutShape(ns: Nodes, p: Hash, c: Hash)
    requires Edge(ns, p, c) && ns[p].children[c] > 0 && p != c
    ensures var gs := Cut(ns, p, c);
            && gs.Keys == ns.Keys && gs[p].children == CutChild(ns[p].children, c)
            && (forall h | h in ns :: gs[h].blob == ns[h].blob && (h != p ==> gs[h].children == ns[h].children))
            && (forall h | h in ns && h != c :: gs[h].parents == ns[h].parents)
            && (c in ns ==> gs[c].parents == ns[c].parents - 1)
  {
  }

  lemma RootsTrans(a: Nodes, b: Nodes, c: Nodes)
    requires NoNewRoots(a, b) && NoNewRoots(b, c)
    ensures NoNewRoots(a, c)
  {
  }

  /** The child had its last reference dropped and its own references taken back. */
  lemma DropDone(ns: Nodes, ms: Nodes, p: Hash, c: Hash, rank: Hash -> nat)
    requires Graph(ns, rank) && Edge(ns, p, c) && ns[p].children[c] > 0 && p != c && c in ns && c != ZeroHash
    requires ns[c].parents == 1 && Peeled(Cut(ns, p, c), ms, c, rank) && ms[c].children == map[]
    ensures Dropped(ns, ms - {c}, p, c, rank)
  {
    hide Exact, Backs, NoNewRoots, Graph, Cut, CutChild, Shrunk, Peeled, Edge;
    var gs := Cut(ns, p, c);
    CutOk(ns, rank, p, c);
    CutShape(ns, p, c);
    ShrunkDone(gs, ms, c, rank);
    DropOk(ms, rank, c);
    BacksTrans(ns, gs, ms);
    BacksTrans(ns, ms, ms - {c});
    if Exact(ns) {
      BacksExact(ns, gs);
      RootsDone(ns, gs, ms, c);
    }
  }

  lemma ShrunkDone(gs: Nodes, ms: Nodes, c: Hash, rank: Hash -> nat)
    requires Peeled(gs, ms, c, rank) && c != ZeroHash
    ensures Graph(ms, rank) && c in ms && Shrunk(gs, ms - {c}, c, rank)
    ensures forall h | h in ms && rank(h) >= rank(c) :: h in gs && ms[h].parents == gs[h].parents
    ensures Backs(gs, ms) && (Exact(gs) ==> NoNewRoots(gs, ms))
  {
    hide Exact, Backs, NoNewRoots, Graph;
  }

  lemma RootsDone(ns: Nodes, gs: Nodes, ms: Nodes, c: Hash)
    requires gs.Keys == ns.Keys && NoNewRoots(gs, ms) && c in ns && ns[c].parents == 1
    requires forall h | h in ns && h != c :: gs[h].parents == ns[h].parents
    ensures NoNewRoots(ns, ms - {c})
  {
  }

  /** The child keeps other references, or was never cached. */
  lemma DropKeeps(ns: Nodes, p: Hash, c: Hash, rank: Hash -> nat)
    requires Graph(ns, rank) && Edge(ns, p, c) && ns[p].children[c] > 0 && p != c
    requires c in ns ==> ns[c].parents != 1
    ensures Dropped(ns, Cut(ns, p, c), p, c, rank)
  {
    hide Exact, Backs, Graph, Cut, CutChild;
    CutOk(ns, rank, p, c);
    CutShape(ns, p, c);
    EdgeOk(ns, rank, p, c);
  }

  ghost function Above(ns: Nodes, rank: Hash -> nat, h: Hash): set<Hash> {
    set x | x in ns && rank(x) > rank(h)
  }

  /** Going up from a survivor ends at a root. */
  lemma {:induction false} SurvivorReached(gs: Nodes, ms: Nodes, roots: set<Hash>, rank: Hash -> nat, h: Hash)
    requires Graph(ms, rank) && Exact(ms) && h in ms && ms.Keys <= gs.Keys
    requires forall x | x in ms :: ms[x].children == gs[x].children
    requires ZeroHash in roots && forall x | x in ms && ms[x].parents == 0 :: x in roots
    ensures Reachable(gs, roots, h)
    decreases |Above(ms, rank, h)|
  {
    hide RefSum;
    if h in roots {
      assert ReachIn(gs, roots, h, 0);
    } else {
      RefSumPositive(ms, ms.Keys, h);
      var p :| p in ms && Mult(ms, p, h) > 0;
      if p == ZeroHash {
        assert ReachIn(gs, roots, p, 0);
      } else {
        assert p in Above(ms, rank, h) && p !in Above(ms, rank, p);
        assert Above(ms, rank, p) < Above(ms, rank, h);
        Smaller(Above(ms, rank, p), Above(ms, rank, h));
        SurvivorReached(gs, ms, roots, rank, p);
      }
      ReachStep(gs, roots, p, h);
    }
  }

  lemma Smaller(a: set<Hash>, b: set<Hash>)
    requires a < b
    ensures |a| < |b|
  {
    var x :| x in b && x !in a;
    assert a <= b - {x};
    SubsetSize(a, b - {x});
  }

  /** Collection is exact: what survives is what can still be reached, without the dropped
      reference, from the meta-root and from the nodes that were unreferenced before. */
  lemma CollectedExactly(ns: Nodes, ms: Nodes, p: Hash, c: Hash, rank: Hash -> nat)
    requires Graph(ns, rank) && Exact(ns) && Dropped(ns, ms, p, c, rank)
    ensures forall h :: h in ms <==> Reachable(Cut(ns, p, c), Roots(ns), h)
  {
    hide Backed, Reachable;
    var gs, roots := Cut(ns, p, c), Roots(ns);
    forall h ensures h in ms <==> Reachable(gs, roots, h) {
      if h in ms {
        SurvivorReached(gs, ms, roots, rank, h);
      }
      if Reachable(gs, roots, h) {
        ReachedSurvives(gs, ms, roots, h);
      }
    }
  }

  lemma ReachedSurvives(gs: Nodes, ms: Nodes, roots: set<Hash>, h: Hash)
    requires Reachable(gs, roots, h) && roots <= ms.Keys && Exact(ms) && ms.Keys <= gs.Keys
    requires forall x | x in ms :: ms[x].children == gs[x].children
    ensures h in ms
  {
    hide RefSum;
    var k: nat :| ReachIn(gs, roots, h, k);
    forall p, c | p in ms.Keys && Edge(gs, p, c) && c in gs ensures c in ms.Keys {
      assert Edge(ms, p, c);
    }
    ReachClosed(gs, roots, ms.Keys, h, k);
  }
}
