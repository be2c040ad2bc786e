/** How deep the synchroniser (trie/sync.go) takes a node to be: over any run a request for a node of a registered trie
    has the depth of the registration plus the length of the path to the node. */
module SyncDepths {
  import opened Common
  import opened HexKeys
  import opened Rlp
  import opened Trees
  import opened Merkle
  import opened Nodes
  import opened Represent
  import opened SyncState
  import opened SyncSteps
  import opened Sync
  import opened SyncRuns

  /** A trie and the depth it is registered at. */
  datatype Origin = Origin(tree: Tree, depth: nat)

  ghost predicate OriginOk(o: Origin) {
    Canon(o.tree) && IsNode(o.tree) && KnownTree(o.tree)
  }

  /** The node at path p of the trie is stored under k on its own. */
  ghost predicate NodeUnder(o: Origin, p: Path, k: Hash) {
    OriginOk(o) && HashedAt(o.tree, p, k) && (p == [] || Big(NodeAt(o.tree, p).value))
  }

  /** k is a node of one of the tries, and depth is that of the trie plus the length of the path to it. */
  ghost predicate Placed(origins: iset<Origin>, k: Hash, depth: nat) {
    exists o: Origin, p: Path :: o in origins && NodeUnder(o, p, k) && depth == o.depth + |p|
  }

  ghost predicate AllPlaced(origins: iset<Origin>, s: State) {
    forall k | k in s.rs && s.rs[k].entry.TrieNode? :: Placed(origins, k, s.rs[k].depth)
  }

  /** One of the tries has root hash h and is registered at this depth. */
  ghost predicate Registered(origins: iset<Origin>, h: Hash, depth: nat) {
    exists o: Origin :: o in origins && OriginOk(o) && h == TreeHash(o.tree) && depth == o.depth
  }

  /** Every trie that is registered, by the caller or by a leaf, is one of these. */
  ghost predicate ActRegisters(cfg: Config, origins: iset<Origin>, act: Act) {
    match act
    case AddTrie(h, d, _, _) => h != EmptyRoot() ==> Registered(origins, h, d)
    case AddRaw(_, _, _) => true
    case Deliver(item) => ItemRegisters(cfg, origins, item)
    case Flush(_) => true
  }

  ghost predicate ItemRegisters(cfg: Config, origins: iset<Origin>, item: SyncResult) {
    var n := DecodeNode(Some(item.hash), item.data, 0);
    n.Ok? ==>
      forall x | x in LeafAsks(cfg, true, Kids(n.value)) && x.entry.TrieNode? :: Registered(origins, x.hash, x.depth)
  }

  // ----- paths

  lemma {:induction false} NodeAtConcat(t: Tree, p: Path, q: Path)
    requires Canon(t) && NodeAt(t, p).Some?
    ensures NodeAt(t, p + q) == NodeAt(NodeAt(t, p).value, q)
    decreases t
  {
    if p == [] {
      assert p + q == q;
    } else if t.Ext? {
      assert (p + q)[|t.key|..] == p[|t.key|..] + q;
      NodeAtConcat(t.child, p[|t.key|..], q);
    } else {
      assert (p + q)[1..] == p[1..] + q;
      NodeAtConcat(t.children[p[0]], p[1..], q);
    }
  }

  lemma {:induction false} KnownAt(t: Tree, p: Path)
    requires Canon(t) && KnownTree(t) && NodeAt(t, p).Some?
    ensures KnownTree(NodeAt(t, p).value)
    decreases t
  {
    hide Canon, Known;
    if p != [] && t.Ext? {
      CanonExt(t);
      KnownAt(t.child, p[|t.key|..]);
    } else if p != [] {
      CanonBranch(t);
      KnownAt(t.children[p[0]], p[1..]);
    }
  }

  /** The path from a node to one of its children. */
  predicate Step(t: Tree, q: Path) {
    if t.Ext? then q == t.key else t.Branch? && |q| == 1 && q[0] < 17
  }

  lemma StepAt(t: Tree, q: Path)
    requires Canon(t) && Step(t, q)
    ensures q != [] && NodeAt(t, q) == Some(if t.Ext? then t.child else t.children[q[0]])
  {
    assert q[|q|..] == [];
  }

  /** Data with the hash of a node is the node. */
  lemma ItemIsNode(u: Tree, item: SyncResult)
    requires Canon(u) && IsNode(u) && KnownTree(u) && item.hash == TreeHash(u)
    requires Keccak(item.data) == item.hash && Known(item.data)
    ensures DecodeNode(Some(item.hash), item.data, 0) == Ok(Shallow(u, Some(item.hash), 0))
  {
    hide Canon, Blob, DecodeNode, Shallow;
    KnownShape(u);
    assert item.data == Blob(u);
    DecodeNodeOf(u, Some(item.hash), 0, []);
    assert Blob(u) + [] == Blob(u);
  }

  /** A child by hash is a node one step further, and is asked for at the depth of that step. */
  lemma KidStep(u: Tree, h: Hash, k: Hash, depth: nat) returns (q: Path)
    requires Canon(u) && IsNode(u) && HashRef(k) in Kids(Shallow(u, Some(h), 0))
    ensures Step(u, q) && KidDepth(depth, Shallow(u, Some(h), 0)) == depth + |q|
    ensures var c := if u.Ext? then u.child else u.children[q[0]];
            Canon(c) && IsNode(c) && Big(c) && k == TreeHash(c)
  {
    hide Canon, Big, TreeHash;
    var kids := Kids(Shallow(u, Some(h), 0));
    var i :| 0 <= i < |kids| && kids[i] == HashRef(k);
    KidOf(u, Some(h), i);
    if u.Branch? {
      CanonBranch(u);
    }
    q := if u.Ext? then u.key else [i];
    ByHash(if u.Ext? then u.child else u.children[i], k);
  }

  lemma ByHash(t: Tree, k: Hash)
    requires Canon(t) && ShallowRef(t, 0) == HashRef(k)
    ensures IsNode(t) && Big(t) && k == TreeHash(t)
  {
    hide Big, TreeHash;
    assert IsNode(t) ==> !Shallow(t, None, 0).HashRef?;
  }

  /** And conversely every stored child is there. */
  lemma StepKid(u: Tree, h: Hash, q: Path, depth: nat) returns (i: nat)
    requires Canon(u) && IsNode(u) && Step(u, q)
    requires var c := if u.Ext? then u.child else u.children[q[0]]; Canon(c) && IsNode(c) && Big(c)
    ensures var c := if u.Ext? then u.child else u.children[q[0]];
            var kids := Kids(Shallow(u, Some(h), 0));
            i < |kids| && kids[i] == HashRef(TreeHash(c))
    ensures KidDepth(depth, Shallow(u, Some(h), 0)) == depth + |q|
  {
    hide Canon, Big, TreeHash;
    i := if u.Ext? then 0 else q[0];
    KidOf(u, Some(h), i);
  }

  lemma NodeBelow(o: Origin, p: Path, h: Hash, q: Path, k: Hash)
    requires NodeUnder(o, p, h)
    requires var u := NodeAt(o.tree, p).value;
             && Step(u, q)
             && var c := if u.Ext? then u.child else u.children[q[0]];
                Canon(c) && IsNode(c) && Big(c) && k == TreeHash(c)
    ensures NodeUnder(o, p + q, k)
  {
    hide Canon, Big, TreeHash, KnownTree, NodeAt;
    StepAt(NodeAt(o.tree, p).value, q);
    NodeAtConcat(o.tree, p, q);
  }

  // ----- one act

  lemma RootPlaced(origins: iset<Origin>, h: Hash, depth: nat)
    requires Registered(origins, h, depth)
    ensures Placed(origins, h, depth)
  {
    hide Canon, TreeHash, Big, KnownTree;
    var o: Origin :| o in origins && OriginOk(o) && h == TreeHash(o.tree) && depth == o.depth;
    assert NodeUnder(o, [], h);
  }

  /** The children of a placed node are placed. */
  lemma KidPlaced(origins: iset<Origin>, item: SyncResult, depth: nat, x: Sub, e: Entry)
    requires Placed(origins, item.hash, depth) && Keccak(item.data) == item.hash && Known(item.data)
    requires var n := DecodeNode(Some(item.hash), item.data, 0);
             n.Ok? && x in RefAsks(Kids(n.value), e, KidDepth(depth, n.value))
    ensures Placed(origins, x.hash, x.depth)
  {
    hide Canon, KnownTree, TreeHash, Big, Known, DecodeNode, Shallow, RefAsks, KidDepth, NodeAt;
    var o: Origin, p: Path :| o in origins && NodeUnder(o, p, item.hash) && depth == o.depth + |p|;
    var u := NodeAt(o.tree, p).value;
    KnownAt(o.tree, p);
    ItemIsNode(u, item);
    var n := Shallow(u, Some(item.hash), 0);
    RefAll(Kids(n), e, KidDepth(depth, n), x);
    var q := KidStep(u, item.hash, x.hash, depth);
    NodeBelow(o, p, item.hash, q, x.hash);
    assert x.depth == o.depth + |p + q|;
  }

  lemma AskPlaced(cfg: Config, origins: iset<Origin>, s: State, act: Act, x: Sub)
    requires AllPlaced(origins, s) && ActOk(cfg, act) && ActRegisters(cfg, origins, act)
    requires x in ActAsks(cfg, s, act) && x.entry.TrieNode?
    ensures Placed(origins, x.hash, x.depth)
  {
    hide DecodeNode, LeafAsks, RefAsks, Wanted, Placed, Registered, KidDepth, Uniform, Within;
    match act
    case AddTrie(h, d, p, w) =>
      WantedIn([Sub(h, TrieNode(w), d)], x);
      RootPlaced(origins, h, d);
    case AddRaw(h, d, p) =>
      WantedIn([Sub(h, RawEntry, d)], x);
    case Deliver(item) =>
      var r, n := s.rs[item.hash], DecodeNode(Some(item.hash), item.data, 0).value;
      NoneAsked(cfg, Kids(n));
      if x in LeafAsks(cfg, Watched(r.entry), Kids(n)) {
        RootPlaced(origins, x.hash, x.depth);
      } else {
        KidPlaced(origins, item, r.depth, x, r.entry);
      }
  }

  lemma PlacedNext(cfg: Config, origins: iset<Origin>, s: State, act: Act, s': State)
    requires AllPlaced(origins, s) && ActOk(cfg, act) && ActRegisters(cfg, origins, act) && Next(cfg, s, act, s')
    ensures AllPlaced(origins, s')
  {
    hide ActOk, ActRegisters, ActAsks, Find, Next, Placed;
    forall k | k in s'.rs && s'.rs[k].entry.TrieNode? ensures Placed(origins, k, s'.rs[k].depth) {
      var asks := ActAsks(cfg, s, act);
      NextEntry(cfg, s, act, s', k);
      if k !in s.rs {
        FindIn(asks, k);
        AskPlaced(cfg, origins, s, act, Find(asks, k).value);
      }
    }
  }

  // ----- runs

  /** Over any run every pending trie node is a node of a registered trie, and its depth is the depth of that
      registration plus the length of the path to the node. */
  lemma {:induction false} RunPlaced(cfg: Config, origins: iset<Origin>, ss: seq<State>, acts: seq<Act>, n: nat)
    requires IsRun(cfg, ss, acts) && n <= |acts| && AllPlaced(origins, ss[0])
    requires forall i | 0 <= i < |acts| :: ActOk(cfg, acts[i]) && ActRegisters(cfg, origins, acts[i])
    ensures AllPlaced(origins, ss[n])
    decreases n
  {
    hide AllPlaced, ActOk, ActRegisters, Next, Apart;
    if n > 0 {
      RunPlaced(cfg, origins, ss, acts, n - 1);
      assert Next(cfg, ss[n - 1], acts[n - 1], ss[n]);
      PlacedNext(cfg, origins, ss[n - 1], acts[n - 1], ss[n]);
    }
  }

  /** A node that no other registered trie has, and its own trie only at paths of one length, is requested at the depth
      of its path. */
  lemma DepthOfPath(cfg: Config, origins: iset<Origin>, ss: seq<State>, acts: seq<Act>, n: nat, o: Origin, p: Path,
                    k: Hash)
    requires IsRun(cfg, ss, acts) && n <= |acts| && AllPlaced(origins, ss[0])
    requires forall i | 0 <= i < |acts| :: ActOk(cfg, acts[i]) && ActRegisters(cfg, origins, acts[i])
    requires k in ss[n].rs && ss[n].rs[k].entry.TrieNode?
    requires forall o', p' | o' in origins && NodeUnder(o', p', k) :: o' == o && |p'| == |p|
    ensures ss[n].rs[k].depth == o.depth + |p|
  {
    hide ActOk, ActRegisters, Next, Apart, NodeUnder;
    RunPlaced(cfg, origins, ss, acts, n);
    assert Placed(origins, k, ss[n].rs[k].depth);
  }

  /** The same for one step and without conditions on other tries: when the node at path p of a trie, requested at the
      depth of p, is delivered, a stored child that is not yet known is requested at the depth of its own path, unless
      a leaf of the node asks for it first. */
  lemma ChildDepth(cfg: Config, s: State, item: SyncResult, s': State, o: Origin, p: Path, q: Path, k: Hash)
    requires Next(cfg, s, Deliver(item), s') && Takes(s, item) && ActOk(cfg, Deliver(item))
    requires NodeUnder(o, p, item.hash) && s.rs[item.hash].entry.TrieNode? && s.rs[item.hash].depth == o.depth + |p|
    requires Step(NodeAt(o.tree, p).value, q) && NodeUnder(o, p + q, k) && !Met(s, k)
    requires var n := DecodeNode(Some(item.hash), item.data, 0).value;
             Find(LeafAsks(cfg, Watched(s.rs[item.hash].entry), Kids(n)), k).None?
    ensures k in s'.rs && s'.rs[k].depth == o.depth + |p + q|
  {
    hide Canon, KnownTree, TreeHash, Big, Known, DecodeNode, Shallow, LeafAsks, RefAsks, KidDepth, Find, NodeAt, Next;
    hide Have;
    var u, r := NodeAt(o.tree, p).value, s.rs[item.hash];
    KnownAt(o.tree, p);
    ItemIsNode(u, item);
    StepAt(u, q);
    NodeAtConcat(o.tree, p, q);
    var n := Shallow(u, Some(item.hash), 0);
    var i := StepKid(u, item.hash, q, r.depth);
    var refs := RefAsks(Kids(n), r.entry, KidDepth(r.depth, n));
    FindConcat(LeafAsks(cfg, Watched(r.entry), Kids(n)), refs, k);
    RefThere(Kids(n), r.entry, KidDepth(r.depth, n), i);
    FindIn(refs, k);
    RefAll(Kids(n), r.entry, KidDepth(r.depth, n), Find(refs, k).value);
    NewPending(cfg, s, item, s', Find(refs, k).value);
    NextEntry(cfg, s, Deliver(item), s', k);
  }

  lemma NewPending(cfg: Config, s: State, item: SyncResult, s': State, x: Sub)
    requires Next(cfg, s, Deliver(item), s') && Takes(s, item) && !Met(s, x.hash) && x in ItemAsks(cfg, s, item)
    ensures x.hash in s'.rs
  {
    hide ItemAsks, Find, DecodeNode;
    assert Met(s', x.hash);
  }

  // ----- the class makes such runs

  /** A synchroniser for one trie: after any acts, if neither they nor the leaves they deliver register another trie,
      every pending trie node is at the depth of a path to it. */
  method SyncTrie(t: Tree, db: Store, leaf: Bytes -> seq<Sub>, watch: bool, acts: seq<Act>, ghost cfg: Config,
                  ghost seen: set<Hash>) returns (ts: TrieSync)
    requires Honest(db) && Closed(cfg, db, seen) && seen <= db.Keys && cfg.leaf == leaf
    requires Canon(t) && IsNode(t) && KnownTree(t) && Within(TrieNode(watch), cfg.entry(TreeHash(t)))
    requires forall i | 0 <= i < |acts| :: ActOk(cfg, acts[i]) && ActRegisters(cfg, iset{Origin(t, 0)}, acts[i])
    ensures ts.Valid()
    ensures forall k | k in ts.requests && ts.requests[k].entry.TrieNode? ::
              exists p: Path :: NodeUnder(Origin(t, 0), p, k) && ts.requests[k].depth == |p|
  {
    hide TrieSync.Valid, Honest, Closed, Canon, KnownTree, TreeHash, ActOk, ActRegisters, AllPlaced, Within, NodeUnder;
    hide Next, Apart;
    ts := new TrieSync(TreeHash(t), db, leaf, watch, cfg, seen);
    ghost var origins := iset{Origin(t, 0)};
    StartPlaced(t, ts.S(), watch);
    ghost var ss := Drive(ts, acts);
    RunPlaced(cfg, origins, ss, acts, |acts|);
    OnePlaced(t, ts.S());
  }

  lemma StartPlaced(t: Tree, s: State, watch: bool)
    requires Canon(t) && IsNode(t) && KnownTree(t)
    requires s.rs == map[] || s.rs == map[TreeHash(t) := Request(None, TrieNode(watch), [], 0, 0)]
    ensures AllPlaced(iset{Origin(t, 0)}, s)
  {
    hide Canon, KnownTree, TreeHash, Placed;
    assert Origin(t, 0) in iset{Origin(t, 0)} && OriginOk(Origin(t, 0));
    RootPlaced(iset{Origin(t, 0)}, TreeHash(t), 0);
  }

  lemma OnePlaced(t: Tree, s: State)
    requires AllPlaced(iset{Origin(t, 0)}, s)
    ensures forall k | k in s.rs && s.rs[k].entry.TrieNode? ::
              exists p: Path :: NodeUnder(Origin(t, 0), p, k) && s.rs[k].depth == |p|
  {
    hide NodeUnder;
    forall k | k in s.rs && s.rs[k].entry.TrieNode?
      ensures exists p: Path :: NodeUnder(Origin(t, 0), p, k) && s.rs[k].depth == |p|
    {
      assert Placed(iset{Origin(t, 0)}, k, s.rs[k].depth);
    }
  }
}
