/** A trie committed into the node database (trie/hasher.go, trie/database.go): as long as its root is
    referenced, no run of other operations on the database takes any of its nodes away. */
module TrieStore {
  import opened Common
  import opened Trees
  import opened Rlp
  import opened Merkle
  import opened Nodes
  import opened Represent
  import opened StoreLog
  import opened TrieRuns
  import opened MerkleTrie
  import opened RefGraph
  import opened Batches
  import opened CommitOrder
  import opened Retained
  import Database
  import SyncState

  type Cache = RefGraph.Nodes

  // ----- the references of a node, read from its data

  ghost function HashesIn(kids: seq<Node>): set<Hash> {
    set i | 0 <= i < |kids| && kids[i].HashRef? :: kids[i].hash
  }

  lemma InHashes(kids: seq<Node>, k: Hash)
    ensures k in HashesIn(kids) <==> exists i :: 0 <= i < |kids| && kids[i] == HashRef(k)
  {
  }

  ghost function Refs(h: Hash): set<Hash> {
    var n := DecodeNode(Some(h), PreImage(h), 0);
    if n.Err? then {} else HashesIn(SyncState.Kids(n.value)) - {ZeroHash}
  }

  lemma RefsProper()
    ensures Proper(Refs)
  {
    hide DecodeNode;
  }

  /** They are the hashes of the children that are stored on their own. */
  lemma RefsTree(t: Tree, k: Hash)
    requires Canon(t) && IsNode(t) && KnownTree(t)
    ensures k in Refs(TreeHash(t)) <==> RefTo(t, k)
  {
    hide Canon, KnownTree, DecodeNode, Blob, Big, Shallow;
    var h := TreeHash(t);
    KnownShape(t);
    DecodeNodeOf(t, Some(h), 0, []);
    assert Blob(t) + [] == Blob(t);
    assert PreImage(h) == Blob(t);
    var kids := SyncState.Kids(Shallow(t, Some(h), 0));
    KidsShape(t, Some(h));
    InHashes(kids, k);
    if t.Ext? {
      RefNode(t.child, k);
      assert kids[0] == ShallowRef(t.child, 0);
    } else {
      forall i | 0 <= i < 17 ensures kids[i] == HashRef(k) && k != ZeroHash <==> BigRef(t.children[i], k) {
        RefNode(t.children[i], k);
      }
    }
  }

  lemma KidsShape(t: Tree, hash: Option<Hash>)
    requires Canon(t) && IsNode(t)
    ensures var kids := SyncState.Kids(Shallow(t, hash, 0));
            && (t.Ext? ==> Canon(t.child) && kids == [ShallowRef(t.child, 0)])
            && (t.Branch? ==>
                  && |t.children| == |kids| == 17
                  && forall i | 0 <= i < 17 :: Canon(t.children[i]) && kids[i] == ShallowRef(t.children[i], 0))
  {
    hide Big, TreeHash;
  }

  lemma RefNode(c: Tree, k: Hash)
    requires Canon(c) && KnownTree(c)
    ensures ShallowRef(c, 0) == HashRef(k) && k != ZeroHash <==> BigRef(c, k)
  {
    hide Canon, KnownTree, Big, Blob;
    KnownShape(c);
  }

  // ----- the database as the tries see it

  ghost function View(ns: Cache, d: Data): (db: Store)
    ensures forall h: Hash :: h in db <==> (h in ns && h != ZeroHash) || h in d
    ensures forall h: Hash | h in db :: db[h] == if h in ns && h != ZeroHash then ns[h].blob else d[h]
  {
    map h: Hash | h in ns.Keys + d.Keys && ((h in ns && h != ZeroHash) || h in d) ::
      if h in ns && h != ZeroHash then ns[h].blob else d[h]
  }

  ghost predicate Named(h: Hash, blob: Bytes) {
    Keccak(blob) == h && Known(blob)
  }

  /** Cache and disk hold every node under its own hash. */
  ghost predicate HonestAll(ns: Cache, d: Data) {
    && (forall h | h in ns && h != ZeroHash :: Named(h, ns[h].blob))
    && (forall h: Hash | h in d :: Named(h, d[h]))
  }

  ghost predicate Ok(data: Database.Database)
    reads data, data.disk
  {
    data.Valid() && Kept(Refs, data.nodes, data.disk.data) && HonestAll(data.nodes, data.disk.data)
  }

  /** It holds of an empty cache over a disk that is closed under references and names its nodes. */
  method NewDatabase(disk: Disk, ghost rank: Hash -> nat) returns (data: Database.Database)
    requires DiskClosed(Refs, disk.data) && forall h: Hash | h in disk.data :: Named(h, disk.data[h])
    ensures fresh(data) && data.disk == disk && data.rank == rank && Ok(data)
  {
    hide DiskClosed, Refs, Named;
    data := new Database.Database(disk, rank);
    KeptStart(Refs, data.nodes, disk.data);
  }

  lemma ViewHonest(ns: Cache, d: Data)
    requires HonestAll(ns, d)
    ensures Honest(View(ns, d))
  {
    hide View;
  }

  /** Inserting what is there already changes nothing: both have the one blob of that hash. */
  lemma ViewAdded(ns: Cache, d: Data, h: Hash, blob: Bytes)
    requires HonestAll(ns, d) && h != ZeroHash && Named(h, blob)
    ensures HonestAll(Added(ns, h, blob), d) && View(Added(ns, h, blob), d) == Put(View(ns, d), h, blob)
  {
    hide View;
    var a, b := View(Added(ns, h, blob), d), Put(View(ns, d), h, blob);
    forall x: Hash ensures (x in a <==> x in b) && (x in a ==> a[x] == b[x]) {
      if x == h && h in d {
        assert Named(h, d[h]);
      }
    }
  }

  lemma ViewLinked(ns: Cache, d: Data, p: Hash, c: Hash)
    requires p in ns && c in ns && p != c && HonestAll(ns, d)
    ensures HonestAll(Linked(ns, p, c), d) && View(Linked(ns, p, c), d) == View(ns, d)
  {
    hide View, Named, Mult;
    var a, b := View(Linked(ns, p, c), d), View(ns, d);
    forall x: Hash ensures (x in a <==> x in b) && (x in a ==> a[x] == b[x]) {
    }
  }

  // ----- the steps

  /** The part of hasher.store that concerns the database: insert the node, then reference its children. */
  method StoreRecord(data: Database.Database, r: Record)
    requires Ok(data) && Acyclic(data.rank) && RecordOk(r) && Grounded(View(data.nodes, data.disk.data), r.refs)
    modifies data`nodes, data`nodesSize
    ensures Ok(data) && View(data.nodes, data.disk.data) == Put(old(View(data.nodes, data.disk.data)), r.hash, r.blob)
    ensures RootsStay(old(data.nodes), data.nodes)
  {
    hide Kept, KeptBut, HonestAll, View, RecordOk, Database.Database.Valid, Backs, Refs, Grounded, Put;
    RecordMeaning(r);
    ghost var d := data.disk.data;
    ViewAdded(data.nodes, d, r.hash, r.blob);
    AddedBacks(data, r.hash, r.blob);
    KeptAdded(Refs, data.nodes, d, r.hash, r.blob);
    ViewGrounded(data.nodes, d, r);
    data.Insert(r.hash, r.blob);
    StoreRefs(data, r, old(View(data.nodes, data.disk.data)));
  }

  ghost predicate Acyclic(rank: Hash -> nat) {
    forall h, k | k in Refs(h) :: rank(k) < rank(h)
  }

  lemma AddedBacks(data: Database.Database, h: Hash, blob: Bytes)
    requires data.Valid()
    ensures Backs(data.nodes, Added(data.nodes, h, blob))
  {
    hide Backs;
    AddedOk(data.nodes, data.rank, h, blob);
  }

  /** A record names its node, and its references are those in the data. */
  lemma RecordMeaning(r: Record)
    requires RecordOk(r)
    ensures Named(r.hash, r.blob) && r.hash != ZeroHash && forall k :: k in r.refs <==> k in Refs(r.hash)
  {
    hide Canon, KnownTree, Blob, Refs, RefTo;
    var t :| RecordOf(t, r);
    KnownShape(t);
    forall k ensures k in r.refs <==> k in Refs(r.hash) {
      RefsTree(t, k);
    }
  }

  lemma ViewGrounded(ns: Cache, d: Data, r: Record)
    requires Grounded(View(ns, d), r.refs)
    ensures forall k | k in r.refs :: k in Added(ns, r.hash, r.blob) || k in d
  {
    hide View;
  }

  /** The reference loop. */
  method StoreRefs(data: Database.Database, r: Record, ghost db: Store)
    requires data.Valid() && KeptBut(Refs, data.nodes, data.disk.data, Some(r.hash))
    requires HonestAll(data.nodes, data.disk.data) && View(data.nodes, data.disk.data) == Put(db, r.hash, r.blob)
    requires Acyclic(data.rank) && r.hash != ZeroHash && r.hash in data.nodes
    requires (forall k :: k in r.refs <==> k in Refs(r.hash))
    requires forall k | k in r.refs :: k in data.nodes || k in data.disk.data
    modifies data`nodes
    ensures Ok(data) && View(data.nodes, data.disk.data) == Put(db, r.hash, r.blob)
    ensures RootsStay(old(data.nodes), data.nodes)
  {
    hide KeptBut, HonestAll, View, Database.Database.Valid, Refs, Put, RefsHeld, EdgesStay, RootsStay, Acyclic;
    ghost var d := data.disk.data;
    RefsStart(data.nodes, d, r.hash);
    var i := 0;
    assert r.refs[..i] == [];
    while i < |r.refs|
      invariant 0 <= i <= |r.refs| && data.Valid() && KeptBut(Refs, data.nodes, d, Some(r.hash))
      invariant HonestAll(data.nodes, d) && View(data.nodes, d) == Put(db, r.hash, r.blob)
      invariant data.nodes.Keys == old(data.nodes).Keys
      invariant RefsHeld(data.nodes, d, r.hash, r.refs[..i]) && RootsStay(old(data.nodes), data.nodes)
    {
      ghost var ns := data.nodes;
      assert r.refs[i] in r.refs;
      StoreRef(data, r.hash, r.refs[i]);
      RefsHeldNext(ns, data.nodes, d, r.hash, r.refs, i);
      RootsTrans(old(data.nodes), ns, data.nodes);
      i := i + 1;
    }
    assert r.refs[..i] == r.refs;
    KeptDone(data.nodes, d, r.hash, r.refs);
  }

  /** One reference of a node to a child that is cached or on disk. */
  method StoreRef(data: Database.Database, hash: Hash, child: Hash)
    requires data.Valid() && hash in data.nodes && child in Refs(hash) && Acyclic(data.rank) && hash != ZeroHash
    requires child in data.nodes || child in data.disk.data
    requires KeptBut(Refs, data.nodes, data.disk.data, Some(hash)) && HonestAll(data.nodes, data.disk.data)
    modifies data`nodes
    ensures data.Valid() && KeptBut(Refs, data.nodes, data.disk.data, Some(hash))
    ensures HonestAll(data.nodes, data.disk.data)
    ensures View(data.nodes, data.disk.data) == old(View(data.nodes, data.disk.data))
    ensures data.nodes.Keys == old(data.nodes).Keys
    ensures Edge(data.nodes, hash, child) || child in data.disk.data
    ensures EdgesStay(old(data.nodes), data.nodes)
  {
    hide KeptBut, HonestAll, View, Backs, Refs, Graph, CacheSize;
    ghost var ns, d := data.nodes, data.disk.data;
    assert child != ZeroHash by { RefsProper(); }
    if child in ns {
      LinkKept(ns, d, data.rank, hash, child, Some(hash));
    }
    data.Reference(child, hash);
    if child in ns && child !in ns[hash].children {
      LinkedEdges(ns, hash, child);
    }
  }

  lemma LinkKept(ns: Cache, d: Data, rank: Hash -> nat, p: Hash, c: Hash, but: Option<Hash>)
    requires Graph(ns, rank) && p in ns && c in ns && c != ZeroHash && (p == ZeroHash || rank(c) < rank(p))
    requires KeptBut(Refs, ns, d, but) && HonestAll(ns, d)
    ensures p != c
    ensures p == ZeroHash || c !in ns[p].children ==>
              && KeptBut(Refs, Linked(ns, p, c), d, but) && HonestAll(Linked(ns, p, c), d)
              && View(Linked(ns, p, c), d) == View(ns, d)
  {
    hide KeptBut, HonestAll, View, Backs, Refs, Graph, CacheSize;
    if p == ZeroHash || c !in ns[p].children {
      LinkedOk(ns, rank, p, c);
      KeptLinked(Refs, ns, d, p, c, but);
      ViewLinked(ns, d, p, c);
    }
  }

  lemma LinkedEdges(ns: Cache, p: Hash, c: Hash)
    requires p in ns && c in ns && p != c
    ensures var ms := Linked(ns, p, c);
            ms.Keys == ns.Keys && Edge(ms, p, c) && EdgesStay(ns, ms)
  {
    hide Mult;
  }

  /** No reference is given up. */
  ghost predicate EdgesStay(ns: Cache, ms: Cache) {
    forall p, x | Edge(ns, p, x) :: Edge(ms, p, x)
  }

  /** No reference of the meta-root is given up. */
  ghost predicate RootsStay(ns: Cache, ms: Cache) {
    forall x | Edge(ns, ZeroHash, x) :: Edge(ms, ZeroHash, x)
  }

  lemma RefsStart(ns: Cache, d: Data, h: Hash)
    ensures RootsStay(ns, ns) && RefsHeld(ns, d, h, [])
  {
  }

  lemma RootsTrans(a: Cache, b: Cache, c: Cache)
    requires RootsStay(a, b) && (EdgesStay(b, c) || RootsStay(b, c))
    ensures RootsStay(a, c)
  {
  }

  ghost predicate RefsHeld(ns: Cache, d: Data, h: Hash, refs: seq<Hash>) {
    forall k | k in refs :: Edge(ns, h, k) || k in d
  }

  lemma RefsHeldNext(ns: Cache, ms: Cache, d: Data, h: Hash, refs: seq<Hash>, i: nat)
    requires i < |refs| && RefsHeld(ns, d, h, refs[..i]) && EdgesStay(ns, ms) && (Edge(ms, h, refs[i]) || refs[i] in d)
    ensures RefsHeld(ms, d, h, refs[..i + 1])
  {
    hide Edge;
    assert refs[..i + 1] == refs[..i] + [refs[i]];
  }

  lemma KeptDone(ns: Cache, d: Data, h: Hash, refs: seq<Hash>)
    requires KeptBut(Refs, ns, d, Some(h)) && h in ns
    requires (forall k :: k in refs <==> k in Refs(h)) && RefsHeld(ns, d, h, refs)
    ensures Kept(Refs, ns, d)
  {
    hide Backed, DiskClosed, Refs;
  }

  /** All the records of a storing pass. */
  method StoreAll(data: Database.Database, log: seq<Record>)
    requires Ok(data) && Acyclic(data.rank) && LogOk(View(data.nodes, data.disk.data), log)
    modifies data`nodes, data`nodesSize
    ensures Ok(data) && View(data.nodes, data.disk.data) == Replay(old(View(data.nodes, data.disk.data)), log)
    ensures RootsStay(old(data.nodes), data.nodes)
  {
    hide Ok, View, LogOk, Replay, Put, RecordOk, Grounded, RootsStay, Acyclic;
    ghost var db := View(data.nodes, data.disk.data);
    RefsStart(data.nodes, data.disk.data, ZeroHash);
    LogNone(db);
    var i := 0;
    assert log[..i] == [];
    while i < |log|
      invariant 0 <= i <= |log| && Ok(data) && View(data.nodes, data.disk.data) == Replay(db, log[..i])
      invariant RootsStay(old(data.nodes), data.nodes)
    {
      ghost var ns := data.nodes;
      LogNext(db, log, i);
      StoreRecord(data, log[i]);
      RootsTrans(old(data.nodes), ns, data.nodes);
      i := i + 1;
    }
    assert log[..i] == log;
  }

  lemma LogNext(db: Store, log: seq<Record>, i: nat)
    requires LogOk(db, log) && i < |log|
    ensures RecordOk(log[i]) && Grounded(Replay(db, log[..i]), log[i].refs)
    ensures Replay(db, log[..i + 1]) == Put(Replay(db, log[..i]), log[i].hash, log[i].blob)
  {
    hide RecordOk, Grounded, Put;
    assert log[..i + 1][..i] == log[..i];
  }

  // ----- any run of operations

  datatype Op =
    | Store(r: Record)
    | Reference(root: Hash)
    | ReferenceFrom(child: Hash, parent: Hash)
    | Dereference(root: Hash)
    | Commit(node: Hash)

  ghost predicate OpOk(op: Op, rank: Hash -> nat) {
    match op
    case Store(r) => RecordOk(r)
    case Reference(root) => root != ZeroHash
    case ReferenceFrom(child, parent) => child != ZeroHash && parent != ZeroHash && rank(child) < rank(parent)
    case Dereference(root) => true
    case Commit(node) => node != ZeroHash
  }

  /** The root is referenced by the meta-root, or already on disk. */
  ghost predicate Anchored(ns: Cache, d: Data, root: Hash) {
    root != ZeroHash && (Edge(ns, ZeroHash, root) || root in d)
  }

  /** What the database holds. */
  datatype Held = Held(nodes: Cache, disk: Data)

  ghost predicate AllThere(s: Held, refs: seq<Hash>) {
    forall k | k in refs :: k in s.nodes || k in s.disk
  }

  /** What an operation does. Insertions add exactly their node to what can be read. References change nothing that can
      be read. A dropped reference takes exactly what only it kept. A commit changes nothing that can be read, and a
      complete one moves all below its node to disk. */
  ghost predicate Moved(op: Op, s: Held, s': Held, rank: Hash -> nat) {
    match op
    case Store(r) =>
      if AllThere(s, r.refs) then
        && s'.disk == s.disk && RootsStay(s.nodes, s'.nodes)
        && View(s'.nodes, s'.disk) == Put(View(s.nodes, s.disk), r.hash, r.blob)
      else s' == s
    case Reference(x) =>
      && s'.disk == s.disk && View(s'.nodes, s'.disk) == View(s.nodes, s.disk)
      && (x in s.nodes ==> Edge(s'.nodes, ZeroHash, x))
    case ReferenceFrom(child, parent) =>
      if parent in s.nodes then
        && s'.disk == s.disk && View(s'.nodes, s'.disk) == View(s.nodes, s.disk)
        && (child in s.nodes ==> Edge(s'.nodes, parent, child))
      else s' == s
    case Dereference(x) =>
      if Edge(s.nodes, ZeroHash, x) then s'.disk == s.disk && Dropped(s.nodes, s'.nodes, ZeroHash, x, rank)
      else s' == s
    case Commit(node) =>
      && (forall h :: CommitOrder.Lookup(s'.nodes, s'.disk, h) == CommitOrder.Lookup(s.nodes, s.disk, h))
      && (s'.nodes == s.nodes ||
          (s'.nodes == s.nodes - Below(s.nodes, node) && forall h | h in Below(s.nodes, node) :: h in s'.disk))
  }

  ghost predicate IsPlay(run: seq<Held>, ops: seq<Op>, rank: Hash -> nat) {
    |run| == |ops| + 1 && forall i | 0 <= i < |ops| :: Moved(ops[i], run[i], run[i + 1], rank)
  }

  ghost function Now(data: Database.Database): Held
    reads data, data.disk
  {
    Held(data.nodes, data.disk.data)
  }

  /** One operation; a node is only stored after its children, a reference is only made from a node that is cached, as
      the leaf callback does, and only one that is there is dropped. */
  method Step(data: Database.Database, op: Op, ghost root: Hash)
    requires Ok(data) && Acyclic(data.rank) && OpOk(op, data.rank)
    modifies data, data.disk
    ensures Ok(data) && Moved(op, old(Now(data)), Now(data), data.rank)
    ensures old(Anchored(data.nodes, data.disk.data, root)) && op != Dereference(root) ==>
              Anchored(data.nodes, data.disk.data, root)
  {
    hide View, Put, Dropped, Below, CommitOrder.Lookup, Acyclic, RecordOk, KeptBut, HonestAll;
    match op
    case Store(r) =>
      if forall k | k in r.refs :: k in data.nodes || k in data.disk.data {
        StoreStep(data, r, root);
      }
    case Reference(x) =>
      ReferenceRoot(data, x);
    case ReferenceFrom(child, parent) =>
      if parent in data.nodes {
        ReferenceNode(data, child, parent);
      }
    case Dereference(x) =>
      if x in data.nodes[ZeroHash].children {
        DereferenceRoot(data, x, root);
      }
    case Commit(node) =>
      CommitStep(data, node, root);
  }

  method StoreStep(data: Database.Database, r: Record, ghost root: Hash)
    requires Ok(data) && Acyclic(data.rank) && RecordOk(r)
    requires forall k | k in r.refs :: k in data.nodes || k in data.disk.data
    modifies data`nodes, data`nodesSize
    ensures Ok(data) && RootsStay(old(data.nodes), data.nodes)
    ensures View(data.nodes, data.disk.data) == Put(old(View(data.nodes, data.disk.data)), r.hash, r.blob)
    ensures old(Anchored(data.nodes, data.disk.data, root)) ==> Anchored(data.nodes, data.disk.data, root)
  {
    hide Ok, View, RecordOk, Put, Acyclic, Refs;
    assert Grounded(View(data.nodes, data.disk.data), r.refs) by {
      RecordMeaning(r);
      RefsProper();
      InView(data.nodes, data.disk.data);
    }
    StoreRecord(data, r);
  }

  lemma InView(ns: Cache, d: Data)
    ensures forall h: Hash | h != ZeroHash && (h in ns || h in d) :: h in View(ns, d)
  {
  }

  /** A root is referenced by the meta-root, unless it is only on disk. */
  method ReferenceRoot(data: Database.Database, x: Hash)
    requires Ok(data) && x != ZeroHash
    modifies data`nodes
    ensures Ok(data) && RootsStay(old(data.nodes), data.nodes)
    ensures View(data.nodes, data.disk.data) == old(View(data.nodes, data.disk.data))
    ensures x in old(data.nodes) ==> Edge(data.nodes, ZeroHash, x)
  {
    hide KeptBut, HonestAll, View, Backs, Refs, Graph, CacheSize;
    ghost var ns, d := data.nodes, data.disk.data;
    ZeroThere(ns, data.rank);
    if x in ns {
      LinkKept(ns, d, data.rank, ZeroHash, x, None);
      LinkedEdges(ns, ZeroHash, x);
    }
    data.Reference(x, ZeroHash);
  }

  /** A cached node references another, which stays as long as that node does. */
  method ReferenceNode(data: Database.Database, child: Hash, parent: Hash)
    requires Ok(data) && parent in data.nodes && child != ZeroHash && parent != ZeroHash
    requires data.rank(child) < data.rank(parent)
    modifies data`nodes
    ensures Ok(data) && RootsStay(old(data.nodes), data.nodes)
    ensures View(data.nodes, data.disk.data) == old(View(data.nodes, data.disk.data))
    ensures child in old(data.nodes) ==> Edge(data.nodes, parent, child)
  {
    hide KeptBut, HonestAll, View, Backs, Refs, Graph, CacheSize;
    ghost var ns, d := data.nodes, data.disk.data;
    if child in ns {
      LinkKept(ns, d, data.rank, parent, child, None);
      LinkedEdges(ns, parent, child);
    }
    data.Reference(child, parent);
  }

  lemma ZeroThere(ns: Cache, rank: Hash -> nat)
    requires Graph(ns, rank)
    ensures ZeroHash in ns
  {
  }

  method DereferenceRoot(data: Database.Database, x: Hash, ghost root: Hash)
    requires Ok(data) && Edge(data.nodes, ZeroHash, x)
    modifies data`nodes, data`nodesSize
    ensures Ok(data) && Dropped(old(data.nodes), data.nodes, ZeroHash, x, data.rank)
    ensures old(Anchored(data.nodes, data.disk.data, root)) && x != root ==> Anchored(data.nodes, data.disk.data, root)
  {
    hide KeptBut, HonestAll, Refs, Graph, CacheSize, Exact, Dropped, Reachable;
    ghost var ns, d := data.nodes, data.disk.data;
    data.Dereference(x, ZeroHash);
    KeptDropped(Refs, ns, data.nodes, d, x, data.rank);
    DroppedShape(ns, data.nodes, d, x, data.rank);
  }

  lemma DroppedShape(ns: Cache, ms: Cache, d: Data, c: Hash, rank: Hash -> nat)
    requires Dropped(ns, ms, ZeroHash, c, rank) && ZeroHash in ns
    ensures HonestAll(ns, d) ==> HonestAll(ms, d)
    ensures forall x | x != c && Edge(ns, ZeroHash, x) :: Edge(ms, ZeroHash, x)
  {
    hide Graph, Backs, Exact, NoNewRoots, Named;
    CutShape(ns, ZeroHash, c);
  }

  method CommitStep(data: Database.Database, node: Hash, ghost root: Hash)
    requires Ok(data) && node != ZeroHash
    modifies data, data.disk
    ensures Ok(data) && Moved(Op.Commit(node), old(Now(data)), Now(data), data.rank)
    ensures old(Anchored(data.nodes, data.disk.data, root)) ==> Anchored(data.nodes, data.disk.data, root)
  {
    hide KeptBut, HonestAll, Refs, Graph, CacheSize, ChildrenFirst, PreimageWrites, Below, WrittenNodes, Apply, Edge;
    ghost var ns, d, ps := data.nodes, data.disk.data, data.preimages;
    NeverBelow(ns, data.rank, node);
    var ok, pre, ws, k := data.Commit(node);
    KeptWritten(Refs, ns, ps, d, pre, ws, k);
    WrittenHonest(ns, ps, d, pre, ws, k);
    ghost var d' := data.disk.data;
    if ok {
      KeptForgotten(Refs, ns, d', node);
      ForgottenShape(ns, d', Below(ns, node));
    }
    forall key | key in d ensures key in d' {
      ApplyKeeps(d, (pre + ws)[..k], key);
    }
  }

  lemma ForgottenShape(ns: Cache, d: Data, gone: set<Hash>)
    requires HonestAll(ns, d) && ZeroHash !in gone
    ensures HonestAll(ns - gone, d) && RootsStay(ns, ns - gone)
  {
    hide Named;
  }

  lemma WrittenHonest(ns: Cache, ps: map<Hash, Bytes>, d: Data, pre: seq<Write>, ws: seq<Write>, k: nat)
    requires HonestAll(ns, d) && PreimageWrites(ps, pre) && ChildrenFirst(ns, ws) && k <= |pre + ws|
    requires ZeroHash !in WrittenNodes(ns, ws)
    ensures HonestAll(ns, Apply(d, (pre + ws)[..k]))
  {
    hide Named, PreimageWrite, Apply;
    var some := (pre + ws)[..k];
    forall h: Hash | h in Apply(d, some) ensures Named(h, Apply(d, some)[h]) {
      ValuesAgree(ns, ps, pre, ws, h);
      assert forall i | 0 <= i < |some| :: some[i] == (pre + ws)[i];
      if Written(some, h) {
        ApplySame(d, some, h, ns[h].blob);
        NotMeta(ns, ps, pre, ws, k, h);
      } else {
        ApplyOther(d, some, h);
      }
    }
  }

  lemma NotMeta(ns: Cache, ps: map<Hash, Bytes>, pre: seq<Write>, ws: seq<Write>, k: nat, h: Hash)
    requires PreimageWrites(ps, pre) && k <= |pre + ws| && ZeroHash !in WrittenNodes(ns, ws) && h in ns
    requires Written((pre + ws)[..k], h)
    ensures h != ZeroHash
  {
    hide PreimageWrite;
    var all := pre + ws;
    var i :| 0 <= i < |all| && all[i].key == h;
    if i < |pre| {
      assert all[i] == pre[i];
      KeyOfPreimage(ps, pre[i]);
    } else {
      assert ws[i - |pre|].key == h;
    }
  }

  /** Any run of operations. */
  method Play(data: Database.Database, ops: seq<Op>, ghost root: Hash) returns (ghost run: seq<Held>)
    requires Ok(data) && Acyclic(data.rank) && forall i | 0 <= i < |ops| :: OpOk(ops[i], data.rank)
    modifies data, data.disk
    ensures Ok(data) && IsPlay(run, ops, data.rank) && run[0] == old(Now(data)) && run[|ops|] == Now(data)
    ensures old(Anchored(data.nodes, data.disk.data, root)) && Dereference(root) !in ops ==>
              Anchored(data.nodes, data.disk.data, root)
  {
    hide Ok, Acyclic, OpOk, Anchored, Moved;
    run := [Now(data)];
    var i := 0;
    while i < |ops|
      invariant 0 <= i <= |ops| && Ok(data)
      invariant |run| == i + 1 && run[0] == old(Now(data)) && run[i] == Now(data)
      invariant forall j | 0 <= j < i :: Moved(ops[j], run[j], run[j + 1], data.rank)
      invariant old(Anchored(data.nodes, data.disk.data, root)) && Dereference(root) !in ops ==>
                  Anchored(data.nodes, data.disk.data, root)
    {
      Step(data, ops[i], root);
      run := run + [Now(data)];
      i := i + 1;
    }
  }

  // ----- the trie under an anchored root

  /** Every node of a trie whose root can be read can be read. */
  lemma {:induction false} TreeKept(ns: Cache, d: Data, t: Tree)
    requires Kept(Refs, ns, d) && HonestAll(ns, d) && Canon(t) && IsNode(t) && KnownTree(t)
    requires TreeHash(t) in View(ns, d)
    ensures Stored(t, View(ns, d), true)
    decreases t, 0
  {
    hide KeptBut, Canon, KnownTree, Blob, Big, View, Refs, HonestAll;
    KnownShape(t);
    ViewHonest(ns, d);
    assert View(ns, d)[TreeHash(t)] == Blob(t);
    if t.Ext? {
      CanonExt(t);
      PartKept(ns, d, t, t.child, 0);
    } else {
      CanonBranch(t);
      forall i | 0 <= i < 17 ensures Stored(t.children[i], View(ns, d), false) {
        PartKept(ns, d, t, t.children[i], i);
      }
    }
  }

  lemma {:induction false} PartKept(ns: Cache, d: Data, t: Tree, c: Tree, i: nat)
    requires Kept(Refs, ns, d) && HonestAll(ns, d) && Canon(t) && IsNode(t) && KnownTree(t)
    requires TreeHash(t) in View(ns, d) && Canon(c) && KnownTree(c)
    requires (t.Ext? && c == t.child) || (t.Branch? && i < |t.children| && c == t.children[i])
    ensures Stored(c, View(ns, d), false)
    decreases c, 1
  {
    hide KeptBut, Canon, KnownTree, Blob, Big, View, Refs, HonestAll, TreeHash;
    if IsNode(c) && Big(c) {
      var h, k := TreeHash(t), TreeHash(c);
      assert BigRef(c, k);
      RefsTree(t, k);
      KnownHash(t);
      KnownHash(c);
      ChildKept(Refs, ns, d, h, k);
      TreeKept(ns, d, c);
      StoredTop(c, View(ns, d));
    } else {
      SyncState.StoredSmall(c, View(ns, d));
    }
  }

  lemma KnownHash(t: Tree)
    requires Canon(t) && IsNode(t) && KnownTree(t)
    ensures TreeHash(t) != ZeroHash
  {
    hide Canon, KnownTree, Blob;
    KnownShape(t);
  }

  lemma StoredTop(t: Tree, db: Represent.Store)
    requires Canon(t) && Stored(t, db, true)
    ensures Stored(t, db, false)
  {
    hide Big, Blob, TreeHash;
  }

  /** What is stored in full is complete for every partly loaded form of it. */
  lemma {:induction false} StoredAvail(n: Node, t: Tree, db: Represent.Store, root: bool)
    requires Canon(t) && Rep(n, t, root) && Stored(t, db, root)
    ensures Avail(n, t, db)
    decreases n
  {
    hide Big, Blob, TreeHash;
    if n.Short? {
      StoredAvail(n.val, t.child, db, false);
    } else if n.Full? {
      forall i | 0 <= i < 17 ensures Avail(n.children[i], t.children[i], db) {
        StoredAvail(n.children[i], t.children[i], db, false);
      }
    }
  }

  /** A trie is committed into the database and its root referenced. After any run of operations that does not
      dereference this root, whatever other roots it drops, the trie can still be loaded completely. */
  method CommitAndKeep(trie: Trie, data: Database.Database, ops: seq<Op>) returns (h: Hash, ghost run: seq<Held>)
    requires trie.Valid() && KnownTree(trie.tree) && Known(Encode(Str([])))
    requires trie.Complete() && trie.db == View(data.nodes, data.disk.data)
    requires Ok(data) && Acyclic(data.rank) && forall i | 0 <= i < |ops| :: OpOk(ops[i], data.rank)
    requires Dereference(RootHash(trie.tree)) !in ops
    modifies trie`root, trie`db, trie`cachegen, data, data.disk
    ensures trie.Valid() && Ok(data) && h == RootHash(trie.tree) && RootOf(h, trie.contents)
    ensures IsPlay(run, ops, data.rank) && run[|ops|] == Now(data)
    ensures Stored(trie.tree, View(data.nodes, data.disk.data), true)
    ensures Avail(trie.root, trie.tree, View(data.nodes, data.disk.data))
  {
    hide Ok, View, Acyclic, OpOk, KnownTree, Holds, Rep, Avail, Honest, Stored, RootOf, Canon, Anchored, Refs, Replay;
    hide Moved;
    HoldsCanon(trie.tree, trie.contents);
    var log;
    h, log := trie.Commit();
    StoreAll(data, log);
    KeptRoot(trie.tree);
    ghost var before := data.nodes;
    ReferenceRoot(data, h);
    RootAnchored(before, data.nodes, data.disk.data, trie.tree);
    run := Play(data, ops, h);
    StillStored(data, trie.tree);
    StoredAvail(trie.root, trie.tree, View(data.nodes, data.disk.data), true);
  }

  lemma KeptRoot(t: Tree)
    requires Canon(t) && !t.Leaf? && KnownTree(t) && Known(Encode(Str([])))
    ensures RootHash(t) != ZeroHash
  {
    hide Canon, KnownTree;
    if IsNode(t) {
      KnownHash(t);
    }
  }

  lemma RootAnchored(ns: Cache, ms: Cache, d: Data, t: Tree)
    requires Canon(t) && !t.Leaf? && RootHash(t) != ZeroHash && Stored(t, View(ns, d), true)
    requires RootHash(t) in ns ==> Edge(ms, ZeroHash, RootHash(t))
    ensures IsNode(t) ==> Anchored(ms, d, RootHash(t))
  {
    hide View, Canon, Blob, TreeHash;
  }

  lemma StillStored(data: Database.Database, t: Tree)
    requires Ok(data) && Canon(t) && !t.Leaf? && KnownTree(t)
    requires IsNode(t) ==> Anchored(data.nodes, data.disk.data, RootHash(t))
    ensures Stored(t, View(data.nodes, data.disk.data), true)
  {
    hide View, Canon, Blob, TreeHash, KnownTree, RefSum, DiskClosed, KidsHeld, HonestAll, Refs;
    if IsNode(t) {
      TreeKept(data.nodes, data.disk.data, t);
    }
  }
}
