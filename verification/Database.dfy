/** The in-memory node database in front of the disk (trie/database.go). */
module Database {
  import opened Common
  import opened RefGraph
  import opened Batches
  import opened CommitOrder

  /** The batch size from which on data is flushed. */
  const IDEAL_BATCH_SIZE := 100 * 1024

  class Database {
    const disk: Disk
    var nodes: Nodes
    var preimages: map<Hash, Bytes>
    var nodesSize: int
    ghost const rank: Hash -> nat

    ghost predicate Valid()
      reads this
    {
      Graph(nodes, rank) && nodesSize == CacheSize(nodes)
    }

    /** The empty cache: only the meta-root, whose hash is zero. */
    constructor (disk: Disk, ghost rank: Hash -> nat)
      ensures Valid() && Exact(nodes) && this.rank == rank && this.disk == disk
      ensures nodes == map[ZeroHash := CachedNode([], 0, map[])] && preimages == map[]
    {
      this.disk, this.rank := disk, rank;
      nodes, preimages, nodesSize := map[ZeroHash := CachedNode([], 0, map[])], map[], 0;
      new;
      Start(nodes, rank);
    }

    /** Adds a node that is not cached yet. */
    method Insert(hash: Hash, blob: Bytes)
      requires Valid()
      modifies this`nodes, this`nodesSize
      ensures Valid() && nodes == Added(old(nodes), hash, blob)
      ensures Exact(old(nodes)) ==> Exact(nodes)
    {
      hide CacheSize, Graph, Exact, Backs;
      AddedOk(nodes, rank, hash, blob);
      BacksExact(nodes, Added(nodes, hash, blob));
      if hash in nodes {
        return;
      }
      nodes := nodes[hash := CachedNode(blob, 0, map[])];
      nodesSize := nodesSize + 32 + |blob|;
    }

    /** Adds a reference; only the meta-root counts duplicates, and a child that is not cached is on disk. */
    method Reference(child: Hash, parent: Hash)
      requires Valid() && child != ZeroHash && (child in nodes ==> parent in nodes)
      requires parent != ZeroHash ==> rank(child) < rank(parent)
      modifies this`nodes
      ensures Valid() && (Exact(old(nodes)) ==> Exact(nodes))
      ensures child in old(nodes) && (parent == ZeroHash || child !in old(nodes)[parent].children) ==>
                child != parent && nodes == Linked(old(nodes), parent, child)
      ensures child !in old(nodes) || (parent != ZeroHash && child in old(nodes)[parent].children) ==>
                nodes == old(nodes)
    {
      hide CacheSize, Graph, Exact, Backs;
      if child !in nodes {
        return;
      }
      if child in nodes[parent].children && parent != ZeroHash {
        return;
      }
      LinkedOk(nodes, rank, parent, child);
      BacksExact(nodes, Linked(nodes, parent, child));
      nodes := nodes[child := nodes[child].(parents := nodes[child].parents + 1)];
      var n := nodes[parent];
      var count := if child in n.children then n.children[child] else 0;
      nodes := nodes[parent := n.(children := n.children[child := count + 1])];
    }

    /** Drops a reference and collects what only it kept alive. */
    method Dereference(child: Hash, parent: Hash)
      requires Valid() && Edge(nodes, parent, child)
      modifies this`nodes, this`nodesSize
      ensures Valid() && Dropped(old(nodes), nodes, parent, child, rank)
      ensures Exact(old(nodes)) ==>
                && Exact(nodes)
                && forall h :: h in nodes <==> Reachable(Cut(old(nodes), parent, child), Roots(old(nodes)), h)
    {
      hide CacheSize, Graph, Exact, Backs, Shrunk, NoNewRoots, Reachable, Roots;
      Drop(child, parent);
      if Exact(old(nodes)) {
        CollectedExactly(old(nodes), nodes, parent, child, rank);
        BacksExact(old(nodes), nodes);
      }
    }

    method Drop(child: Hash, parent: Hash)
      requires Valid() && Edge(nodes, parent, child)
      modifies this`nodes, this`nodesSize
      ensures Valid() && Dropped(old(nodes), nodes, parent, child, rank)
      decreases rank(child), 1
    {
      hide CacheSize, Graph, Exact, Dropped, Peeled;
      EdgeOk(nodes, rank, parent, child);
      CutOk(nodes, rank, parent, child);
      ghost var ns := nodes;
      var node := nodes[parent];
      var count := node.children[child] - 1;
      node := node.(children := if count == 0 then node.children - {child} else node.children[child := count]);
      nodes := nodes[parent := node];
      if child !in nodes {
        DropKeeps(ns, parent, child, rank);
        return;
      }
      nodes := nodes[child := nodes[child].(parents := nodes[child].parents - 1)];
      if nodes[child].parents != 0 {
        DropKeeps(ns, parent, child, rank);
        return;
      }
      Cascade(child);
      PeelShape(Cut(ns, parent, child), nodes, child, rank);
      DropDone(ns, nodes, parent, child, rank);
      SizeDrop(nodes, child);
      nodesSize := nodesSize - (32 + |nodes[child].blob|);
      nodes := nodes - {child};
      DroppedGraph(ns, nodes, parent, child, rank);
    }

    /** Drops all references of an unreferenced node, in any order. */
    method Cascade(child: Hash)
      requires Valid() && child in nodes && child != ZeroHash
      modifies this`nodes, this`nodesSize
      ensures Valid() && Peeled(old(nodes), nodes, child, rank) && child in nodes && nodes[child].children == map[]
      decreases rank(child), 0
    {
      hide CacheSize, Graph, Exact, Dropped, Peeled;
      PeelNone(nodes, child, rank);
      while nodes[child].children != map[]
        invariant Valid() && child in nodes && Peeled(old(nodes), nodes, child, rank)
        decreases |nodes[child].children|
      {
        var hash :| hash in nodes[child].children;
        EdgeOk(nodes, rank, child, hash);
        ghost var ms := nodes;
        Drop(hash, child);
        PeelStep(old(nodes), ms, nodes, child, hash, rank);
        FewerChildren(ms[child].children, hash);
      }
    }

    /** A node from the cache or, failing that, from disk. */
    method Node(hash: Hash) returns (blob: Option<Bytes>)
      ensures blob == Lookup(nodes, disk.data, hash)
    {
      if hash in nodes {
        return Some(nodes[hash].blob);
      }
      return if hash in disk.data then Some(disk.data[hash]) else None;
    }

    method InsertPreimage(hash: Hash, preimage: Bytes)
      modifies this`preimages
      ensures preimages == if hash in old(preimages) then old(preimages) else old(preimages)[hash := preimage]
    {
      if hash !in preimages {
        preimages := preimages[hash := preimage];
      }
    }

    /** Writes node and everything cached below it, and all preimages, to disk and then forgets them.
        Whatever happens on the way, no lookup changes. */
    method Commit(node: Hash) returns (ok: bool, ghost pre: seq<Write>, ghost ws: seq<Write>, ghost k: nat)
      requires Valid() && node != ZeroHash
      modifies this, disk
      ensures Valid() && (ok <==> disk.failures == old(disk.failures))
      ensures PreimageWrites(old(preimages), pre) && ChildrenFirst(old(nodes), ws)
      ensures WrittenNodes(old(nodes), ws) <= Below(old(nodes), node)
      ensures k <= |pre + ws| && disk.data == Apply(old(disk.data), (pre + ws)[..k])
      ensures forall h :: Lookup(nodes, disk.data, h) == old(Lookup(nodes, disk.data, h))
      ensures forall h :: LookupPreimage(preimages, disk.data, h) == old(LookupPreimage(preimages, disk.data, h))
      ensures ok ==> preimages == map[] && nodes == old(nodes) - Below(old(nodes), node)
      ensures ok ==> forall h | h in Below(old(nodes), node) :: h in disk.data && disk.data[h] == old(nodes)[h].blob
      ensures !ok ==> nodes == old(nodes) && preimages == old(preimages)
    {
      hide Graph, CacheSize, ChildrenFirst, PreimageWrites, Below, Apply, Written, WrittenNodes, Lookup, Purged;
      hide LookupPreimage;
      ghost var d := disk.data;
      var batch := new Batch(disk);
      FirstNone(nodes);
      ws := [];
      ok, pre := CommitPreimages(batch);
      assert pre + [] == pre;
      if ok {
        ok, ws := CommitNode(node, batch);
        if ok {
          ok := batch.Flush();
        }
      }
      k := batch.done;
      KeptAll(nodes, preimages, d, pre, ws, k);
      if ok {
        assert (pre + ws)[..k] == pre + ws;
        BelowWritten(nodes, ws, node);
        ForgottenAll(nodes, preimages, d, pre, ws, Below(nodes, node));
        preimages := map[];
        Uncache(node);
        PurgedExactly(old(nodes), nodes, node, rank);
      }
    }

    lemma NothingSummed(batch: Batch)
      requires batch.Ready() && batch.all == []
      ensures batch.size == 0
    {
    }

    /** The first loop of Commit, over the preimages in any order. */
    method CommitPreimages(batch: Batch) returns (ok: bool, ghost pre: seq<Write>)
      requires batch.Ready() && batch.disk == disk && batch.all == []
      modifies batch, disk
      ensures batch.all == pre && PreimageWrites(preimages, pre)
      ensures (ok <==> disk.failures == old(disk.failures)) && (ok ==> batch.size <= IDEAL_BATCH_SIZE)
      ensures batch.Valid() && (ok ==> batch.Ready() && forall g | g in preimages :: Written(pre, SecureKey(g)))
    {
      NothingSummed(batch);
      hide Written, Apply, ValueSum, SecureKey;
      var todo := preimages.Keys;
      pre := [];
      while todo != {}
        invariant batch.Ready() && todo <= preimages.Keys && batch.all == pre && PreimageWrites(preimages, pre)
        invariant forall g | g in preimages && g !in todo :: Written(pre, SecureKey(g))
        invariant disk.failures == old(disk.failures) && batch.size <= IDEAL_BATCH_SIZE
        decreases |todo|
      {
        var hash :| hash in todo;
        todo := todo - {hash};
        ok := batch.Put(SecureKey(hash), preimages[hash]);
        if !ok {
          return;
        }
        PreimageSnoc(preimages, pre, hash);
        pre := pre + [Write(SecureKey(hash), preimages[hash])];
        if batch.size > IDEAL_BATCH_SIZE {
          ok := batch.FlushFull(IDEAL_BATCH_SIZE + 1);
          if !ok {
            return;
          }
        }
      }
      ok := true;
    }

    /** Puts the cached nodes below hash into the batch, children first, and flushes full batches. */
    method CommitNode(hash: Hash, batch: Batch) returns (ok: bool, ghost ws: seq<Write>)
      requires Graph(nodes, rank) && hash != ZeroHash && batch.Ready() && batch.disk == disk
      requires batch.size <= IDEAL_BATCH_SIZE
      modifies batch, disk
      ensures batch.Valid() && (ok ==> batch.Ready())
      ensures (ok <==> disk.failures == old(disk.failures)) && (ok ==> batch.size <= IDEAL_BATCH_SIZE)
      ensures ok && hash in nodes ==> batch.size < IDEAL_BATCH_SIZE
      ensures batch.all == old(batch.all) + ws && ChildrenFirst(nodes, ws)
      ensures WrittenNodes(nodes, ws) <= Below(nodes, hash)
      ensures ok && hash in nodes ==> Written(ws, hash)
      decreases rank(hash), 1
    {
      hide Graph, ChildrenFirst, Below, Apply, Written, WrittenNodes, ValueSum, Batch.Valid;
      FirstNone(nodes);
      ws := [];
      if hash !in nodes {
        return true, [];
      }
      ok, ws := CommitChildren(hash, batch);
      if !ok {
        return;
      }
      ok := batch.Put(hash, nodes[hash].blob);
      if !ok {
        return;
      }
      FirstSnoc(nodes, ws, hash);
      WrittenNodesConcat(nodes, ws, [Write(hash, nodes[hash].blob)]);
      WrittenOne(nodes, hash, nodes[hash].blob);
      BelowTop(nodes, hash);
      ws := ws + [Write(hash, nodes[hash].blob)];
      if batch.size >= IDEAL_BATCH_SIZE {
        ok := batch.FlushFull(IDEAL_BATCH_SIZE);
      }
    }

    /** The children of a node, in any order. */
    method CommitChildren(hash: Hash, batch: Batch) returns (ok: bool, ghost ws: seq<Write>)
      requires Graph(nodes, rank) && hash in nodes && hash != ZeroHash && batch.Ready() && batch.disk == disk
      requires batch.size <= IDEAL_BATCH_SIZE
      modifies batch, disk
      ensures batch.Valid() && (ok ==> batch.Ready())
      ensures (ok <==> disk.failures == old(disk.failures)) && (ok ==> batch.size <= IDEAL_BATCH_SIZE)
      ensures batch.all == old(batch.all) + ws && ChildrenFirst(nodes, ws)
      ensures WrittenNodes(nodes, ws) <= Below(nodes, hash)
      ensures ok ==> forall c: Hash | Edge(nodes, hash, c) && c in nodes :: Written(ws, c)
      decreases rank(hash), 0
    {
      hide Graph, ChildrenFirst, Below, Apply, Written, WrittenNodes, ValueSum, Batch.Valid;
      FirstNone(nodes);
      ws := [];
      var todo := nodes[hash].children.Keys;
      while todo != {}
        invariant batch.Ready() && todo <= nodes[hash].children.Keys
        invariant disk.failures == old(disk.failures) && batch.size <= IDEAL_BATCH_SIZE
        invariant batch.all == old(batch.all) + ws && ChildrenFirst(nodes, ws)
        invariant WrittenNodes(nodes, ws) <= Below(nodes, hash)
        invariant forall c: Hash | Edge(nodes, hash, c) && c in nodes && c !in todo :: Written(ws, c)
        decreases |todo|
      {
        var child :| child in todo;
        EdgeOk(nodes, rank, hash, child);
        todo := todo - {child};
        ghost var more;
        ok, more := CommitNode(child, batch);
        CommitMore(nodes, hash, child, ws, more);
        ws := ws + more;
        if !ok {
          return;
        }
      }
      ok := true;
    }

    /** Forgets hash and everything cached below it. */
    method Uncache(hash: Hash)
      requires Valid() && hash != ZeroHash
      modifies this`nodes, this`nodesSize
      ensures Valid() && Purged(old(nodes), nodes, hash, rank)
      decreases rank(hash)
    {
      hide Graph, CacheSize, Purged, Purging, Part;
      PurgeNone(nodes, hash, rank);
      if hash !in nodes {
        return;
      }
      var children := nodes[hash].children;
      var todo := children.Keys;
      while todo != {}
        invariant Valid() && todo <= children.Keys && Purging(old(nodes), nodes, hash, todo, rank)
        decreases |todo|
      {
        var child :| child in todo;
        EdgeOk(old(nodes), rank, hash, child);
        ghost var ms := nodes;
        Uncache(child);
        PurgeStep(old(nodes), ms, nodes, hash, todo, child, rank);
        todo := todo - {child};
      }
      PurgeDone(old(nodes), nodes, hash, rank);
      PurgingShape(old(nodes), nodes, hash, rank);
      SizeDrop(nodes, hash);
      nodesSize := nodesSize - (32 + |nodes[hash].blob|);
      nodes := nodes - {hash};
      PurgedGraph(old(nodes), nodes, hash, rank);
    }
  }

  lemma Start(ns: Nodes, rank: Hash -> nat)
    requires ns == map[ZeroHash := CachedNode([], 0, map[])]
    ensures Graph(ns, rank) && Exact(ns) && CacheSize(ns) == 0
  {
    assert ns.Keys - {ZeroHash} == {};
    assert RefSum(ns, ns.Keys, ZeroHash) == 0 by {
      RefSumPick(ns, ns.Keys, ZeroHash, ZeroHash);
      assert ns.Keys - {ZeroHash} == {};
    }
  }

  lemma FewerChildren(m: map<Hash, nat>, h: Hash)
    requires h in m
    ensures |m - {h}| < |m|
  {
    assert (m - {h}).Keys == m.Keys - {h};
  }

  lemma PeelShape(ns: Nodes, ms: Nodes, c: Hash, rank: Hash -> nat)
    requires Peeled(ns, ms, c, rank)
    ensures Graph(ms, rank) && c in ms && c in ns && ms[c].blob == ns[c].blob
  {
  }

  lemma DroppedGraph(ns: Nodes, ms: Nodes, p: Hash, c: Hash, rank: Hash -> nat)
    requires Dropped(ns, ms, p, c, rank)
    ensures Graph(ms, rank)
  {
  }

  lemma CommitMore(ns: Nodes, h: Hash, c: Hash, ws: seq<Write>, more: seq<Write>)
    requires Edge(ns, h, c) && ChildrenFirst(ns, ws) && ChildrenFirst(ns, more)
    requires WrittenNodes(ns, ws) <= Below(ns, h) && WrittenNodes(ns, more) <= Below(ns, c)
    ensures ChildrenFirst(ns, ws + more) && WrittenNodes(ns, ws + more) <= Below(ns, h)
    ensures forall x: Hash | x in ns && (Written(ws, x) || Written(more, x)) :: Written(ws + more, x)
  {
    hide *;
    assert h in ns by { EdgeIn(ns, h, c); }
    BelowChild(ns, h, c);
    FirstConcat(ns, ws, more);
    WrittenNodesConcat(ns, ws, more);
    WrittenMore(ns, ws, more);
  }

  lemma EdgeIn(ns: Nodes, p: Hash, c: Hash)
    requires Edge(ns, p, c)
    ensures p in ns
  {
  }

  lemma WrittenMore(ns: Nodes, ws: seq<Write>, more: seq<Write>)
    ensures forall c: Hash | c in ns && (Written(ws, c) || Written(more, c)) :: Written(ws + more, c)
  {
    hide Written;
    forall c: Hash | c in ns && (Written(ws, c) || Written(more, c)) ensures Written(ws + more, c) {
      WrittenConcat(ws, more, c);
    }
  }

  lemma PurgingShape(ns: Nodes, ms: Nodes, h: Hash, rank: Hash -> nat)
    requires Purging(ns, ms, h, {}, rank)
    ensures h in ms
  {
  }

  lemma PurgedGraph(ns: Nodes, ms: Nodes, h: Hash, rank: Hash -> nat)
    requires Graph(ns, rank) && Purged(ns, ms, h, rank)
    ensures Graph(ms, rank)
  {
    PartGraph(ms, ns, rank);
  }

  lemma KeptAll(ns: Nodes, ps: map<Hash, Bytes>, d: Data, pre: seq<Write>, ws: seq<Write>, k: nat)
    requires PreimageWrites(ps, pre) && ChildrenFirst(ns, ws) && k <= |pre + ws|
    ensures var d' := Apply(d, (pre + ws)[..k]);
            && (forall h :: Lookup(ns, d', h) == Lookup(ns, d, h))
            && (forall h :: LookupPreimage(ps, d', h) == LookupPreimage(ps, d, h))
  {
    hide Lookup, LookupPreimage, Apply, PreimageWrites, ChildrenFirst;
    forall h ensures var d' := Apply(d, (pre + ws)[..k]);
                     Lookup(ns, d', h) == Lookup(ns, d, h) && LookupPreimage(ps, d', h) == LookupPreimage(ps, d, h) {
      PrefixKeeps(ns, ps, d, pre, ws, k, h);
    }
  }

  lemma ForgottenAll(ns: Nodes, ps: map<Hash, Bytes>, d: Data, pre: seq<Write>, ws: seq<Write>, gone: set<Hash>)
    requires PreimageWrites(ps, pre) && ChildrenFirst(ns, ws) && gone <= WrittenNodes(ns, ws)
    requires forall g | g in ps :: Written(pre, SecureKey(g))
    ensures var d' := Apply(d, pre + ws);
            && (forall h :: Lookup(ns - gone, d', h) == Lookup(ns, d, h))
            && (forall h :: LookupPreimage(map[], d', h) == LookupPreimage(ps, d, h))
            && (forall h | h in gone :: h in ns && h in d' && d'[h] == ns[h].blob)
  {
    hide Lookup, LookupPreimage, Apply, PreimageWrites, ChildrenFirst, Written, SecureKey;
    var d' := Apply(d, pre + ws);
    forall h
      ensures Lookup(ns - gone, d', h) == Lookup(ns, d, h)
      ensures LookupPreimage(map[], d', h) == LookupPreimage(ps, d, h)
      ensures h in gone ==> h in ns && h in d' && d'[h] == ns[h].blob
    {
      ForgetKeeps(ns, ps, d, pre, ws, gone, h);
    }
  }
}
