/** What Commit writes and what it may forget afterwards (trie/database.go). */
module CommitOrder {
  import opened Common
  import opened RefGraph
  import opened Batches

  const SECURE_KEY_PREFIX: Bytes := [0x73, 0x65, 0x63, 0x75, 0x72, 0x65, 0x2D, 0x6B, 0x65, 0x79, 0x2D]

  function SecureKey(hash: Hash): Bytes {
    SECURE_KEY_PREFIX + hash
  }

  lemma SecureKeyInjective(a: Hash, b: Hash)
    requires SecureKey(a) == SecureKey(b)
    ensures a == b
  {
    assert SecureKey(a)[11..] == a && SecureKey(b)[11..] == b;
  }

  /** Where a node is read: the cache first, then the disk. */
  function Lookup(ns: Nodes, d: Data, h: Hash): Option<Bytes> {
    if h in ns then Some(ns[h].blob) else if h in d then Some(d[h]) else None
  }

  function LookupPreimage(ps: map<Hash, Bytes>, d: Data, h: Hash): Option<Bytes> {
    if h in ps then Some(ps[h]) else if SecureKey(h) in d then Some(d[SecureKey(h)]) else None
  }

  /** The cached nodes at and below h. */
  ghost function Below(ns: Nodes, h: Hash): set<Hash> {
    set x | x in ns && Reachable(ns, {h}, x)
  }

  lemma BelowTop(ns: Nodes, h: Hash)
    requires h in ns
    ensures h in Below(ns, h)
  {
    assert ReachIn(ns, {h}, h, 0);
  }

  lemma BelowStep(ns: Nodes, h: Hash, p: Hash, c: Hash)
    requires p in Below(ns, h) && Edge(ns, p, c) && c in ns
    ensures c in Below(ns, h)
  {
    ReachStep(ns, {h}, p, c);
  }

  /** A set with the cached children of its members that holds h holds everything below h. */
  lemma BelowLeast(ns: Nodes, h: Hash, s: set<Hash>)
    requires h in ns ==> h in s
    requires forall p, c | p in s && Edge(ns, p, c) && c in ns :: c in s
    ensures Below(ns, h) <= s
  {
    forall x | x in Below(ns, h) ensures x in s {
      var k: nat :| ReachIn(ns, {h}, x, k);
      ReachClosed(ns, {h}, s, x, k);
    }
  }

  lemma BelowChild(ns: Nodes, h: Hash, c: Hash)
    requires h in ns && Edge(ns, h, c)
    ensures Below(ns, c) <= Below(ns, h)
  {
    hide Below;
    BelowTop(ns, h);
    forall p, x | p in Below(ns, h) && Edge(ns, p, x) && x in ns ensures x in Below(ns, h) {
      BelowStep(ns, h, p, x);
    }
    BelowLeast(ns, c, Below(ns, h));
  }

  /** The meta-root is nobody's child. */
  lemma NeverBelow(ns: Nodes, rank: Hash -> nat, h: Hash)
    requires Graph(ns, rank) && h != ZeroHash
    ensures ZeroHash !in Below(ns, h)
  {
  }

  /** ms is a part of ns. */
  ghost predicate Part(ms: Nodes, ns: Nodes) {
    forall h | h in ms :: h in ns && ms[h] == ns[h]
  }

  lemma BelowPart(ms: Nodes, ns: Nodes, h: Hash)
    requires Part(ms, ns)
    ensures Below(ms, h) <= Below(ns, h)
  {
    hide Below;
    if h in ms {
      BelowTop(ns, h);
    }
    var s := Below(ns, h);
    forall p, c | p in s && Edge(ms, p, c) && c in ms ensures c in s {
      assert Edge(ns, p, c);
      BelowStep(ns, h, p, c);
    }
    BelowLeast(ms, h, s);
  }

  // ----- what is written

  ghost predicate NodeWrite(ns: Nodes, w: Write) {
    |w.key| == 32 && w.key in ns && w.value == ns[w.key].blob
  }

  ghost predicate ChildOf(ns: Nodes, w: Write, c: Hash) {
    NodeWrite(ns, w) && Edge(ns, w.key, c) && c in ns
  }

  /** Only cached nodes are written, each after all its cached children. */
  ghost predicate ChildrenFirst(ns: Nodes, ws: seq<Write>) {
    && (forall i | 0 <= i < |ws| :: NodeWrite(ns, ws[i]))
    && (forall i, c: Hash | 0 <= i < |ws| && ChildOf(ns, ws[i], c) :: Written(ws[..i], c))
  }

  ghost function WrittenNodes(ns: Nodes, ws: seq<Write>): set<Hash> {
    set h | h in ns && Written(ws, h)
  }

  lemma FirstConcat(ns: Nodes, a: seq<Write>, b: seq<Write>)
    requires ChildrenFirst(ns, a) && ChildrenFirst(ns, b)
    ensures ChildrenFirst(ns, a + b)
  {
    var ws := a + b;
    forall i, c: Hash | 0 <= i < |ws| && ChildOf(ns, ws[i], c) ensures Written(ws[..i], c) {
      if i < |a| {
        assert ws[..i] == a[..i];
      } else {
        assert ws[..i] == a + b[..i - |a|];
        WrittenConcat(a, b[..i - |a|], c);
      }
    }
  }

  lemma FirstSnoc(ns: Nodes, ws: seq<Write>, h: Hash)
    requires ChildrenFirst(ns, ws) && h in ns
    requires forall c: Hash | Edge(ns, h, c) && c in ns :: Written(ws, c)
    ensures ChildrenFirst(ns, ws + [Write(h, ns[h].blob)])
    ensures Written(ws + [Write(h, ns[h].blob)], h)
  {
    var w := Write(h, ns[h].blob);
    var all := ws + [w];
    assert all[|ws|].key == h;
    forall i, c: Hash | 0 <= i < |all| && ChildOf(ns, all[i], c) ensures Written(all[..i], c) {
      assert all[..i] == ws[..i];
      if i == |ws| {
        assert ws[..i] == ws;
      }
    }
  }

  lemma FirstNone(ns: Nodes)
    ensures ChildrenFirst(ns, []) && WrittenNodes(ns, []) == {}
  {
  }

  lemma WrittenNodesConcat(ns: Nodes, a: seq<Write>, b: seq<Write>)
    ensures WrittenNodes(ns, a + b) == WrittenNodes(ns, a) + WrittenNodes(ns, b)
  {
    hide Written;
    forall h | h in ns ensures Written(a + b, h) <==> Written(a, h) || Written(b, h) {
      WrittenConcat(a, b, h);
    }
  }

  lemma WrittenOne(ns: Nodes, h: Hash, v: Bytes)
    requires h in ns
    ensures WrittenNodes(ns, [Write(h, v)]) == {h}
  {
    assert [Write(h, v)][0].key == h;
  }

  /** Once h is written, so is everything cached below it. */
  lemma BelowWritten(ns: Nodes, ws: seq<Write>, h: Hash)
    requires ChildrenFirst(ns, ws) && (h in ns ==> Written(ws, h))
    ensures Below(ns, h) <= WrittenNodes(ns, ws)
  {
    hide Below;
    var s := WrittenNodes(ns, ws);
    forall p, c | p in s && Edge(ns, p, c) && c in ns ensures c in s {
      var i :| 0 <= i < |ws| && ws[i].key == p;
      assert ChildOf(ns, ws[i], c);
      var j :| 0 <= j < |ws[..i]| && ws[..i][j].key == c;
      assert ws[j].key == c;
    }
    BelowLeast(ns, h, s);
  }

  /** Every write of the first batch is a preimage under its prefixed key. */
  ghost predicate PreimageWrites(ps: map<Hash, Bytes>, ws: seq<Write>) {
    forall i | 0 <= i < |ws| :: PreimageWrite(ps, ws[i])
  }

  ghost predicate PreimageWrite(ps: map<Hash, Bytes>, w: Write) {
    exists h :: h in ps && w == Write(SecureKey(h), ps[h])
  }

  lemma PreimageSnoc(ps: map<Hash, Bytes>, ws: seq<Write>, h: Hash)
    requires PreimageWrites(ps, ws) && h in ps
    ensures PreimageWrites(ps, ws + [Write(SecureKey(h), ps[h])])
    ensures forall k :: Written(ws, k) ==> Written(ws + [Write(SecureKey(h), ps[h])], k)
    ensures Written(ws + [Write(SecureKey(h), ps[h])], SecureKey(h))
  {
    hide SecureKey;
    var w := Write(SecureKey(h), ps[h]);
    assert PreimageWrite(ps, w);
    assert (ws + [w])[|ws|] == w;
    forall k | Written(ws, k) ensures Written(ws + [w], k) {
      WrittenConcat(ws, [w], k);
    }
  }

  // ----- nothing is lost

  lemma KeyOfPreimage(ps: map<Hash, Bytes>, w: Write)
    requires PreimageWrite(ps, w)
    ensures |w.key| == 43
  {
  }

  /** The writes for one node key, and for one preimage key, all carry its value. */
  lemma ValuesAgree(ns: Nodes, ps: map<Hash, Bytes>, pre: seq<Write>, ws: seq<Write>, h: Hash)
    requires PreimageWrites(ps, pre) && ChildrenFirst(ns, ws)
    ensures forall i | 0 <= i < |pre + ws| && (pre + ws)[i].key == h :: h in ns && (pre + ws)[i].value == ns[h].blob
    ensures forall i | 0 <= i < |pre + ws| && (pre + ws)[i].key == SecureKey(h) ::
              h in ps && (pre + ws)[i].value == ps[h]
  {
    var all := pre + ws;
    forall i | 0 <= i < |all|
      ensures all[i].key == h ==> h in ns && all[i].value == ns[h].blob
      ensures all[i].key == SecureKey(h) ==> h in ps && all[i].value == ps[h]
    {
      if i < |pre| {
        assert all[i] == pre[i];
        KeyOfPreimage(ps, all[i]);
        var g :| g in ps && all[i] == Write(SecureKey(g), ps[g]);
        if all[i].key == SecureKey(h) {
          SecureKeyInjective(g, h);
        }
      } else {
        assert all[i] == ws[i - |pre|] && NodeWrite(ns, all[i]);
      }
    }
  }

  /** While nothing is removed from the caches, no prefix of the writes changes a lookup. */
  lemma PrefixKeeps(ns: Nodes, ps: map<Hash, Bytes>, d: Data, pre: seq<Write>, ws: seq<Write>, k: nat, h: Hash)
    requires PreimageWrites(ps, pre) && ChildrenFirst(ns, ws) && k <= |pre + ws|
    ensures var d' := Apply(d, (pre + ws)[..k]);
            Lookup(ns, d', h) == Lookup(ns, d, h) && LookupPreimage(ps, d', h) == LookupPreimage(ps, d, h)
  {
    hide Apply, SecureKey;
    ValuesAgree(ns, ps, pre, ws, h);
    var some := (pre + ws)[..k];
    assert forall i | 0 <= i < |some| :: some[i] == (pre + ws)[i];
    if h !in ns {
      ApplyOther(d, some, h);
    }
    if h !in ps {
      ApplyOther(d, some, SecureKey(h));
    }
  }

  /** When all writes are done, the written nodes and all preimages may be forgotten. */
  lemma ForgetKeeps(ns: Nodes, ps: map<Hash, Bytes>, d: Data, pre: seq<Write>, ws: seq<Write>, gone: set<Hash>, h: Hash)
    requires PreimageWrites(ps, pre) && ChildrenFirst(ns, ws) && gone <= WrittenNodes(ns, ws)
    requires forall g | g in ps :: Written(pre, SecureKey(g))
    ensures var d' := Apply(d, pre + ws);
            && Lookup(ns - gone, d', h) == Lookup(ns, d, h)
            && LookupPreimage(map[], d', h) == LookupPreimage(ps, d, h)
            && (h in gone ==> h in ns && h in d' && d'[h] == ns[h].blob)
  {
    hide Apply, SecureKey, Written;
    ValuesAgree(ns, ps, pre, ws, h);
    var all := pre + ws;
    WrittenConcat(pre, ws, h);
    WrittenConcat(pre, ws, SecureKey(h));
    if h in gone {
      ApplySame(d, all, h, ns[h].blob);
    } else if h !in ns {
      NotWritten(all, h);
      ApplyOther(d, all, h);
    }
    if h in ps {
      ApplySame(d, all, SecureKey(h), ps[h]);
    } else {
      NotWritten(all, SecureKey(h));
      ApplyOther(d, all, SecureKey(h));
    }
  }

  lemma NotWritten(ws: seq<Write>, key: Bytes)
    requires forall i | 0 <= i < |ws| :: ws[i].key != key
    ensures !Written(ws, key)
  {
  }

  // ----- forgetting a subtree

  /** Exactly h and what is below it was removed. */
  ghost predicate Purged(ns: Nodes, ms: Nodes, h: Hash, rank: Hash -> nat) {
    && Part(ms, ns) && h !in ms
    && (forall x | x in ns && x !in ms :: x in Below(ns, h) && x != ZeroHash && rank(x) <= rank(h))
    && (forall p, c | p in ns && p !in ms && Edge(ns, p, c) :: c !in ms)
  }

  lemma PurgedExactly(ns: Nodes, ms: Nodes, h: Hash, rank: Hash -> nat)
    requires Purged(ns, ms, h, rank)
    ensures ms == ns - Below(ns, h)
  {
    hide Below;
    BelowLeast(ns, h, ns.Keys - ms.Keys);
    assert Below(ns, h) <= ns.Keys - ms.Keys;
    assert ms.Keys == ns.Keys - Below(ns, h);
  }

  /** Part of the children of h are purged. */
  ghost predicate Purging(ns: Nodes, ms: Nodes, h: Hash, todo: set<Hash>, rank: Hash -> nat) {
    && Part(ms, ns) && h in ms
    && (forall x | x in ns && x !in ms :: x in Below(ns, h) && x != ZeroHash && rank(x) < rank(h))
    && (forall p, c | p in ns && p !in ms && Edge(ns, p, c) :: c !in ms)
    && (forall c | Edge(ns, h, c) && c !in todo :: c !in ms)
  }

  lemma PurgeStep(ns: Nodes, ms: Nodes, ms': Nodes, h: Hash, todo: set<Hash>, c: Hash, rank: Hash -> nat)
    requires Purging(ns, ms, h, todo, rank) && Purged(ms, ms', c, rank) && Edge(ns, h, c) && rank(c) < rank(h)
    ensures Purging(ns, ms', h, todo - {c}, rank)
  {
    hide Below;
    BelowPart(ms, ns, c);
    BelowChild(ns, h, c);
    forall p, x | p in ns && p !in ms' && Edge(ns, p, x) ensures x !in ms' {
      if p in ms {
        assert Edge(ms, p, x);
      }
    }
  }

  lemma PurgeDone(ns: Nodes, ms: Nodes, h: Hash, rank: Hash -> nat)
    requires Purging(ns, ms, h, {}, rank) && h != ZeroHash
    ensures Purged(ns, ms - {h}, h, rank)
  {
    hide Below;
    BelowTop(ns, h);
  }

  lemma PurgeNone(ns: Nodes, h: Hash, rank: Hash -> nat)
    ensures h !in ns ==> Purged(ns, ns, h, rank)
    ensures h in ns ==> Purging(ns, ns, h, ns[h].children.Keys, rank)
  {
  }

  lemma PartGraph(ms: Nodes, ns: Nodes, rank: Hash -> nat)
    requires Graph(ns, rank) && Part(ms, ns) && ZeroHash in ms
    ensures Graph(ms, rank)
  {
    forall p, c | Edge(ms, p, c) ensures EdgeFine(ms, rank, p, c) {
      assert Edge(ns, p, c);
    }
  }
}
