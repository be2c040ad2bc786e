/** What a storing pass hands to the node database and to the leaf callback (trie/hasher.go): the stored
    nodes in order, each with the hashes of the children it refers to and the values it shows. */
module StoreLog {
  import opened Common
  import opened Trees
  import opened Merkle
  import opened Represent

  /** One stored node: its insertion, its references, and the calls of the leaf callback. */
  datatype Record = Record(hash: Hash, blob: Bytes, refs: seq<Hash>, leaves: seq<Bytes>)

  /** A node that is there already is not replaced. */
  function Put(db: Store, hash: Hash, blob: Bytes): Store {
    if hash in db then db else db[hash := blob]
  }

  ghost function Replay(db: Store, log: seq<Record>): Store {
    if log == [] then db
    else Put(Replay(db, log[..|log| - 1]), log[|log| - 1].hash, log[|log| - 1].blob)
  }

  ghost predicate BigRef(c: Tree, k: Hash) {
    Canon(c) && IsNode(c) && Big(c) && TreeHash(c) == k
  }

  /** A child of t is stored under k. */
  ghost predicate RefTo(t: Tree, k: Hash) {
    (t.Ext? && BigRef(t.child, k)) || (t.Branch? && exists i :: 0 <= i < |t.children| && BigRef(t.children[i], k))
  }

  ghost predicate RefsOf(t: Tree, refs: seq<Hash>) {
    forall k :: k in refs <==> RefTo(t, k)
  }

  /** The values shown to the callback: that of a short node, and for a full node an empty value for every empty
      child, since those were replaced by empty values for the encoding. The value of a full node is not shown. */
  ghost function LeavesOf(t: Tree): seq<Bytes> {
    if t.Ext? then if t.child.Leaf? then [t.child.value] else []
    else if t.Branch? && |t.children| == 17 then EmptySlots(t, 16) else []
  }

  ghost function EmptySlots(t: Tree, n: nat): seq<Bytes>
    requires t.Branch? && n <= |t.children|
  {
    if n == 0 then [] else EmptySlots(t, n - 1) + if t.children[n - 1].Empty? then [[]] else []
  }

  /** The values that are not empty are exactly those of the short nodes that are stored on their own. */
  lemma LeavesShown(t: Tree, v: Bytes)
    requires Canon(t) && IsNode(t) && v != []
    ensures v in LeavesOf(t) <==> t.Ext? && t.child == Leaf(v)
  {
    if t.Branch? {
      SlotsEmpty(t, 16, v);
    }
  }

  lemma {:induction false} SlotsEmpty(t: Tree, n: nat, v: Bytes)
    requires t.Branch? && n <= |t.children| && v != []
    ensures v !in EmptySlots(t, n)
  {
    if n > 0 {
      SlotsEmpty(t, n - 1, v);
    }
  }

  /** A record is that of the node of some trie. */
  ghost predicate RecordOk(r: Record) {
    exists t :: RecordOf(t, r)
  }

  ghost predicate RecordOf(t: Tree, r: Record) {
    && Canon(t) && IsNode(t) && KnownTree(t)
    && r.hash == TreeHash(t) && r.blob == Blob(t) && RefsOf(t, r.refs) && r.leaves == LeavesOf(t)
  }

  ghost predicate Grounded(db: Store, refs: seq<Hash>) {
    forall k | k in refs :: k in db
  }

  /** Every node comes after the nodes it refers to. */
  ghost predicate LogOk(db: Store, log: seq<Record>) {
    forall i | 0 <= i < |log| :: RecordOk(log[i]) && Grounded(Replay(db, log[..i]), log[i].refs)
  }

  lemma {:induction false} ReplayConcat(db: Store, a: seq<Record>, b: seq<Record>)
    ensures Replay(db, a + b) == Replay(Replay(db, a), b)
    decreases |b|
  {
    hide Put;
    if b == [] {
      assert a + b == a;
    } else {
      ReplayConcat(db, a, b[..|b| - 1]);
      assert (a + b)[..|a + b| - 1] == a + b[..|b| - 1];
    }
  }

  lemma LogConcat(db: Store, a: seq<Record>, b: seq<Record>)
    requires LogOk(db, a) && LogOk(Replay(db, a), b)
    ensures LogOk(db, a + b)
  {
    hide RecordOk, Grounded, Replay;
    var log := a + b;
    forall i | 0 <= i < |log| ensures RecordOk(log[i]) && Grounded(Replay(db, log[..i]), log[i].refs) {
      if i < |a| {
        assert log[i] == a[i] && log[..i] == a[..i];
      } else {
        assert log[i] == b[i - |a|] && log[..i] == a + b[..i - |a|];
        ReplayConcat(db, a, b[..i - |a|]);
      }
    }
  }

  lemma LogNone(db: Store)
    ensures LogOk(db, []) && Replay(db, []) == db
  {
  }

  lemma LogOne(db: Store, r: Record)
    ensures Replay(db, [r]) == Put(db, r.hash, r.blob)
    ensures RecordOk(r) && Grounded(db, r.refs) ==> LogOk(db, [r])
  {
    hide RecordOk, Grounded, Put;
    assert [r][..0] == [] && Replay(db, []) == db;
    assert Replay(db, [r]) == Put(Replay(db, [r][..0]), r.hash, r.blob);
  }

  /** What t refers to is stored with its children. */
  lemma StoredRefs(t: Tree, refs: seq<Hash>, db: Store)
    requires Canon(t) && RefsOf(t, refs)
    requires t.Ext? ==> Stored(t.child, db, false)
    requires t.Branch? ==> forall i | 0 <= i < 17 :: Stored(t.children[i], db, false)
    ensures Grounded(db, refs)
  {
    hide TreeHash, Big, Blob;
    forall k | k in refs ensures k in db {
      assert RefTo(t, k);
      if t.Branch? {
        var i :| 0 <= i < 17 && BigRef(t.children[i], k);
        assert Stored(t.children[i], db, false);
      }
    }
  }
}
