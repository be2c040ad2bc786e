/** When a partly loaded, hash-caching node stands for a tree, and which parts
    of the tree are safe in the database. */
module Represent {
  import opened Common
  import opened HexKeys
  import opened Trees
  import opened Merkle
  import opened Nodes

  /** What a node lookup by hash returns, in memory cache or on disk. */
  type Store = map<Hash, Bytes>

  /** Every blob is stored under its own hash. */
  ghost predicate Honest(db: Store) {
    forall h | h in db :: Keccak(db[h]) == h && Known(db[h])
  }

  lemma EmptyHonest()
    ensures Honest(map[])
  {
  }

  /** A cached hash is the hash of the node, and only the root may cache one
      while being small enough to embed. A clean node without a cached hash is
      embedded in its parent. */
  ghost predicate FlagOk(f: Flag, t: Tree, root: bool)
    requires Canon(t) && IsNode(t)
  {
    && (f.hash.Some? ==> f.hash.value == TreeHash(t) && (root || Big(t)))
    && (f.hash.None? && !f.dirty ==> !root && !Big(t))
  }

  /** Every loaded node that is too large to embed caches its hash. */
  ghost predicate AllHashed(n: Node, t: Tree)
    requires Canon(t)
  {
    && (n.Short? && t.Ext? ==> AllHashed(n.val, t.child) && (Big(t) ==> n.flags.hash.Some?))
    && (n.Full? && t.Branch? && |n.children| == 17 ==>
          && (Big(t) ==> n.flags.hash.Some?)
          && forall i | 0 <= i < 17 :: AllHashed(n.children[i], t.children[i]))
  }

  /** n is t, with some subtrees left as hashes. */
  ghost predicate Rep(n: Node, t: Tree, root: bool)
    requires Canon(t)
  {
    && (n.Nil? ==> t.Empty?)
    && (n.Value? ==> t == Leaf(n.value))
    && (n.Short? ==>
          && t.Ext? && t.key == n.key && FlagOk(n.flags, t, root)
          && Rep(n.val, t.child, false) && (n.flags.hash.Some? ==> AllHashed(n.val, t.child)))
    && (n.Full? ==>
          && t.Branch? && |n.children| == 17 && FlagOk(n.flags, t, root)
          && (forall i | 0 <= i < 17 :: Rep(n.children[i], t.children[i], false))
          && (n.flags.hash.Some? ==> forall i | 0 <= i < 17 :: AllHashed(n.children[i], t.children[i])))
    && (n.HashRef? ==> IsNode(t) && n.hash == TreeHash(t) && (root || Big(t)))
  }

  /** All separately stored nodes of t are in db; top says that t's own node is
      one of them even if small. */
  ghost predicate Stored(t: Tree, db: Store, top: bool)
    requires Canon(t)
  {
    && (IsNode(t) && (top || Big(t)) ==> TreeHash(t) in db && db[TreeHash(t)] == Blob(t))
    && (t.Ext? ==> Stored(t.child, db, false))
    && (t.Branch? ==> forall i | 0 <= i < 17 :: Stored(t.children[i], db, false))
  }

  /** Everything n no longer holds in memory, or believes written, is in db. */
  ghost predicate Avail(n: Node, t: Tree, db: Store)
    requires Canon(t)
  {
    && (n.HashRef? ==> Stored(t, db, true))
    && (n.Short? && t.Ext? ==>
          Avail(n.val, t.child, db) && (n.flags.hash.Some? && !n.flags.dirty ==> Stored(t, db, true)))
    && (n.Full? && t.Branch? && |n.children| == 17 ==>
          && (n.flags.hash.Some? && !n.flags.dirty ==> Stored(t, db, true))
          && forall i | 0 <= i < 17 :: Avail(n.children[i], t.children[i], db))
  }

  ghost predicate Extends(db: Store, db': Store) {
    forall h | h in db :: h in db' && db'[h] == db[h]
  }

  lemma {:induction false} StoredMono(t: Tree, db: Store, db': Store, top: bool)
    requires Canon(t) && Stored(t, db, top)
    requires Extends(db, db')
    ensures Stored(t, db', top)
    decreases t
  {
    if t.Ext? {
      StoredMono(t.child, db, db', false);
    } else if t.Branch? {
      forall i | 0 <= i < 17 ensures Stored(t.children[i], db', false) {
        StoredMono(t.children[i], db, db', false);
      }
    }
  }

  lemma {:induction false} AvailMono(n: Node, t: Tree, db: Store, db': Store)
    requires Canon(t) && Avail(n, t, db)
    requires Extends(db, db')
    ensures Avail(n, t, db')
    decreases n
  {
    if Stored(t, db, true) {
      StoredMono(t, db, db', true);
    }
    if n.Short? && t.Ext? {
      AvailMono(n.val, t.child, db, db');
    } else if n.Full? && t.Branch? && |n.children| == 17 {
      forall i | 0 <= i < 17 ensures Avail(n.children[i], t.children[i], db') {
        AvailMono(n.children[i], t.children[i], db, db');
      }
    }
  }

  /** The cached hash a node may carry when it is loaded. */
  ghost predicate LoadedAs(t: Tree, hash: Option<Hash>, root: bool)
    requires Canon(t) && IsNode(t)
  {
    if hash.Some? then hash.value == TreeHash(t) && (root || Big(t)) else !root && !Big(t)
  }

  lemma {:induction false} ShallowRep(t: Tree, hash: Option<Hash>, gen: uint16, root: bool)
    requires Canon(t) && IsNode(t) && LoadedAs(t, hash, root)
    ensures Rep(Shallow(t, hash, gen), t, root) && AllHashed(Shallow(t, hash, gen), t)
    decreases t, 0
  {
    hide TreeHash, Big, Blob;
    if t.Ext? {
      ShallowRefRep(t.child, gen);
    } else {
      var n := Shallow(t, hash, gen);
      forall i | 0 <= i < 17
        ensures Rep(n.children[i], t.children[i], false)
        ensures AllHashed(n.children[i], t.children[i])
      {
        ShallowRefRep(t.children[i], gen);
      }
    }
  }

  lemma {:induction false} ShallowRefRep(t: Tree, gen: uint16)
    requires Canon(t)
    ensures Rep(ShallowRef(t, gen), t, false) && AllHashed(ShallowRef(t, gen), t)
    decreases t, 1
  {
    hide TreeHash, Big, Blob, Shallow;
    if IsNode(t) && !Big(t) {
      ShallowRep(t, None, gen, false);
    }
  }

  lemma {:induction false} ShallowAvail(t: Tree, hash: Option<Hash>, gen: uint16, db: Store)
    requires Canon(t) && IsNode(t) && Stored(t, db, hash.Some?)
    ensures Avail(Shallow(t, hash, gen), t, db)
    decreases t, 0
  {
    hide TreeHash, Big, Blob;
    if t.Ext? {
      ShallowRefAvail(t.child, gen, db);
    } else {
      var n := Shallow(t, hash, gen);
      forall i | 0 <= i < 17 ensures Avail(n.children[i], t.children[i], db) {
        ShallowRefAvail(t.children[i], gen, db);
      }
    }
  }

  lemma {:induction false} ShallowRefAvail(t: Tree, gen: uint16, db: Store)
    requires Canon(t) && Stored(t, db, false)
    ensures Avail(ShallowRef(t, gen), t, db)
    decreases t, 1
  {
    hide TreeHash, Big, Blob, Shallow;
    if IsNode(t) && !Big(t) {
      ShallowAvail(t, None, gen, db);
    }
  }

  // ----- taking a loaded node apart and putting it back together

  lemma RepShape(n: Node, t: Tree, root: bool)
    requires Canon(t) && Rep(n, t, root)
    ensures t.Ext? ==> Canon(t.child)
    ensures t.Branch? ==> |t.children| == 17 && forall i | 0 <= i < 17 :: Canon(t.children[i])
    ensures n.Nil? <==> t.Empty?
    ensures n.Value? <==> t.Leaf?
    ensures n.Value? ==> n.value == t.value
    ensures n.Short? ==> t.Ext? && t.key == n.key && Rep(n.val, t.child, false)
    ensures n.Full? ==>
              t.Branch? && |n.children| == 17 && forall i | 0 <= i < 17 :: Rep(n.children[i], t.children[i], false)
    ensures n.HashRef? ==> IsNode(t) && n.hash == TreeHash(t) && LoadedAs(t, Some(n.hash), root)
  {
    hide TreeHash, Big;
  }

  lemma KnownShape(t: Tree)
    requires Canon(t) && KnownTree(t)
    ensures IsNode(t) ==> Known(Blob(t))
    ensures t.Ext? ==> KnownTree(t.child)
    ensures t.Branch? ==> forall i | 0 <= i < 17 :: KnownTree(t.children[i])
  {
    hide Known;
  }

  lemma HashedShape(n: Node, t: Tree, root: bool)
    requires Canon(t) && Rep(n, t, root) && AllHashed(n, t)
    ensures n.Short? ==> AllHashed(n.val, t.child)
    ensures n.Full? ==> forall i | 0 <= i < 17 :: AllHashed(n.children[i], t.children[i])
  {
    hide TreeHash, Big;
  }

  lemma HashedBelow(n: Node, t: Tree, root: bool)
    requires Canon(t) && Rep(n, t, root) && (n.Short? || n.Full?) && n.flags.hash.Some?
    ensures AllHashed(n, t)
  {
    hide TreeHash, Big;
  }

  lemma AvailShape(n: Node, t: Tree, db: Store, root: bool)
    requires Canon(t) && Rep(n, t, root) && Avail(n, t, db)
    ensures n.HashRef? ==> Stored(t, db, true)
    ensures n.Short? ==> Avail(n.val, t.child, db)
    ensures n.Full? ==> forall i | 0 <= i < 17 :: Avail(n.children[i], t.children[i], db)
  {
    hide TreeHash, Big;
  }

  /** Reloading the child of a short node keeps what the node stands for. */
  lemma ReloadShort(n: Node, c: Node, gen: uint16, t: Tree, db: Store, root: bool)
    requires Canon(t) && n.Short? && Rep(n, t, root) && Rep(c, t.child, false)
    requires AllHashed(n.val, t.child) ==> AllHashed(c, t.child)
    ensures Rep(Short(n.key, c, n.flags.(gen := gen)), t, root)
    ensures AllHashed(n, t) ==> AllHashed(Short(n.key, c, n.flags.(gen := gen)), t)
    ensures Avail(n, t, db) && Avail(c, t.child, db) ==> Avail(Short(n.key, c, n.flags.(gen := gen)), t, db)
  {
    hide TreeHash, Big;
  }

  lemma ReloadFull(n: Node, i: nibble, c: Node, gen: uint16, t: Tree, db: Store, root: bool)
    requires Canon(t) && n.Full? && Rep(n, t, root) && Rep(c, t.children[i], false)
    requires AllHashed(n.children[i], t.children[i]) ==> AllHashed(c, t.children[i])
    ensures Rep(Full(n.children[i := c], n.flags.(gen := gen)), t, root)
    ensures AllHashed(n, t) ==> AllHashed(Full(n.children[i := c], n.flags.(gen := gen)), t)
    ensures Avail(n, t, db) && Avail(c, t.children[i], db) ==>
              Avail(Full(n.children[i := c], n.flags.(gen := gen)), t, db)
  {
    hide TreeHash, Big;
  }

  /** A new node is dirty and caches nothing, so only its child counts. */
  lemma NewShort(key: Path, c: Node, gen: uint16, t: Tree, db: Store, root: bool)
    requires Canon(t) && t.Ext? && t.key == key && Rep(c, t.child, false)
    ensures Rep(Short(key, c, Flag(None, gen, true)), t, root)
    ensures Avail(c, t.child, db) ==> Avail(Short(key, c, Flag(None, gen, true)), t, db)
  {
    hide TreeHash, Big;
  }

  lemma NewFull(ch: seq<Node>, gen: uint16, t: Tree, db: Store, root: bool)
    requires Canon(t) && t.Branch? && |ch| == 17
    requires forall i | 0 <= i < 17 :: Rep(ch[i], t.children[i], false)
    ensures Rep(Full(ch, Flag(None, gen, true)), t, root)
    ensures (forall i | 0 <= i < 17 :: Avail(ch[i], t.children[i], db)) ==>
              Avail(Full(ch, Flag(None, gen, true)), t, db)
  {
    hide TreeHash, Big;
  }

  /** A resolved hash node. */
  lemma Reloaded(t: Tree, h: Hash, gen: uint16, db: Store, root: bool)
    requires Canon(t) && IsNode(t) && LoadedAs(t, Some(h), root)
    ensures Rep(Shallow(t, Some(h), gen), t, root) && AllHashed(Shallow(t, Some(h), gen), t)
    ensures Stored(t, db, true) ==> Avail(Shallow(t, Some(h), gen), t, db)
  {
    hide TreeHash, Big, Shallow;
    ShallowRep(t, Some(h), gen, root);
    if Stored(t, db, true) {
      ShallowAvail(t, Some(h), gen, db);
    }
  }

  // ----- the root hash determines the trie

  lemma {:induction false} ShallowInjective(a: Tree, b: Tree)
    requires Canon(a) && Canon(b) && IsNode(a) && IsNode(b) && KnownTree(a) && KnownTree(b)
    requires Shallow(a, None, 0) == Shallow(b, None, 0)
    ensures a == b
    decreases a, 0
  {
    hide Canon, KnownTree, ShallowRef, TreeHash;
    KnownShape(a);
    KnownShape(b);
    if a.Ext? {
      CanonExt(a);
      CanonExt(b);
      RefInjective(a.child, b.child);
    } else {
      CanonBranch(a);
      CanonBranch(b);
      forall i | 0 <= i < 17 ensures a.children[i] == b.children[i] {
        assert Shallow(a, None, 0).children[i] == Shallow(b, None, 0).children[i];
        RefInjective(a.children[i], b.children[i]);
      }
      assert a.children == b.children;
    }
  }

  lemma {:induction false} RefInjective(a: Tree, b: Tree)
    requires Canon(a) && Canon(b) && KnownTree(a) && KnownTree(b)
    requires ShallowRef(a, 0) == ShallowRef(b, 0)
    ensures a == b
    decreases a, 2
  {
    hide Canon, KnownTree, TreeHash;
    if IsNode(a) && IsNode(b) {
      if Big(a) {
        MerkleInjective(a, b);
      } else {
        ShallowInjective(a, b);
      }
    }
  }

  /** Without collisions, equal root hashes mean equal tries. */
  lemma {:induction false} MerkleInjective(a: Tree, b: Tree)
    requires Canon(a) && Canon(b) && IsNode(a) && IsNode(b) && KnownTree(a) && KnownTree(b)
    requires TreeHash(a) == TreeHash(b)
    ensures a == b
    decreases a, 1
  {
    hide Canon, KnownTree, Blob, Shallow, DecodeNode;
    KnownShape(a);
    KnownShape(b);
    DecodeNodeOf(a, None, 0, []);
    DecodeNodeOf(b, None, 0, []);
    ShallowInjective(a, b);
  }
}
