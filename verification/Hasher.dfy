/** Hashing and storing a partly loaded trie, with cached hashes reused and old
    clean nodes unloaded (trie/hasher.go). */
module Hasher {
  import opened Common
  import opened HexKeys
  import opened Trees
  import opened Rlp
  import opened Merkle
  import opened Nodes
  import opened Represent
  import opened StoreLog

  /** A node collapsed for its parent: its hash, or its small RLP form. */
  datatype Collapsed = Hashed(hash: Hash) | Embedded(item: Item)

  function AsItem(c: Collapsed): Item {
    match c
    case Hashed(h) => Str(h)
    case Embedded(item) => item
  }

  /** The reference hash must return: forced for the root. */
  function RefOf(t: Tree, force: bool): Collapsed
    requires Canon(t) && IsNode(t)
  {
    if force || Big(t) then Hashed(TreeHash(t)) else Embedded(NodeItem(t))
  }

  datatype Config = Config(gen: uint16, limit: uint16, store: bool)

  /** The log leads from db to db', children first when all that db should hold is there. */
  ghost predicate Logged(cfg: Config, db: Store, db': Store, log: seq<Record>, avail: bool) {
    db' == Replay(db, log) && (!cfg.store ==> log == []) && (avail ==> LogOk(db, log))
  }

  lemma LoggedNone(cfg: Config, db: Store, avail: bool)
    ensures Logged(cfg, db, db, [], avail)
  {
  }

  lemma LoggedConcat(cfg: Config, db: Store, db1: Store, db': Store, a: seq<Record>, b: seq<Record>, avail: bool)
    requires Logged(cfg, db, db1, a, avail) && Logged(cfg, db1, db', b, avail)
    ensures Logged(cfg, db, db', a + b, avail)
  {
    hide LogOk, Replay;
    ReplayConcat(db, a, b);
    if avail {
      LogConcat(db, a, b);
    }
  }

  /** What one hashing pass over n leaves behind. */
  ghost predicate PassOk(cfg: Config, n: Node, cached: Node, t: Tree, db: Store, db': Store, log: seq<Record>,
                         force: bool)
    requires Canon(t)
  {
    && Rep(cached, t, force) && AllHashed(cached, t)
    && Extends(db, db') && Honest(db') && (!cfg.store ==> db' == db) && Logged(cfg, db, db', log, Avail(n, t, db))
    && (Avail(n, t, db) ==> Avail(cached, t, db') && (cfg.store ==> Stored(t, db', force)))
  }

  /** What a pass does to the loaded nodes. Storing unloads a clean node with a hash once its generation is the limit or
      more behind, counted in 16 bits. A node with a hash that is clean, or that need not be stored, stays as it is.
      Any other is kept with its generation and gets clean by storing, and its children are treated alike. */
  ghost predicate Pruned(cfg: Config, n: Node, cached: Node)
    decreases n
  {
    if !(n.Short? || n.Full?) then cached == n
    else if cfg.store && n.flags.hash.Some? && !n.flags.dirty && (cfg.gen - n.flags.gen) % 0x1_0000 >= cfg.limit then
      cached == HashRef(n.flags.hash.value)
    else if n.flags.hash.Some? && !(cfg.store && n.flags.dirty) then cached == n
    else if n.Short? then
      && cached.Short? && cached.key == n.key && Settled(cfg, n.flags, cached.flags)
      && Pruned(cfg, n.val, cached.val)
    else
      && cached.Full? && |cached.children| == |n.children| && Settled(cfg, n.flags, cached.flags)
      && forall i | 0 <= i < |n.children| :: Pruned(cfg, n.children[i], cached.children[i])
  }

  ghost predicate Settled(cfg: Config, f: Flag, g: Flag) {
    g.gen == f.gen && g.dirty == (f.dirty && !cfg.store)
  }

  /** A clean hashed node that was last touched age commits ago is unloaded exactly from the limit on. */
  lemma UnloadedAt(cfg: Config, n: Node, cached: Node, age: nat)
    requires (n.Short? || n.Full?) && n.flags.hash.Some? && !n.flags.dirty
    requires cfg.store && age < 0x1_0000 && cfg.gen == (n.flags.gen + age) % 0x1_0000
    ensures Pruned(cfg, n, cached) <==> cached == if age >= cfg.limit then HashRef(n.flags.hash.value) else n
  {
    assert (cfg.gen - n.flags.gen) % 0x1_0000 == age;
  }

  /** hash: the reference is the one computed from scratch, whatever was cached. */
  method HashNode(cfg: Config, n: Node, db: Store, force: bool, ghost t: Tree)
      returns (hashed: Collapsed, cached: Node, db': Store, log: seq<Record>)
    requires Canon(t) && IsNode(t) && Rep(n, t, force) && Honest(db)
    requires cfg.store ==> KnownTree(t)
    ensures hashed == RefOf(t, force)
    ensures PassOk(cfg, n, cached, t, db, db', log, force) && Pruned(cfg, n, cached)
    ensures force && !cached.HashRef? ==> (cached.Short? || cached.Full?) && cached.flags.hash.Some?
    decreases n, 2
  {
    hide Canon, Rep, Avail, AllHashed, Honest, KnownTree, Stored, TreeHash, Big, NodeItem, Logged, RefsOf, LeavesOf;
    RepShape(n, t, force);
    if n.HashRef? {
      RefOfHashed(t, force, n.hash);
      if Avail(n, t, db) {
        AvailShape(n, t, db, force);
      }
      ReferencePass(cfg, n, t, n.hash, db, force);
      return Hashed(n.hash), n, db, [];
    }
    if n.flags.hash.Some? {
      var h := n.flags.hash.value;
      CachedHash(n, t, force);
      RefOfHashed(t, force, h);
      if !cfg.store {
        CachedPass(cfg, n, t, db, force);
        return Hashed(h), n, db, [];
      }
      if CanUnload(n.flags, cfg.gen, cfg.limit) {
        if Avail(n, t, db) {
          CleanStored(n, t, db, force);
        }
        ReferencePass(cfg, n, t, h, db, force);
        return Hashed(h), HashRef(h), db, [];
      }
      if !n.flags.dirty {
        CachedPass(cfg, n, t, db, force);
        return Hashed(h), n, db, [];
      }
    }
    if cfg.store {
      KnownShape(t);
    }
    var item, refs, leaves, walked, db1, log1 := HashChildren(cfg, n, db, force, t);
    var log2;
    hashed, db', log2 := StoreNode(cfg, item, refs, leaves, n.flags.hash, db1, force, t);
    log := log1 + log2;
    var hash := if hashed.Hashed? then Some(hashed.hash) else None;
    cached := walked.(flags := n.flags.(hash := hash, dirty := n.flags.dirty && !cfg.store));
    CleanSmall(n, t, force);
    WalkedLog(cfg, n, walked, refs, t, db, db1, db', log1, log2, force);
    WalkedPass(cfg, n, walked, cached, t, db, db1, db', log1, log, force);
  }

  // ----- the short cuts of hash

  lemma RefOfHashed(t: Tree, force: bool, h: Hash)
    requires Canon(t) && IsNode(t) && LoadedAs(t, Some(h), force)
    ensures RefOf(t, force) == Hashed(h)
  {
  }

  lemma ReferencePass(cfg: Config, n: Node, t: Tree, h: Hash, db: Store, force: bool)
    requires Canon(t) && IsNode(t) && LoadedAs(t, Some(h), force) && Honest(db)
    requires Avail(n, t, db) ==> Stored(t, db, true)
    ensures PassOk(cfg, n, HashRef(h), t, db, db, [], force)
  {
    hide TreeHash, Big, Honest, Blob, Logged;
    LoggedNone(cfg, db, Avail(n, t, db));
  }

  lemma CachedHash(n: Node, t: Tree, force: bool)
    requires Canon(t) && IsNode(t) && (n.Short? || n.Full?) && Rep(n, t, force) && n.flags.hash.Some?
    ensures LoadedAs(t, n.flags.hash, force)
  {
    hide TreeHash, Big;
  }

  lemma CleanSmall(n: Node, t: Tree, force: bool)
    requires Canon(t) && IsNode(t) && (n.Short? || n.Full?) && Rep(n, t, force)
    ensures n.flags.hash.None? && !n.flags.dirty ==> !force && !Big(t)
  {
    hide TreeHash, Big;
  }

  lemma CleanStored(n: Node, t: Tree, db: Store, force: bool)
    requires Canon(t) && (n.Short? || n.Full?) && Rep(n, t, force) && Avail(n, t, db)
    requires n.flags.hash.Some? && !n.flags.dirty
    ensures Stored(t, db, true)
  {
    hide TreeHash, Big, Stored;
  }

  lemma CachedPass(cfg: Config, n: Node, t: Tree, db: Store, force: bool)
    requires Canon(t) && (n.Short? || n.Full?) && Rep(n, t, force) && n.flags.hash.Some? && Honest(db)
    requires cfg.store ==> !n.flags.dirty
    ensures PassOk(cfg, n, n, t, db, db, [], force)
  {
    hide TreeHash, Big, Honest, Rep, Avail, AllHashed, Logged;
    LoggedNone(cfg, db, Avail(n, t, db));
    HashedBelow(n, t, force);
    if Avail(n, t, db) && cfg.store {
      CleanStored(n, t, db, force);
    }
  }

  // ----- hashChildren

  /** The children of walked stand for the children of t, hashed and, when
      storing, written. */
  ghost predicate WalkOk(cfg: Config, n: Node, walked: Node, t: Tree, db: Store, db': Store, log: seq<Record>)
    requires Canon(t)
  {
    && Extends(db, db') && Honest(db') && (!cfg.store ==> db' == db) && Logged(cfg, db, db', log, Avail(n, t, db))
    && (n.Short? ==>
          && t.Ext? && walked.Short? && walked.key == n.key && walked.flags == n.flags
          && Pruned(cfg, n.val, walked.val)
          && ChildOk(cfg, walked.val, t.child, db', Avail(n, t, db)))
    && (n.Full? ==>
          && t.Branch? && walked.Full? && |walked.children| == 17 == |n.children| && walked.flags == n.flags
          && (forall i | 0 <= i < 17 :: Pruned(cfg, n.children[i], walked.children[i]))
          && forall i | 0 <= i < 17 :: ChildOk(cfg, walked.children[i], t.children[i], db', Avail(n, t, db)))
  }

  ghost predicate ChildOk(cfg: Config, n: Node, t: Tree, db: Store, avail: bool)
    requires Canon(t)
  {
    && Rep(n, t, false) && AllHashed(n, t)
    && (avail ==> Avail(n, t, db) && (cfg.store ==> Stored(t, db, false)))
  }

  lemma ChildOkMono(cfg: Config, n: Node, t: Tree, db: Store, db': Store, avail: bool)
    requires Canon(t) && ChildOk(cfg, n, t, db, avail) && Extends(db, db')
    ensures ChildOk(cfg, n, t, db', avail)
  {
    hide Rep, Avail, AllHashed, Stored;
    if avail {
      AvailMono(n, t, db, db');
      if cfg.store {
        StoredMono(t, db, db', false);
      }
    }
  }

  lemma ValueChild(cfg: Config, n: Node, t: Tree, db: Store, avail: bool)
    requires Canon(t) && Rep(n, t, false) && (n.Value? || n.Nil?)
    ensures ChildOk(cfg, n, t, db, avail) && Pruned(cfg, n, n)
  {
  }

  method HashChildren(cfg: Config, n: Node, db: Store, ghost force: bool, ghost t: Tree)
      returns (item: Item, refs: seq<Hash>, leaves: seq<Bytes>, walked: Node, db': Store, log: seq<Record>)
    requires Canon(t) && IsNode(t) && (n.Short? || n.Full?) && Rep(n, t, force) && Honest(db)
    requires cfg.store ==> KnownTree(t)
    ensures item == NodeItem(t) && RefsOf(t, refs) && leaves == LeavesOf(t)
    ensures WalkOk(cfg, n, walked, t, db, db', log)
    decreases n, 1
  {
    if n.Short? {
      item, refs, leaves, walked, db', log := HashShort(cfg, n, db, force, t);
    } else {
      item, refs, leaves, walked, db', log := HashFull(cfg, n, db, force, t);
    }
  }

  lemma ShortItem(t: Tree, item: Item)
    requires Canon(t) && t.Ext? && item == RefItem(t.child)
    ensures ValidHex(t.key) && NodeItem(t) == List([Str(Compact(t.key)), item])
  {
  }

  lemma RefItemOf(t: Tree)
    requires Canon(t)
    ensures IsNode(t) ==> RefItem(t) == AsItem(RefOf(t, false))
    ensures t.Empty? ==> RefItem(t) == Str([])
    ensures t.Leaf? ==> RefItem(t) == Str(t.value)
  {
  }

  method HashShort(cfg: Config, n: Node, db: Store, ghost force: bool, ghost t: Tree)
      returns (item: Item, refs: seq<Hash>, leaves: seq<Bytes>, walked: Node, db': Store, log: seq<Record>)
    requires Canon(t) && n.Short? && Rep(n, t, force) && Honest(db)
    requires cfg.store ==> KnownTree(t)
    ensures item == NodeItem(t) && RefsOf(t, refs) && leaves == LeavesOf(t)
    ensures WalkOk(cfg, n, walked, t, db, db', log)
    decreases n, 0
  {
    hide Canon, Rep, Avail, AllHashed, Honest, KnownTree, Stored, TreeHash, Big, NodeItem, RefItem, RefOf, Compact;
    hide Logged, RefsOf;
    RepShape(n, t, force);
    if cfg.store {
      KnownShape(t);
    }
    ghost var avail := Avail(n, t, db);
    if avail {
      AvailShape(n, t, db, force);
    }
    RefItemOf(t.child);
    RepShape(n.val, t.child, false);
    ShortItem(t, RefItem(t.child));
    var compact := HexToCompact(n.key);
    if n.val.Value? {
      ValueChild(cfg, n.val, t.child, db, avail);
      LoggedNone(cfg, db, avail);
      ShortRefs(t);
      return List([Str(compact), Str(n.val.value)]), [], [n.val.value], n, db, [];
    }
    ChildIsNode(t);
    var hashed, val;
    hashed, val, db', log := HashNode(cfg, n.val, db, false, t.child);
    LoggedLess(cfg, db, db', log, Avail(n.val, t.child, db), avail);
    ShortRefs(t);
    refs, leaves := HashesOf(hashed), [];
    item, walked := List([Str(compact), AsItem(hashed)]), Short(n.key, val, n.flags);
  }

  lemma LoggedLess(cfg: Config, db: Store, db': Store, log: seq<Record>, avail: bool, avail': bool)
    requires Logged(cfg, db, db', log, avail) && (avail' ==> avail)
    ensures Logged(cfg, db, db', log, avail')
  {
    hide LogOk, Replay;
  }

  /** The references of a collapsed child. */
  function HashesOf(c: Collapsed): seq<Hash> {
    if c.Hashed? then [c.hash] else []
  }

  lemma ShortRefs(t: Tree)
    requires Canon(t) && t.Ext?
    ensures t.child.Leaf? ==> RefsOf(t, [])
    ensures IsNode(t.child) ==> RefsOf(t, HashesOf(RefOf(t.child, false)))
  {
    hide TreeHash, Big;
  }

  lemma ChildIsNode(t: Tree)
    requires Canon(t)
    ensures t.Ext? ==> t.child.Leaf? || IsNode(t.child)
    ensures t.Branch? ==> forall i | 0 <= i < 16 :: t.children[i].Empty? || IsNode(t.children[i])
    ensures t.Branch? ==> t.children[16].Empty? || t.children[16].Leaf?
  {
  }

  method HashChild(cfg: Config, n: Node, db: Store, ghost t: Tree, ghost avail: bool)
      returns (item: Item, refs: seq<Hash>, leaves: seq<Bytes>, child: Node, db': Store, log: seq<Record>)
    requires Canon(t) && (t.Empty? || IsNode(t)) && Rep(n, t, false) && Honest(db)
    requires cfg.store ==> KnownTree(t)
    requires avail ==> Avail(n, t, db)
    ensures Pruned(cfg, n, child)
    ensures item == RefItem(t) && ChildOk(cfg, child, t, db', avail) && (forall k :: k in refs <==> BigRef(t, k))
    ensures leaves == if t.Empty? then [[]] else []
    ensures Extends(db, db') && Honest(db') && (!cfg.store ==> db' == db) && Logged(cfg, db, db', log, avail)
    decreases n, 3
  {
    hide Canon, Rep, Avail, AllHashed, Honest, KnownTree, Stored, RefItem, RefOf, Logged, BigRef, TreeHash, Big;
    RepShape(n, t, false);
    RefItemOf(t);
    ChildRefs(t);
    if n.Nil? {
      ValueChild(cfg, n, t, db, avail);
      LoggedNone(cfg, db, avail);
      return Str([]), [], [[]], Nil, db, [];
    }
    var hashed;
    hashed, child, db', log := HashNode(cfg, n, db, false, t);
    LoggedLess(cfg, db, db', log, Avail(n, t, db), avail);
    item, refs, leaves := AsItem(hashed), HashesOf(hashed), [];
  }

  lemma ChildRefs(t: Tree)
    requires Canon(t)
    ensures !IsNode(t) ==> forall k :: !BigRef(t, k)
    ensures IsNode(t) ==> forall k :: k in HashesOf(RefOf(t, false)) <==> BigRef(t, k)
  {
    hide TreeHash, Big;
  }

  method HashFull(cfg: Config, n: Node, db: Store, ghost force: bool, ghost t: Tree)
      returns (item: Item, refs: seq<Hash>, leaves: seq<Bytes>, walked: Node, db': Store, log: seq<Record>)
    requires Canon(t) && n.Full? && Rep(n, t, force) && Honest(db)
    requires cfg.store ==> KnownTree(t)
    ensures item == NodeItem(t) && RefsOf(t, refs) && leaves == LeavesOf(t)
    ensures WalkOk(cfg, n, walked, t, db, db', log)
    decreases n, 0
  {
    hide Canon, Rep, Avail, AllHashed, Honest, KnownTree, Stored, TreeHash, Big, NodeItem, RefItem, RefOf, ChildOk;
    hide Logged, RefsOf, BigRef, LeavesOf, Collected, Pruned;
    RepShape(n, t, force);
    ChildIsNode(t);
    if cfg.store {
      KnownShape(t);
    }
    ghost var avail := Avail(n, t, db);
    if avail {
      AvailShape(n, t, db, force);
    }
    var items: seq<Item>, nodes: seq<Node> := [], [];
    db', refs, log, leaves := db, [], [], [];
    LoggedNone(cfg, db, avail);
    CollectNone(t);
    for i := 0 to 16
      invariant |items| == |nodes| == i && Collected(t, i, items, refs, leaves)
      invariant forall j | 0 <= j < i :: ChildOk(cfg, nodes[j], t.children[j], db', avail)
      invariant forall j | 0 <= j < i :: Pruned(cfg, n.children[j], nodes[j])
      invariant Extends(db, db') && Honest(db') && (!cfg.store ==> db' == db) && Logged(cfg, db, db', log, avail)
    {
      ghost var before := db';
      if avail {
        AvailMono(n.children[i], t.children[i], db, db');
      }
      var item, more, shown, child, steps;
      item, more, shown, child, db', steps := HashChild(cfg, n.children[i], db', t.children[i], avail);
      LoggedConcat(cfg, db, before, db', log, steps, avail);
      CollectNext(t, i, items, refs, leaves, item, more, shown);
      forall j | 0 <= j < i ensures ChildOk(cfg, nodes[j], t.children[j], db', avail) {
        ChildOkMono(cfg, nodes[j], t.children[j], before, db', avail);
      }
      items, nodes, refs, log := items + [item], nodes + [child], refs + more, log + steps;
      leaves := leaves + shown;
    }
    var last := n.children[16];
    RepShape(last, t.children[16], false);
    RefItemOf(t.children[16]);
    ValueChild(cfg, last, t.children[16], db', avail);
    CollectAll(t, items, refs, leaves, Str(if last.Nil? then [] else last.value));
    item := List(items + [Str(if last.Nil? then [] else last.value)]);
    walked := Full(nodes + [last], n.flags);
  }

  /** Items, references and shown values of the first n children. */
  ghost predicate Collected(t: Tree, n: nat, items: seq<Item>, refs: seq<Hash>, leaves: seq<Bytes>)
    requires Canon(t) && t.Branch? && n <= 16
  {
    && |items| == n && (forall j | 0 <= j < n :: items[j] == RefItem(t.children[j]))
    && (forall k :: k in refs <==> FirstRefs(t, n, k)) && leaves == EmptySlots(t, n)
  }

  lemma CollectNone(t: Tree)
    requires Canon(t) && t.Branch?
    ensures Collected(t, 0, [], [], [])
  {
    hide BigRef;
  }

  lemma CollectNext(t: Tree, n: nat, items: seq<Item>, refs: seq<Hash>, leaves: seq<Bytes>, item: Item, more: seq<Hash>,
                    shown: seq<Bytes>)
    requires Canon(t) && t.Branch? && n < 16 && Canon(t.children[n]) && Collected(t, n, items, refs, leaves)
    requires item == RefItem(t.children[n]) && forall k :: k in more <==> BigRef(t.children[n], k)
    requires shown == if t.children[n].Empty? then [[]] else []
    ensures Collected(t, n + 1, items + [item], refs + more, leaves + shown)
  {
    hide Canon, BigRef, RefItem;
    CanonBranch(t);
    FirstRefsNext(t, n);
  }

  lemma CollectAll(t: Tree, items: seq<Item>, refs: seq<Hash>, leaves: seq<Bytes>, last: Item)
    requires Canon(t) && t.Branch? && Collected(t, 16, items, refs, leaves) && last == RefItem(t.children[16])
    ensures NodeItem(t) == List(items + [last]) && RefsOf(t, refs) && leaves == LeavesOf(t)
  {
    hide Canon, BigRef, RefItem, NodeItem, RefsOf, EmptySlots;
    CanonBranch(t);
    FullItem(t, items + [last]);
    FullRefs(t, refs);
  }

  /** One of the first n children is stored under k. */
  ghost predicate FirstRefs(t: Tree, n: nat, k: Hash)
    requires t.Branch? && n <= |t.children|
  {
    exists i :: 0 <= i < n && BigRef(t.children[i], k)
  }

  lemma FirstRefsNext(t: Tree, n: nat)
    requires t.Branch? && n < |t.children|
    ensures forall k :: FirstRefs(t, n + 1, k) <==> FirstRefs(t, n, k) || BigRef(t.children[n], k)
  {
    hide BigRef;
  }

  lemma FullRefs(t: Tree, refs: seq<Hash>)
    requires Canon(t) && t.Branch? && forall k :: k in refs <==> FirstRefs(t, 16, k)
    ensures RefsOf(t, refs)
  {
    forall k ensures FirstRefs(t, 16, k) <==> RefTo(t, k) {
      if RefTo(t, k) {
        var i :| 0 <= i < |t.children| && BigRef(t.children[i], k);
        assert i < 16;
      }
    }
  }

  lemma FullItem(t: Tree, items: seq<Item>)
    requires Canon(t) && t.Branch? && |items| == 17
    requires forall j | 0 <= j < 17 :: items[j] == RefItem(t.children[j])
    ensures NodeItem(t) == List(items)
  {
    hide RefItem;
    assert NodeItem(t).items == items;
  }

  // ----- store

  method StoreNode(cfg: Config, item: Item, refs: seq<Hash>, leaves: seq<Bytes>, cachedHash: Option<Hash>, db: Store,
                   force: bool, ghost t: Tree)
      returns (hashed: Collapsed, db': Store, log: seq<Record>)
    requires Canon(t) && IsNode(t) && item == NodeItem(t) && RefsOf(t, refs) && Honest(db)
    requires leaves == LeavesOf(t)
    requires cachedHash.Some? ==> cachedHash.value == TreeHash(t)
    requires cfg.store ==> KnownTree(t)
    ensures hashed == RefOf(t, force)
    ensures Extends(db, db') && Honest(db') && (!cfg.store ==> db' == db)
    ensures Logged(cfg, db, db', log, Grounded(db, refs))
    ensures log == if cfg.store && (force || Big(t)) then [Record(TreeHash(t), Blob(t), refs, leaves)] else []
    ensures cfg.store && (force || Big(t)) ==> TreeHash(t) in db' && db'[TreeHash(t)] == Blob(t)
  {
    hide Canon, NodeItem, Encode, Logged, RefsOf, LeavesOf, KnownTree, Grounded;
    LoggedNone(cfg, db, Grounded(db, refs));
    if cfg.store {
      KnownShape(t);
    }
    db', log := db, [];
    var enc := Encode(item);
    if |enc| < 32 && !force {
      return Embedded(item), db, [];
    }
    var hash := if cachedHash.Some? then cachedHash.value else Keccak(enc);
    if cfg.store {
      log := [Record(hash, enc, refs, leaves)];
      LoggedOne(cfg, db, log[0], t);
      db' := Put(db, hash, enc);
    }
    hashed := Hashed(hash);
  }

  lemma LoggedOne(cfg: Config, db: Store, r: Record, t: Tree)
    requires cfg.store && RecordOf(t, r)
    ensures Logged(cfg, db, Put(db, r.hash, r.blob), [r], Grounded(db, r.refs))
  {
    hide RecordOf, Grounded, LogOk, Replay;
    assert RecordOk(r);
    LogOne(db, r);
  }

  /** With all children stored, the node that refers to them comes after them. */
  lemma WalkedLog(cfg: Config, n: Node, walked: Node, refs: seq<Hash>, t: Tree, db: Store, db1: Store, db': Store,
                  log1: seq<Record>, log2: seq<Record>, force: bool)
    requires Canon(t) && IsNode(t) && (n.Short? || n.Full?) && Rep(n, t, force) && RefsOf(t, refs)
    requires WalkOk(cfg, n, walked, t, db, db1, log1) && Logged(cfg, db1, db', log2, Grounded(db1, refs))
    ensures Logged(cfg, db, db', log1 + log2, Avail(n, t, db))
  {
    hide Canon, Rep, Avail, AllHashed, Stored, Honest, Logged, RefsOf, Grounded;
    var avail := Avail(n, t, db);
    if avail && cfg.store {
      RepShape(n, t, force);
      StoredRefs(t, refs, db1);
    }
    if !cfg.store {
      NoLog(cfg, db1, db', log2, Grounded(db1, refs), avail);
    } else {
      LoggedLess(cfg, db1, db', log2, Grounded(db1, refs), avail);
    }
    LoggedConcat(cfg, db, db1, db', log1, log2, avail);
  }

  lemma NoLog(cfg: Config, db: Store, db': Store, log: seq<Record>, avail: bool, avail': bool)
    requires !cfg.store && Logged(cfg, db, db', log, avail)
    ensures Logged(cfg, db, db', log, avail')
  {
  }

  /** A walked node with its fresh hash in the flags. */
  lemma WalkedPass(cfg: Config, n: Node, walked: Node, cached: Node, t: Tree, db: Store, db1: Store, db': Store,
                   log1: seq<Record>, log: seq<Record>, force: bool)
    requires Canon(t) && IsNode(t) && (n.Short? || n.Full?) && Rep(n, t, force)
    requires WalkOk(cfg, n, walked, t, db, db1, log1) && Logged(cfg, db, db', log, Avail(n, t, db))
    requires Extends(db1, db') && Honest(db') && (!cfg.store ==> db' == db1)
    requires cfg.store && (force || Big(t)) ==> TreeHash(t) in db' && db'[TreeHash(t)] == Blob(t)
    requires !cfg.store && !n.flags.dirty ==> !force && !Big(t)
    requires walked.Short? || walked.Full?
    requires (cached.Short? || cached.Full?) && cached == walked.(flags := cached.flags)
    requires cached.flags.dirty == (n.flags.dirty && !cfg.store)
    requires cached.flags.hash == if force || Big(t) then Some(TreeHash(t)) else None
    ensures PassOk(cfg, n, cached, t, db, db', log, force)
  {
    hide Canon, Rep, Avail, AllHashed, Stored, TreeHash, Big, Honest, Blob, ChildOk, Logged;
    RepShape(n, t, force);
    var avail := Avail(n, t, db);
    if n.Short? {
      ChildOkMono(cfg, walked.val, t.child, db1, db', avail);
      RebuiltShort(cfg, cached, t, db', force, avail);
    } else {
      forall i | 0 <= i < 17 ensures ChildOk(cfg, walked.children[i], t.children[i], db', avail) {
        ChildOkMono(cfg, walked.children[i], t.children[i], db1, db', avail);
      }
      RebuiltFull(cfg, cached, t, db', force, avail);
    }
  }

  /** The flags a hashing pass leaves: the true hash exactly where one is needed,
      and clean only when everything is written. */
  ghost predicate FreshFlags(cfg: Config, f: Flag, t: Tree, db: Store, force: bool)
    requires Canon(t) && IsNode(t)
  {
    && f.hash == (if force || Big(t) then Some(TreeHash(t)) else None)
    && (cfg.store ==> !f.dirty && (force || Big(t) ==> TreeHash(t) in db && db[TreeHash(t)] == Blob(t)))
    && (!cfg.store && !f.dirty ==> f.hash.None?)
  }

  lemma RebuiltShort(cfg: Config, n: Node, t: Tree, db: Store, force: bool, avail: bool)
    requires Canon(t) && n.Short? && t.Ext? && n.key == t.key
    requires ChildOk(cfg, n.val, t.child, db, avail) && FreshFlags(cfg, n.flags, t, db, force)
    ensures Rep(n, t, force) && AllHashed(n, t)
    ensures avail ==> Avail(n, t, db) && (cfg.store ==> Stored(t, db, force))
  {
    hide TreeHash, Big, Blob;
  }

  lemma RebuiltFull(cfg: Config, n: Node, t: Tree, db: Store, force: bool, avail: bool)
    requires Canon(t) && n.Full? && t.Branch? && |n.children| == 17
    requires forall i | 0 <= i < 17 :: ChildOk(cfg, n.children[i], t.children[i], db, avail)
    requires FreshFlags(cfg, n.flags, t, db, force)
    ensures Rep(n, t, force) && AllHashed(n, t)
    ensures avail ==> Avail(n, t, db) && (cfg.store ==> Stored(t, db, force))
  {
    hide TreeHash, Big, Blob;
  }
}
