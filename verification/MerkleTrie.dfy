/** The Trie object: a finite map with a root hash, over a node database. */
module MerkleTrie {
  import opened Common
  import opened HexKeys
  import opened Trees
  import opened TrieRuns
  import opened Rlp
  import opened Merkle
  import opened Nodes
  import opened Represent
  import opened TrieOps
  import opened StoreLog
  import opened Hasher
  import opened FromScratch

  /** h is the root hash of the trie holding m, however that trie was built. */
  ghost predicate RootOf(h: Hash, m: Contents) {
    forall t | Holds(t, m) :: h == RootHash(t)
  }

  lemma RootUnique(t: Tree, m: Contents)
    requires Holds(t, m)
    ensures RootOf(RootHash(t), m)
  {
    hide Holds;
    forall t' | Holds(t', m) ensures t' == t {
      HoldsUnique(t, t', m);
    }
  }

  /** It is the hash of the trie built directly from the contents. */
  lemma RootFromScratch(h: Hash, m: Contents, n: nat)
    requires RootOf(h, m) && (forall key | key in m :: |m[key]| > 0) && Bounded(HexDict(m), n)
    ensures Holds(Build(HexDict(m), n), m) && h == RootHash(Build(HexDict(m), n))
  {
    hide Holds, Build, HexDict, RootHash;
    BuildHolds(m, n);
  }

  /** No stored node hashes to the empty root: it would be the RLP of a string. */
  lemma NotEmptyRoot(t: Tree)
    requires Canon(t) && KnownTree(t) && IsNode(t) && Known(Encode(Str([])))
    ensures TreeHash(t) != EmptyRoot() && TreeHash(t) != ZeroHash
  {
    hide Canon, NodeItem, KnownTree, EncodeAll, Blob, WrapList, EncodeStr, Split;
    KnownShape(t);
    BlobForm(t);
    SplitWrapped(EncodeAll(NodeItem(t).items), []);
    SplitStr([], []);
  }

  class Trie {
    var db: Store
    var root: Node
    var cachegen: uint16
    var cachelimit: uint16
    ghost var contents: Contents
    ghost var tree: Tree

    /** The loaded nodes stand for a canonical tree that holds the contents. */
    ghost predicate Valid()
      reads this
    {
      Holds(tree, contents) && Rep(root, tree, true) && Honest(db)
    }

    /** Whatever is not in memory can be loaded. */
    ghost predicate Complete()
      requires Valid()
      reads this
    {
      Avail(root, tree, db)
    }

    constructor (db: Store, root: Node, cachelimit: uint16, ghost tree: Tree, ghost contents: Contents)
      requires Holds(tree, contents) && Rep(root, tree, true) && Honest(db)
      ensures Valid() && this.tree == tree && this.contents == contents && this.db == db
      ensures this.root == root && cachegen == 0 && this.cachelimit == cachelimit
    {
      this.db, this.root, this.cachegen, this.cachelimit := db, root, 0, cachelimit;
      this.tree, this.contents := tree, contents;
    }

    /** New: the zero hash and the empty root need no database. */
    static method Open(rootHash: Hash, db: Store, ghost tree: Tree, ghost contents: Contents)
        returns (r: Result<Trie, Missing>)
      requires Holds(tree, contents) && KnownTree(tree) && Honest(db) && Known(Encode(Str([])))
      requires rootHash == RootHash(tree) || (rootHash == ZeroHash && tree.Empty?)
      ensures r.Ok? ==> fresh(r.value) && r.value.Valid() && r.value.contents == contents && r.value.db == db
      ensures r.Ok? ==> r.value.cachegen == 0 && r.value.cachelimit == 0
      ensures r.Ok? ==> if tree.Empty? then r.value.root.Nil? else Touched(r.value.root, 0)
      ensures r.Err? <==> !tree.Empty? && rootHash !in db
      ensures r.Err? ==> r.error == Missing(rootHash, [])
      ensures Stored(tree, db, true) ==> r.Ok? && r.value.Complete()
    {
      hide Holds, Rep, Avail, KnownTree, Honest, Encode, AllHashed;
      assert Canon(tree) && !tree.Leaf? by {
        HoldsCanon(tree, contents);
      }
      var root := Nil;
      if !tree.Empty? {
        NotEmptyRoot(tree);
      } else {
        NilRep(db, true);
      }
      if rootHash != ZeroHash && rootHash != EmptyRoot() {
        var loaded := ResolveHash(db, 0, rootHash, [], tree, true);
        if loaded.Err? {
          return Err(loaded.error);
        }
        root := loaded.value;
      }
      var trie := new Trie(db, root, 0, tree, contents);
      r := Ok(trie);
    }

    /** The answer is the map's; a missing node leaves the trie as it was. */
    method TryGet(key: Bytes) returns (r: Result<Option<Bytes>, Missing>)
      requires Valid() && KnownTree(tree)
      modifies this`root
      ensures Valid()
      ensures r.Ok? ==> r.value == if key in contents then Some(contents[key]) else None
      ensures r.Ok? ==> LoadedOn(root, Hex(key))
      ensures r.Err? ==> root == old(root) && r.error.hash !in db
      ensures r.Err? ==> r.error.path <= Hex(key) && Canon(tree) && HashedAt(tree, r.error.path, r.error.hash)
      ensures old(Complete()) ==> r.Ok? && Complete()
    {
      hide Holds, Rep, Avail, AllHashed, KnownTree, Honest, Hex, Lookup;
      HoldsCanon(tree, contents);
      HoldsGet(tree, contents, key);
      var k := KeybytesToHex(key);
      assert k[0..] == k;
      var got := TryGetAt(db, cachegen, root, k, 0, tree, true);
      if got.Err? {
        assert k[..0] == [];
        LostFromRoot(tree, k, got.error);
        return Err(got.error);
      }
      if got.value.resolved {
        root := got.value.node;
      }
      r := Ok(got.value.value);
    }

    /** An empty value deletes; a missing node leaves the trie as it was. */
    method TryUpdate(key: Bytes, value: Bytes) returns (r: Result<(), Missing>)
      requires Valid() && KnownTree(tree)
      modifies this`root, this`tree, this`contents
      ensures Valid()
      ensures r.Ok? ==> contents == MapStep(old(contents), Update(key, value))
      ensures r.Err? ==> contents == old(contents) && root == old(root) && tree == old(tree) && r.error.hash !in db
      ensures r.Err? ==> r.error.path <= Hex(key) && Canon(tree)
      ensures r.Err? && value != [] ==> HashedAt(tree, r.error.path, r.error.hash)
      ensures old(Complete()) ==> r.Ok? && Complete()
    {
      if |value| != 0 {
        r := DoInsert(key, value);
      } else {
        r := TryDelete(key);
      }
    }

    method DoInsert(key: Bytes, value: Bytes) returns (r: Result<(), Missing>)
      requires Valid() && KnownTree(tree) && |value| != 0
      modifies this`root, this`tree, this`contents
      ensures Valid()
      ensures r.Ok? ==> contents == old(contents)[key := value]
      ensures r.Err? ==> contents == old(contents) && root == old(root) && tree == old(tree) && r.error.hash !in db
      ensures r.Err? ==> r.error.path <= Hex(key) && Canon(tree) && HashedAt(tree, r.error.path, r.error.hash)
      ensures old(Complete()) ==> r.Ok? && Complete()
    {
      hide Holds, Rep, Avail, KnownTree, Honest, Hex, Insert;
      HoldsCanon(tree, contents);
      HoldsInsert(tree, contents, key, value);
      var k := KeybytesToHex(key);
      var res := InsertAt(db, cachegen, root, [], k, value, tree, true);
      if res.Err? {
        LostFromRoot(tree, k, res.error);
        return Err(res.error);
      }
      root := res.value.node;
      tree, contents := Insert(tree, k, Leaf(value)), contents[key := value];
      r := Ok(());
    }

    /** The error of a deletion has the path of a branch when what is missing is the one child the branch has left. */
    method TryDelete(key: Bytes) returns (r: Result<(), Missing>)
      requires Valid() && KnownTree(tree)
      modifies this`root, this`tree, this`contents
      ensures Valid()
      ensures r.Ok? ==> contents == old(contents) - {key}
      ensures r.Err? ==> contents == old(contents) && root == old(root) && tree == old(tree) && r.error.hash !in db
      ensures r.Err? ==> r.error.path <= Hex(key) && Canon(tree)
      ensures r.Err? && !HashedAt(tree, r.error.path, r.error.hash) ==>
                exists i: nibble ::
                  !(r.error.path + [i] <= Hex(key)) && HashedAt(tree, r.error.path + [i], r.error.hash)
      ensures old(Complete()) ==> r.Ok? && Complete()
    {
      hide Holds, Rep, Avail, KnownTree, Honest, Hex, Delete;
      HoldsCanon(tree, contents);
      HoldsDelete(tree, contents, key);
      var k := KeybytesToHex(key);
      var res := DeleteAt(db, cachegen, root, [], k, tree, true);
      if res.Err? {
        LostFromRoot(tree, k, res.error);
        return Err(res.error);
      }
      root := res.value.node;
      tree, contents := Delete(tree, k), contents - {key};
      r := Ok(());
    }

    method HashRoot(store: bool) returns (h: Hash, cached: Node, db': Store, log: seq<Record>)
      requires Valid() && (store ==> KnownTree(tree))
      ensures h == RootHash(tree) && RootOf(h, contents)
      ensures Rep(cached, tree, true) && AllHashed(cached, tree)
      ensures Extends(db, db') && Honest(db') && (!store ==> db' == db)
      ensures Complete() ==> Avail(cached, tree, db') && (store ==> Stored(tree, db', true))
      ensures cached.Short? || cached.Full? ==> cached.flags.hash == Some(h)
      ensures db' == Replay(db, log) && (Complete() ==> LogOk(db, log))
      ensures Pruned(Config(cachegen, cachelimit, store), root, cached)
    {
      hide Holds, Rep, Avail, AllHashed, KnownTree, Honest, RootOf, Stored, Replay, LogOk;
      HoldsCanon(tree, contents);
      RootUnique(tree, contents);
      RepShape(root, tree, true);
      if root.Nil? {
        EmptyPass(db);
        LogNone(db);
        return EmptyRoot(), Nil, db, [];
      }
      var hashed;
      hashed, cached, db', log := HashNode(Config(cachegen, cachelimit, store), root, db, true, tree);
      h := hashed.hash;
      if cached.Short? || cached.Full? {
        CachedHash(cached, tree, true);
      }
    }

    /** The root hash depends on the contents only; nothing is written. */
    method Hash() returns (h: Hash)
      requires Valid()
      modifies this`root
      ensures Valid() && RootOf(h, contents) && h == RootHash(tree)
      ensures AllHashed(root, tree)
      ensures root.Short? || root.Full? ==> root.flags.hash == Some(h)
      ensures old(Complete()) ==> Complete()
    {
      hide Holds, Rep, Avail, AllHashed, KnownTree, Honest, RootOf, Stored;
      HoldsCanon(tree, contents);
      var cached, db', log;
      h, cached, db', log := HashRoot(false);
      root := cached;
    }

    /** Everything reachable is in the database afterwards, old clean nodes may
        have been dropped from memory, and nothing observable changed. The log is
        what was inserted and referenced on the way, children first. */
    method Commit() returns (h: Hash, log: seq<Record>)
      requires Valid() && KnownTree(tree)
      modifies this`root, this`db, this`cachegen
      ensures Valid() && RootOf(h, contents) && h == RootHash(tree)
      ensures Extends(old(db), db)
      ensures old(Complete()) ==> Complete() && Stored(tree, db, true)
      ensures cachegen == (old(cachegen) + 1) % 0x1_0000
      ensures Pruned(Config(old(cachegen), cachelimit, true), old(root), root)
      ensures db == Replay(old(db), log) && (old(Complete()) ==> LogOk(old(db), log))
    {
      hide Holds, Rep, Avail, AllHashed, KnownTree, Honest, RootOf, Stored, Replay, LogOk;
      HoldsCanon(tree, contents);
      var cached, db';
      h, cached, db', log := HashRoot(true);
      root, db := cached, db';
      cachegen := (cachegen + 1) % 0x1_0000;
    }
  }

  lemma HoldsCanon(t: Tree, m: Contents)
    requires Holds(t, m)
    ensures Canon(t) && !t.Leaf?
  {
  }

  lemma EmptyPass(db: Store)
    ensures Rep(Nil, Empty, true) && AllHashed(Nil, Empty) && Avail(Nil, Empty, db) && Stored(Empty, db, true)
    ensures Extends(db, db)
  {
  }
}
