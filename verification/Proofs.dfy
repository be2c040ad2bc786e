/** Merkle proofs: collecting the nodes on the path to a key, and checking them
    against a root hash (trie/proof.go). */
module Proofs {
  import opened Common
  import opened HexKeys
  import opened Trees
  import opened Rlp
  import opened Merkle
  import opened Nodes
  import opened Represent
  import opened TrieOps
  import opened Hasher

  // ----- the path to a key

  datatype Pos = Pos(tree: Tree, rest: Path)

  /** One node down the path of k; a mismatch ends at the empty tree. */
  function Follow(t: Tree, k: Path): (p: Pos)
    requires Canon(t) && IsNode(t) && k != []
    ensures Canon(p.tree) && |p.rest| < |k|
  {
    if t.Branch? then Pos(t.children[k[0]], k[1..])
    else if t.key <= k then Pos(t.child, k[|t.key|..])
    else Pos(Empty, [])
  }

  lemma FollowOk(t: Tree, k: Path)
    requires Canon(t) && IsNode(t) && Fits(t, k)
    ensures var p := Follow(t, k); Fits(p.tree, p.rest) && Lookup(t, k) == Lookup(p.tree, p.rest)
    ensures KnownTree(t) ==> KnownTree(Follow(t, k).tree)
  {
    hide Canon, Lookup, Terminated, KnownTree;
    if KnownTree(t) {
      KnownShape(t);
      EmptyStep(map[]);
    }
    LookupValue(Empty, []);
    if t.Branch? {
      FitsBranch(t, k);
      LookupBranch(t, k);
    } else {
      LookupExt(t, k);
      if t.key <= k {
        FitsExt(t, k);
      }
    }
  }

  lemma EmptyStep(db: Store)
    ensures Canon(Empty) && KnownTree(Empty) && Rep(Nil, Empty, false) && Avail(Nil, Empty, db)
  {
  }

  /** The nodes on the longest existing prefix of k. */
  function PathNodes(t: Tree, k: Path): (ts: seq<Tree>)
    requires Canon(t)
    ensures forall i | 0 <= i < |ts| :: Canon(ts[i]) && IsNode(ts[i])
    decreases |k|
  {
    if k == [] || !IsNode(t) then [] else
    var p := Follow(t, k);
    [t] + PathNodes(p.tree, p.rest)
  }

  /** The proof of k: the root, and every further node that is not embedded. */
  function Elements(t: Tree, k: Path, top: bool): (es: seq<Tree>)
    requires Canon(t)
    ensures forall i | 0 <= i < |es| :: Canon(es[i]) && IsNode(es[i])
    decreases |k|
  {
    if k == [] || !IsNode(t) then [] else
    var p := Follow(t, k);
    (if top || Big(t) then [t] else []) + Elements(p.tree, p.rest, false)
  }

  /** Every proof element of the path is in db. */
  ghost predicate Provable(db: Store, t: Tree, k: Path, top: bool)
    requires Canon(t)
    decreases |k|
  {
    k == [] || !IsNode(t) ||
    (&& (top || Big(t) ==> TreeHash(t) in db)
     && var p := Follow(t, k);
        Provable(db, p.tree, p.rest, false))
  }

  function PutAll(db: Store, es: seq<Tree>): Store
    requires forall i | 0 <= i < |es| :: Canon(es[i]) && IsNode(es[i])
  {
    if es == [] then db
    else PutAll(db, es[..|es| - 1])[TreeHash(es[|es| - 1]) := Blob(es[|es| - 1])]
  }

  /** A database that takes a proof proves the key, and stays honest. */
  lemma {:induction false} PutAllHas(db: Store, es: seq<Tree>)
    requires forall i | 0 <= i < |es| :: Canon(es[i]) && IsNode(es[i])
    ensures forall i | 0 <= i < |es| :: TreeHash(es[i]) in PutAll(db, es)
    ensures Honest(db) && (forall i | 0 <= i < |es| :: Known(Blob(es[i]))) ==> Honest(PutAll(db, es))
  {
    hide Canon, Blob, Known;
    if es != [] {
      var front, last := es[..|es| - 1], es[|es| - 1];
      PutAllHas(db, front);
      forall i | 0 <= i < |es| ensures TreeHash(es[i]) in PutAll(db, es) {
        if i < |front| {
          assert front[i] == es[i];
        }
      }
      if Honest(db) && (forall i | 0 <= i < |es| :: Known(Blob(es[i]))) {
        forall i | 0 <= i < |front| ensures Known(Blob(front[i])) {
          assert front[i] == es[i];
        }
      }
    }
  }

  lemma {:induction false} ElementsKnown(t: Tree, k: Path, top: bool)
    requires Canon(t) && KnownTree(t) && Fits(t, k)
    ensures forall e | e in Elements(t, k, top) :: Canon(e) && IsNode(e) && Known(Blob(e))
    decreases |k|
  {
    hide Canon, Known, Blob, KnownTree, Follow, Fits;
    if k != [] && IsNode(t) {
      KnownShape(t);
      FollowOk(t, k);
      ElementsKnown(Follow(t, k).tree, Follow(t, k).rest, false);
    }
  }

  lemma {:induction false} ElementsProvable(db: Store, t: Tree, k: Path, top: bool)
    requires Canon(t)
    requires forall e | e in Elements(t, k, top) :: Canon(e) && IsNode(e) && TreeHash(e) in db
    ensures Provable(db, t, k, top)
    decreases |k|
  {
    hide Canon, TreeHash, Big, Follow;
    if k != [] && IsNode(t) {
      var p := Follow(t, k);
      var rest := Elements(p.tree, p.rest, false);
      assert Elements(t, k, top) == (if top || Big(t) then [t] else []) + rest;
      assert top || Big(t) ==> t in Elements(t, k, top);
      ElementsProvable(db, p.tree, p.rest, false);
    }
  }

  // ----- Prove

  /** n and key continue as the path does. */
  ghost predicate At(n: Node, key: Path, p: Pos, root: bool)
    requires Canon(p.tree)
  {
    Rep(n, p.tree, root) && Fits(p.tree, p.rest) && KnownTree(p.tree) && (n.Nil? || key == p.rest)
  }

  /** One step of the path loop over a loaded node. */
  method PathStep(n: Node, key: Path, ghost p: Pos, ghost root: bool, ghost db: Store) returns (n': Node, key': Path)
    requires Canon(p.tree) && At(n, key, p, root) && key != [] && (n.Short? || n.Full?)
    ensures IsNode(p.tree) && p.rest != [] && At(n', key', Follow(p.tree, p.rest), false)
    ensures Avail(n, p.tree, db) ==> Avail(n', Follow(p.tree, p.rest).tree, db)
  {
    hide Canon, Rep, Avail, KnownTree, Fits;
    RepShape(n, p.tree, root);
    FollowOk(p.tree, p.rest);
    EmptyStep(db);
    if Avail(n, p.tree, db) {
      AvailShape(n, p.tree, db, root);
    }
    if n.Full? {
      n', key' := n.children[key[0]], key[1..];
    } else if |key| < |n.key| || n.key != key[..|n.key|] {
      n', key' := Nil, key;
    } else {
      n', key' := n.val, key[|n.key|..];
    }
  }

  /** The loaded nodes stand for the path, the first of them for the root. */
  ghost predicate Collected(nodes: seq<Node>, ts: seq<Tree>) {
    && |nodes| == |ts|
    && (forall i | 0 <= i < |ts| :: Canon(ts[i]) && IsNode(ts[i]))
    && forall i | 0 <= i < |ts| :: (nodes[i].Short? || nodes[i].Full?) && Rep(nodes[i], ts[i], i == 0)
  }

  lemma CollectStep(nodes: seq<Node>, ts: seq<Tree>, n: Node, t: Tree)
    requires Collected(nodes, ts) && Canon(t) && IsNode(t) && (n.Short? || n.Full?) && Rep(n, t, ts == [])
    ensures Collected(nodes + [n], ts + [t])
  {
    hide Canon, Rep;
  }

  /** A node on the path to k has hash h. */
  ghost predicate OnPath(t: Tree, k: Path, h: Hash)
    requires Canon(t)
  {
    exists i :: 0 <= i < |PathNodes(t, k)| && h == TreeHash(PathNodes(t, k)[i])
  }

  /** The first loop of Prove: all nodes on the path to key. */
  method CollectPath(db: Store, gen: uint16, root: Node, hexKey: Path, ghost t: Tree)
      returns (r: Result<seq<Node>, Missing>)
    requires Honest(db) && Canon(t) && KnownTree(t) && Rep(root, t, true) && Fits(t, hexKey)
    ensures r.Ok? ==> Collected(r.value, PathNodes(t, hexKey))
    ensures r.Err? ==> !Avail(root, t, db) && r.error.hash !in db && r.error.path == []
    ensures r.Err? ==> OnPath(t, hexKey, r.error.hash)
  {
    hide Canon, Rep, Avail, KnownTree, Honest, Fits, AllHashed, Stored, Collected, Follow, LoadedAs, PathNodes;
    hide TreeHash;
    var key, tn, nodes := hexKey, root, [];
    ghost var p, ts := Pos(t, hexKey), [];
    CollectedNil();
    while |key| > 0 && !tn.Nil?
      invariant Canon(p.tree) && At(tn, key, p, ts == [])
      invariant Collected(nodes, ts)
      invariant PathNodes(t, hexKey) == ts + PathNodes(p.tree, p.rest)
      invariant Avail(root, t, db) ==> Avail(tn, p.tree, db)
      decreases |p.rest|, tn.HashRef?
    {
      RepShape(tn, p.tree, ts == []);
      if tn.Short? || tn.Full? {
        CollectStep(nodes, ts, tn, p.tree);
        nodes := nodes + [tn];
        ghost var here := p.tree;
        NodeKey(p.tree, p.rest);
        PathNodesStep(p.tree, p.rest);
        tn, key := PathStep(tn, key, p, ts == [], db);
        p := Follow(p.tree, p.rest);
        assert ts + ([here] + PathNodes(p.tree, p.rest)) == (ts + [here]) + PathNodes(p.tree, p.rest);
        ts := ts + [here];
      } else {
        FitsNode(p.tree, p.rest);
        if Avail(tn, p.tree, db) {
          AvailShape(tn, p.tree, db, ts == []);
        }
        var res := ResolveHash(db, gen, tn.hash, [], p.tree, ts == []);
        if res.Err? {
          PathNodesStep(p.tree, p.rest);
          assert PathNodes(t, hexKey)[|ts|] == p.tree;
          return Err(res.error);
        }
        tn := res.value;
      }
    }
    RepShape(tn, p.tree, ts == []);
    PathNodesEnd(p.tree, p.rest);
    assert ts + [] == ts;
    r := Ok(nodes);
  }

  lemma PathNodesStep(t: Tree, k: Path)
    requires Canon(t) && IsNode(t) && k != []
    ensures var p := Follow(t, k); PathNodes(t, k) == [t] + PathNodes(p.tree, p.rest)
  {
  }

  lemma PathNodesEnd(t: Tree, k: Path)
    requires Canon(t) && (k == [] || !IsNode(t))
    ensures PathNodes(t, k) == []
  {
  }

  lemma CollectedNil()
    ensures Collected([], [])
  {
  }

  lemma FitsNode(t: Tree, k: Path)
    requires Fits(t, k) && k != []
    ensures !t.Leaf?
  {
  }

  /** The proof elements among the nodes of a path. */
  function Chosen(ts: seq<Tree>, top: bool): (es: seq<Tree>)
    requires forall i | 0 <= i < |ts| :: Canon(ts[i]) && IsNode(ts[i])
    ensures forall i | 0 <= i < |es| :: Canon(es[i]) && IsNode(es[i])
    decreases |ts|
  {
    if ts == [] then [] else (if top || Big(ts[0]) then [ts[0]] else []) + Chosen(ts[1..], false)
  }

  lemma {:induction false} ChosenElements(t: Tree, k: Path, top: bool)
    requires Canon(t)
    ensures Chosen(PathNodes(t, k), top) == Elements(t, k, top)
    decreases |k|
  {
    hide Canon, Big, Follow;
    if k != [] && IsNode(t) {
      var p := Follow(t, k);
      ChosenElements(p.tree, p.rest, false);
      assert PathNodes(t, k)[0] == t && PathNodes(t, k)[1..] == PathNodes(p.tree, p.rest);
    }
  }

  /** Prove writes exactly the proof elements from level fromLevel on. */
  method Prove(db: Store, gen: uint16, root: Node, key: Bytes, fromLevel: nat, proofDb: Store, ghost t: Tree)
      returns (r: Result<Store, Missing>)
    requires Honest(db) && Canon(t) && KnownTree(t) && Rep(root, t, true) && !t.Leaf?
    ensures r.Ok? ==>
              var es := Elements(t, Hex(key), true);
              r.value == PutAll(proofDb, if fromLevel <= |es| then es[fromLevel..] else [])
    ensures r.Err? ==> !Avail(root, t, db) && r.error.hash !in db && OnPath(t, Hex(key), r.error.hash)
  {
    hide Canon, Rep, Avail, KnownTree, Honest, Hex, PathNodes, Elements, Chosen, Blob, OnPath;
    var hexKey := KeybytesToHex(key);
    var collected := CollectPath(db, gen, root, hexKey, t);
    if collected.Err? {
      return Err(collected.error);
    }
    ChosenElements(t, hexKey, true);
    var proof := WriteProof(collected.value, fromLevel, proofDb, PathNodes(t, hexKey));
    r := Ok(proof);
  }

  /** The second loop of Prove. */
  method WriteProof(nodes: seq<Node>, fromLevel: nat, proofDb: Store, ghost ts: seq<Tree>) returns (db: Store)
    requires Collected(nodes, ts)
    ensures var es := Chosen(ts, true);
            db == PutAll(proofDb, if fromLevel <= |es| then es[fromLevel..] else [])
  {
    hide Canon, Rep, Big, TreeHash, Blob, PutAll, Chosen;
    db := proofDb;
    var level := fromLevel;
    ghost var es, done := Chosen(ts, true), 0;
    assert ts[0..] == ts && es[0..] == es;
    PutNone(proofDb);
    for i := 0 to |nodes|
      invariant done <= |es| && Chosen(ts[i..], i == 0) == es[done..]
      invariant level == if done <= fromLevel then fromLevel - done else 0
      invariant db == PutAll(proofDb, if fromLevel <= done then es[fromLevel..done] else [])
    {
      ChosenStep(ts, i, i == 0, es, done);
      var hash, enc := ProofElement(nodes[i], i == 0, ts[i]);
      if hash.Some? {
        if level > 0 {
          level := level - 1;
          assert fromLevel == done + 1 ==> es[fromLevel..done + 1] == [];
        } else {
          PutNext(proofDb, es, fromLevel, done);
          db := db[hash.value := enc];
        }
        done := done + 1;
      }
    }
    ChosenNone(ts[|nodes|..], |nodes| == 0);
    assert fromLevel <= done ==> es[fromLevel..done] == es[fromLevel..];
  }

  lemma PutNone(db: Store)
    ensures PutAll(db, []) == db
  {
  }

  lemma ChosenNone(ts: seq<Tree>, top: bool)
    requires ts == []
    ensures Chosen(ts, top) == []
  {
  }

  lemma ChosenStep(ts: seq<Tree>, i: nat, top: bool, es: seq<Tree>, done: nat)
    requires i < |ts| && forall j | 0 <= j < |ts| :: Canon(ts[j]) && IsNode(ts[j])
    requires done <= |es| && Chosen(ts[i..], top) == es[done..]
    ensures if top || Big(ts[i]) then done < |es| && es[done] == ts[i] && Chosen(ts[i + 1..], false) == es[done + 1..]
            else Chosen(ts[i + 1..], false) == es[done..]
  {
    hide Canon, Big;
    assert ts[i..][0] == ts[i] && ts[i..][1..] == ts[i + 1..];
    if top || Big(ts[i]) {
      assert es[done..] == [ts[i]] + Chosen(ts[i + 1..], false);
      assert es[done..][1..] == es[done + 1..];
    }
  }

  lemma PutNext(db: Store, es: seq<Tree>, from: nat, to: nat)
    requires forall i | 0 <= i < |es| :: Canon(es[i]) && IsNode(es[i])
    requires from <= to < |es|
    ensures PutAll(db, es[from..to + 1]) == PutAll(db, es[from..to])[TreeHash(es[to]) := Blob(es[to])]
  {
    hide Canon, TreeHash, Blob;
    var s := es[from..to + 1];
    assert s[..|s| - 1] == es[from..to] && s[|s| - 1] == es[to];
  }

  /** The hash and blob a node contributes, if it is not embedded. */
  method ProofElement(n: Node, first: bool, ghost t: Tree) returns (hash: Option<Hash>, enc: Bytes)
    requires Canon(t) && IsNode(t) && (n.Short? || n.Full?) && Rep(n, t, first)
    ensures hash == if first || Big(t) then Some(TreeHash(t)) else None
    ensures enc == Blob(t)
  {
    hide Canon, Rep, NodeItem, Encode, WalkOk, Avail, AllHashed;
    EmptyHonest();
    var item, refs, leaves, walked, db', log := HashChildren(Config(0, 0, false), n, map[], first, t);
    if n.flags.hash.Some? {
      CachedHash(n, t, first);
    }
    var hashed, db'', log' := StoreNode(Config(0, 0, false), item, refs, leaves, n.flags.hash, map[], false, t);
    enc := Encode(item);
    hash := None;
    if hashed.Hashed? || first {
      hash := Some(if hashed.Hashed? then hashed.hash else Keccak(enc));
    }
  }

  // ----- VerifyProof

  datatype ProofError = MissingProofNode(hash: Hash)

  /** What decoding leaves of the tree at a position of the path. */
  ghost predicate Decoded(n: Node, p: Pos, first: bool)
    requires Canon(p.tree)
  {
    if first then IsNode(p.tree) && n == Shallow(p.tree, Some(TreeHash(p.tree)), 0) else n == ShallowRef(p.tree, 0)
  }

  /** get: walk inside one decoded node until a hash, a value or nothing. */
  method GetInNode(n: Node, key: Path, ghost p: Pos, ghost db: Store) returns (rest: Path, cld: Node, ghost q: Pos)
    requires Canon(p.tree) && Decoded(n, p, true) && key == p.rest && Fits(p.tree, p.rest)
    ensures Canon(q.tree) && Decoded(cld, q, false) && (cld.Nil? || cld.Value? || (cld.HashRef? && rest == q.rest))
    ensures Fits(q.tree, q.rest) && (KnownTree(p.tree) ==> KnownTree(q.tree))
    ensures Lookup(p.tree, p.rest) == Lookup(q.tree, q.rest)
    ensures cld.HashRef? ==> |q.rest| < |p.rest|
    ensures Provable(db, p.tree, p.rest, true) <==> TreeHash(p.tree) in db && Provable(db, q.tree, q.rest, false)
    ensures Elements(p.tree, p.rest, true) == [p.tree] + Elements(q.tree, q.rest, false)
  {
    hide Canon, Fits, KnownTree, Lookup, Provable, TreeHash, Decoded, Follow, Elements;
    rest, cld, q := key, n, p;
    ghost var first := true;
    DecodedShape(cld, q, first);
    while cld.Short? || cld.Full?
      invariant Canon(q.tree) && Decoded(cld, q, first) && Fits(q.tree, q.rest) && (cld.Nil? || rest == q.rest)
      invariant KnownTree(p.tree) ==> KnownTree(q.tree)
      invariant Lookup(p.tree, p.rest) == Lookup(q.tree, q.rest)
      invariant first ==> q == p && (cld.Short? || cld.Full?)
      invariant !first ==> |q.rest| < |p.rest|
      invariant !first ==>
                  (Provable(db, p.tree, p.rest, true) <==>
                   TreeHash(p.tree) in db && Provable(db, q.tree, q.rest, false))
      invariant !first ==> Elements(p.tree, p.rest, true) == [p.tree] + Elements(q.tree, q.rest, false)
      decreases |q.rest|
    {
      DecodedShape(cld, q, first);
      NodeKey(q.tree, q.rest);
      FollowOk(q.tree, q.rest);
      ProvableStep(db, q, first);
      ElementsStep(q, first);
      DecodedStep(cld, rest, q, first);
      if cld.Short? {
        if |rest| < |cld.key| || cld.key != rest[..|cld.key|] {
          cld := Nil;
        } else {
          rest, cld := rest[|cld.key|..], cld.val;
        }
      } else {
        rest, cld := rest[1..], cld.children[rest[0]];
      }
      q, first := Follow(q.tree, q.rest), false;
    }
  }

  lemma NodeKey(t: Tree, k: Path)
    requires Fits(t, k) && IsNode(t)
    ensures k != []
  {
  }

  lemma DecodedShape(n: Node, p: Pos, first: bool)
    requires Canon(p.tree) && Decoded(n, p, first)
    ensures n.Short? ==> p.tree.Ext? && n.key == p.tree.key
    ensures n.Full? ==> p.tree.Branch? && |n.children| == 17
    ensures (n.Short? || n.Full?) && !first ==> !Big(p.tree)
    ensures first ==> n.Short? || n.Full?
    ensures n.HashRef? ==> IsNode(p.tree) && Big(p.tree) && n.hash == TreeHash(p.tree)
    ensures n.Value? ==> p.tree == Leaf(n.value)
    ensures n.Nil? ==> p.tree.Empty?
  {
    hide Canon, Big;
    var t := p.tree;
    if !first && IsNode(t) && !Big(t) {
      assert n == Shallow(t, None, 0);
    }
  }

  /** Stepping down a decoded node follows the path. */
  lemma DecodedStep(n: Node, key: Path, p: Pos, first: bool)
    requires Canon(p.tree) && Decoded(n, p, first) && key == p.rest && key != [] && (n.Short? || n.Full?)
    requires n.Short? ==> p.tree.Ext? && n.key == p.tree.key
    requires n.Full? ==> p.tree.Branch? && |n.children| == 17
    ensures var q := Follow(p.tree, p.rest);
            if n.Full? then Decoded(n.children[key[0]], q, false) && key[1..] == q.rest
            else if |key| < |n.key| || n.key != key[..|n.key|] then Decoded(Nil, q, false)
            else Decoded(n.val, q, false) && key[|n.key|..] == q.rest
  {
    hide Canon, Big;
    NilShallow();
    var hash := if first then Some(TreeHash(p.tree)) else None;
    assert n == Shallow(p.tree, hash, 0);
  }

  lemma NilShallow()
    ensures Canon(Empty) && ShallowRef(Empty, 0) == Nil
  {
  }

  lemma ProvableStep(db: Store, p: Pos, first: bool)
    requires Canon(p.tree) && IsNode(p.tree) && p.rest != [] && (first || !Big(p.tree))
    ensures var q := Follow(p.tree, p.rest);
            Provable(db, p.tree, p.rest, first) <==>
            (first ==> TreeHash(p.tree) in db) && Provable(db, q.tree, q.rest, false)
  {
    hide Canon, Big, Follow;
  }

  lemma ElementsStep(p: Pos, first: bool)
    requires Canon(p.tree) && IsNode(p.tree) && p.rest != [] && (first || !Big(p.tree))
    ensures var q := Follow(p.tree, p.rest);
            Elements(p.tree, p.rest, first) == (if first then [p.tree] else []) + Elements(q.tree, q.rest, false)
    ensures !first ==>
              var q := Follow(p.tree, p.rest); Elements(p.tree, p.rest, first) == Elements(q.tree, q.rest, false)
  {
    hide Canon, Big, Follow;
  }

  lemma ProvableHashed(db: Store, t: Tree, k: Path)
    requires Canon(t) && IsNode(t) && Big(t)
    ensures Provable(db, t, k, false) <==> Provable(db, t, k, true)
    ensures Elements(t, k, false) == Elements(t, k, true)
  {
    hide Canon, Big, Follow;
  }

  lemma ProvableValue(db: Store, t: Tree, k: Path)
    requires Canon(t) && !IsNode(t)
    ensures Provable(db, t, k, false) && Elements(t, k, false) == []
  {
  }

  /** The first of these proof elements that is missing. */
  ghost predicate FirstMissing(db: Store, es: seq<Tree>, i: nat, h: Hash)
    requires forall j | 0 <= j < |es| :: Canon(es[j]) && IsNode(es[j])
  {
    && i < |es| && TreeHash(es[i]) == h && h !in db
    && forall j | 0 <= j < i :: TreeHash(es[j]) in db
  }

  /** On content-addressed proofs: an answer is the trie's own answer, and there is one exactly when the proof
      elements of the path are present. The count is that of the elements read, the last one only if it holds
      the value. */
  method VerifyProof(rootHash: Hash, key: Bytes, proofDb: Store, ghost t: Tree)
      returns (r: Result<Option<Bytes>, ProofError>, nodes: nat)
    requires Honest(proofDb) && Canon(t) && IsNode(t) && KnownTree(t) && rootHash == TreeHash(t)
    ensures r.Ok? ==> r.value == Lookup(t, Hex(key))
    ensures r.Ok? <==> Provable(proofDb, t, Hex(key), true)
    ensures r.Ok? ==> nodes == |Elements(t, Hex(key), true)| - if r.value.Some? then 0 else 1
    ensures r.Err? ==> FirstMissing(proofDb, Elements(t, Hex(key), true), nodes, r.error.hash)
  {
    hide Canon, KnownTree, Lookup, Provable, Hex, DecodeNode, Blob, Shallow, ShallowRef, Big, Elements, TreeHash;
    var k := KeybytesToHex(key);
    var wantHash := rootHash;
    nodes := 0;
    ghost var p := Pos(t, k);
    ghost var es := Elements(t, Hex(key), true);
    while true
      invariant Canon(p.tree) && IsNode(p.tree) && KnownTree(p.tree) && wantHash == TreeHash(p.tree)
      invariant k == p.rest && Fits(p.tree, p.rest)
      invariant Lookup(t, Hex(key)) == Lookup(p.tree, p.rest)
      invariant Provable(proofDb, t, Hex(key), true) <==> Provable(proofDb, p.tree, p.rest, true)
      invariant nodes <= |es| && es[nodes..] == Elements(p.tree, p.rest, true)
      invariant forall j | 0 <= j < nodes :: TreeHash(es[j]) in proofDb
      decreases |p.rest|
    {
      NodeKey(p.tree, p.rest);
      ProvableStep(proofDb, p, true);
      ElementsStep(p, true);
      assert es[nodes..][0] == p.tree;
      if wantHash !in proofDb {
        return Err(MissingProofNode(wantHash)), nodes;
      }
      BlobAt(proofDb, p.tree);
      var n := DecodeNode(Some(wantHash), proofDb[wantHash], 0);
      ghost var q;
      var rest, cld;
      rest, cld, q := GetInNode(n.value, k, p, proofDb);
      DecodedShape(cld, q, false);
      LookupValue(q.tree, q.rest);
      assert es[nodes + 1..] == Elements(q.tree, q.rest, false);
      match cld
      case Nil =>
        ProvableValue(proofDb, q.tree, q.rest);
        return Ok(None), nodes;
      case Value(v) =>
        ProvableValue(proofDb, q.tree, q.rest);
        return Ok(Some(v)), nodes + 1;
      case HashRef(h) =>
        ProvableHashed(proofDb, q.tree, q.rest);
        k, wantHash, p, nodes := rest, h, q, nodes + 1;
    }
  }

  lemma BlobAt(db: Store, t: Tree)
    requires Honest(db) && Canon(t) && IsNode(t) && KnownTree(t) && TreeHash(t) in db
    ensures db[TreeHash(t)] == Blob(t)
    ensures DecodeNode(Some(TreeHash(t)), Blob(t), 0) == Ok(Shallow(t, Some(TreeHash(t)), 0))
  {
    hide Canon, KnownTree, DecodeNode, Blob, Shallow;
    KnownShape(t);
    DecodeNodeOf(t, Some(TreeHash(t)), 0, []);
    assert Blob(t) + [] == Blob(t);
  }

  /** Proof completeness: the proof of a key, written to any honest database,
      verifies and gives what the trie gives. */
  lemma ProofComplete(proofDb: Store, t: Tree, k: Path)
    requires Honest(proofDb) && Canon(t) && KnownTree(t) && IsNode(t) && Fits(t, k)
    ensures Honest(PutAll(proofDb, Elements(t, k, true)))
    ensures Provable(PutAll(proofDb, Elements(t, k, true)), t, k, true)
  {
    hide Canon, KnownTree, Elements, PutAll, Provable, Honest;
    var es := Elements(t, k, true);
    ElementsKnown(t, k, true);
    PutAllHas(proofDb, es);
    ElementsProvable(PutAll(proofDb, es), t, k, true);
  }

  /** The round trip itself. */
  method ProveThenVerify(db: Store, gen: uint16, root: Node, key: Bytes, proofDb: Store, ghost t: Tree)
      returns (r: Result<Option<Bytes>, ProofError>, missing: bool)
    requires Honest(db) && Honest(proofDb) && Canon(t) && KnownTree(t) && IsNode(t) && Rep(root, t, true)
    ensures missing ==> !Avail(root, t, db)
    ensures !missing ==> r == Ok(Lookup(t, Hex(key)))
  {
    hide Canon, KnownTree, Elements, PutAll, Provable, Honest, Rep, Avail, Hex, Lookup;
    var proof := Prove(db, gen, root, key, 0, proofDb, t);
    if proof.Err? {
      return Err(MissingProofNode(proof.error.hash)), true;
    }
    ProofComplete(proofDb, t, Hex(key));
    assert Elements(t, Hex(key), true)[0..] == Elements(t, Hex(key), true);
    var hashed, cached, db', log := HashNode(Config(gen, 0, false), root, db, true, t);
    var nodes;
    r, nodes := VerifyProof(hashed.hash, key, proof.value, t);
    missing := false;
  }
}
