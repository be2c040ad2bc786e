/** The copy-on-write trie over a lazily loaded database (trie/trie.go). */
module TrieOps {
  import opened Common
  import opened HexKeys
  import opened Trees
  import opened Merkle
  import opened Nodes
  import opened Represent

  /** MissingNodeError: the node's hash and the path to it. */
  datatype Missing = Missing(hash: Hash, path: Path)

  /** The first n of key lead, from prefix, to the reported path; the missing node is there or, with a step, one step
      aside of the key. */
  ghost predicate LostAt(t: Tree, prefix: Path, key: Path, e: Missing, n: nat, step: Path)
    requires Canon(t)
  {
    && n <= |key| && e.path == prefix + key[..n] && HashedAt(t, key[..n] + step, e.hash)
    && (step == [] || (|step| == 1 && n < |key| && step[0] != key[n]))
  }

  /** The missing node is on the way to key, and the error says where. */
  ghost predicate LostOn(t: Tree, prefix: Path, key: Path, e: Missing)
    requires Canon(t)
  {
    exists n: nat :: LostAt(t, prefix, key, e, n, [])
  }

  /** The missing node is beside the way to key, and the error says where its parent is. */
  ghost predicate LostBeside(t: Tree, prefix: Path, key: Path, e: Missing)
    requires Canon(t)
  {
    exists n: nat, i: nibble :: LostAt(t, prefix, key, e, n, [i])
  }

  lemma LostHere(t: Tree, prefix: Path, key: Path, e: Missing)
    requires Canon(t) && IsNode(t) && e == Missing(TreeHash(t), prefix)
    ensures LostOn(t, prefix, key, e)
  {
    hide TreeHash;
    assert key[..0] + [] == [] && prefix + key[..0] == prefix;
    assert LostAt(t, prefix, key, e, 0, []);
  }

  lemma LostSibling(t: Tree, prefix: Path, key: Path, i: nibble, e: Missing)
    requires Canon(t) && t.Branch? && i < 16 && key != [] && i != key[0] && IsNode(t.children[i])
    requires e == Missing(TreeHash(t.children[i]), prefix)
    ensures LostBeside(t, prefix, key, e)
  {
    hide TreeHash;
    assert key[..0] + [i] == [i] && [i][1..] == [] && prefix + key[..0] == prefix;
    assert NodeAt(t, [i]) == NodeAt(t.children[i], []);
    assert LostAt(t, prefix, key, e, 0, [i]);
  }

  /** What is lost below one step of the key is lost below its start. */
  lemma LostStep(t: Tree, prefix: Path, key: Path, m: nat, u: Tree, e: Missing, n: nat, step: Path)
    requires Canon(t) && 0 < m <= |key| && Canon(u)
    requires if t.Ext? then t.key == key[..m] && u == t.child else t.Branch? && m == 1 && u == t.children[key[0]]
    requires LostAt(u, prefix + key[..m], key[m..], e, n, step)
    ensures LostAt(t, prefix, key, e, m + n, step)
  {
    hide HashedAt;
    var p := key[m..][..n] + step;
    assert key[..m + n] == key[..m] + key[m..][..n];
    assert prefix + key[..m + n] == prefix + key[..m] + key[m..][..n];
    var q := key[..m + n] + step;
    assert q == key[..m] + p && q[m..] == p && q[..m] == key[..m];
    assert NodeAt(t, q) == NodeAt(u, p);
    HashedSame(t, q, u, p, e.hash);
  }

  lemma HashedSame(t: Tree, q: Path, u: Tree, p: Path, h: Hash)
    requires Canon(t) && Canon(u) && NodeAt(t, q) == NodeAt(u, p)
    ensures HashedAt(t, q, h) <==> HashedAt(u, p, h)
  {
    hide NodeAt;
  }

  lemma LostBelow(t: Tree, prefix: Path, key: Path, m: nat, u: Tree, e: Missing)
    requires Canon(t) && 0 < m <= |key| && Canon(u)
    requires if t.Ext? then t.key == key[..m] && u == t.child else t.Branch? && m == 1 && u == t.children[key[0]]
    ensures LostOn(u, prefix + key[..m], key[m..], e) ==> LostOn(t, prefix, key, e)
    ensures LostBeside(u, prefix + key[..m], key[m..], e) ==> LostBeside(t, prefix, key, e)
  {
    hide LostAt;
    if LostOn(u, prefix + key[..m], key[m..], e) {
      var n: nat :| LostAt(u, prefix + key[..m], key[m..], e, n, []);
      LostStep(t, prefix, key, m, u, e, n, []);
    }
    if LostBeside(u, prefix + key[..m], key[m..], e) {
      var n: nat, i: nibble :| LostAt(u, prefix + key[..m], key[m..], e, n, [i]);
      LostStep(t, prefix, key, m, u, e, n, [i]);
    }
  }

  /** From the root the reported path is a prefix of the key, and ends at the missing node or at its parent. */
  lemma LostFromRoot(t: Tree, key: Path, e: Missing)
    requires Canon(t) && (LostOn(t, [], key, e) || LostBeside(t, [], key, e))
    ensures e.path <= key
    ensures LostOn(t, [], key, e) ==> HashedAt(t, e.path, e.hash)
    ensures LostBeside(t, [], key, e) ==>
              exists i: nibble :: !(e.path + [i] <= key) && HashedAt(t, e.path + [i], e.hash)
  {
    hide HashedAt;
    if LostOn(t, [], key, e) {
      var n: nat :| LostAt(t, [], key, e, n, []);
      assert [] + key[..n] == key[..n] && key[..n] + [] == key[..n];
    }
    if LostBeside(t, [], key, e) {
      var n: nat, i: nibble :| LostAt(t, [], key, e, n, [i]);
      assert [] + key[..n] == key[..n] && (e.path + [i])[n] == i;
    }
  }

  /** A missing blob is an error; otherwise the node is loaded as far as it is
      embedded. */
  method ResolveHash(db: Store, gen: uint16, h: Hash, prefix: Path, ghost t: Tree, ghost root: bool)
      returns (r: Result<Node, Missing>)
    requires Honest(db) && Canon(t) && KnownTree(t) && IsNode(t) && LoadedAs(t, Some(h), root)
    ensures r == if h in db then Ok(Shallow(t, Some(h), gen)) else Err(Missing(h, prefix))
    ensures r.Ok? ==> Touched(r.value, gen)
    ensures r.Err? ==> h == TreeHash(t)
    ensures r.Ok? ==> (r.value.Short? || r.value.Full?) && Rep(r.value, t, root) && AllHashed(r.value, t)
    ensures Stored(t, db, true) ==> r.Ok? && Avail(r.value, t, db)
  {
    hide Canon, Blob, DecodeNode, Rep, Avail, AllHashed;
    if h !in db {
      return Err(Missing(h, prefix));
    }
    assert db[h] == Blob(t);
    DecodeNodeOf(t, Some(h), gen, []);
    assert Blob(t) + [] == Blob(t);
    var d := DecodeNode(Some(h), db[h], gen);
    r := Ok(d.value);
    Reloaded(t, h, gen, db, root);
  }

  lemma PrefixAt(a: Path, key: Path, pos: nat)
    requires pos <= |key|
    ensures a <= key[pos..] <==> |key| - pos >= |a| && a == key[pos..pos + |a|]
    ensures |key| - pos >= |a| ==> key[pos..][|a|..] == key[pos + |a|..]
  {
    if |key| - pos >= |a| {
      assert key[pos..][..|a|] == key[pos..pos + |a|];
    }
  }

  datatype Got = Got(value: Option<Bytes>, node: Node, resolved: bool)

  /** What a lookup below n must return. */
  ghost predicate GetOk(r: Result<Got, Missing>, db: Store, n: Node, key: Path, rest: Path, t: Tree, root: bool)
    requires Canon(t) && |rest| <= |key|
  {
    match r
    case Ok(got) =>
      && got.value == Lookup(t, rest)
      && Rep(got.node, t, root)
      && (!got.resolved ==> got.node == n)
      && (AllHashed(n, t) ==> AllHashed(got.node, t))
      && (Avail(n, t, db) ==> Avail(got.node, t, db))
    case Err(e) =>
      !Avail(n, t, db) && e.hash !in db && LostOn(t, key[..|key| - |rest|], rest, e)
  }

  /** No node on the way to key has to be loaded. */
  predicate LoadedOn(n: Node, key: Path)
    decreases n
  {
    match n
    case Short(k, v, _) => k <= key ==> LoadedOn(v, key[|k|..])
    case Full(ch, _) => key != [] && key[0] < |ch| ==> LoadedOn(ch[key[0]], key[1..])
    case HashRef(_) => false
    case _ => true
  }

  /** A loaded node that carries this generation. */
  predicate Touched(n: Node, gen: uint16) {
    (n.Short? || n.Full?) && n.flags.gen == gen
  }

  /** A node made by this generation: dirty, and without a hash. */
  predicate Made(n: Node, gen: uint16) {
    Touched(n, gen) && n.flags.dirty && n.flags.hash.None?
  }

  method TryGetAt(db: Store, gen: uint16, n: Node, key: Path, pos: nat, ghost t: Tree, ghost root: bool)
      returns (r: Result<Got, Missing>)
    requires Honest(db) && Canon(t) && KnownTree(t) && Rep(n, t, root)
    requires pos <= |key| && Fits(t, key[pos..])
    ensures GetOk(r, db, n, key, key[pos..], t, root)
    ensures r.Ok? && r.value.resolved ==> Touched(r.value.node, gen)
    ensures r.Ok? ==> LoadedOn(r.value.node, key[pos..])
    decreases t, n.HashRef?
  {
    hide TreeHash, Big, Shallow, Terminated, Canon, Rep, Avail, AllHashed, Honest, KnownTree, LoadedAs, Stored, Lookup;
    hide LostOn;
    RepShape(n, t, root);
    if n.Nil? || n.Value? {
      LookupValue(t, key[pos..]);
      r := Ok(Got(if n.Nil? then None else Some(n.value), n, false));
    } else if n.Short? {
      r := TryGetShort(db, gen, n, key, pos, t, root);
    } else if n.Full? {
      r := TryGetFull(db, gen, n, key, pos, t, root);
    } else {
      if Avail(n, t, db) {
        AvailShape(n, t, db, root);
      }
      var child := ResolveHash(db, gen, n.hash, key[..pos], t, root);
      if child.Err? {
        LostHere(t, key[..pos], key[pos..], child.error);
        return Err(child.error);
      }
      r := TryGetAt(db, gen, child.value, key, pos, t, root);
      if r.Ok? {
        r := Ok(r.value.(resolved := true));
      }
    }
  }

  lemma ShortMiss(db: Store, n: Node, key: Path, pos: nat, t: Tree, root: bool)
    requires Canon(t) && n.Short? && Rep(n, t, root) && pos <= |key|
    requires !(|key| - pos >= |n.key| && n.key == key[pos..pos + |n.key|])
    ensures GetOk(Ok(Got(None, n, false)), db, n, key, key[pos..], t, root) && LoadedOn(n, key[pos..])
  {
    hide Canon, Rep, Avail, AllHashed, Lookup, LostOn;
    RepShape(n, t, root);
    LookupExt(t, key[pos..]);
    PrefixAt(n.key, key, pos);
  }

  lemma ShortHit(db: Store, n: Node, got: Got, key: Path, rest: Path, gen: uint16, t: Tree, root: bool)
    requires Canon(t) && n.Short? && Rep(n, t, root) && n.key <= rest && |rest| <= |key|
    requires t.Ext? ==> Canon(t.child) && GetOk(Ok(got), db, n.val, key, rest[|n.key|..], t.child, false)
    requires LoadedOn(got.node, rest[|n.key|..])
    ensures var n' := if got.resolved then Short(n.key, got.node, n.flags.(gen := gen)) else n;
            GetOk(Ok(got.(node := n')), db, n, key, rest, t, root) && LoadedOn(n', rest)
  {
    hide Canon, Rep, Avail, AllHashed, Lookup, LostOn;
    RepShape(n, t, root);
    LookupExt(t, rest);
    if Avail(n, t, db) {
      AvailShape(n, t, db, root);
    }
    if AllHashed(n, t) {
      HashedShape(n, t, root);
    }
    if got.resolved {
      ReloadShort(n, got.node, gen, t, db, root);
    }
  }

  method TryGetShort(db: Store, gen: uint16, n: Node, key: Path, pos: nat, ghost t: Tree, ghost root: bool)
      returns (r: Result<Got, Missing>)
    requires Honest(db) && Canon(t) && KnownTree(t) && n.Short? && Rep(n, t, root)
    requires pos <= |key| && Fits(t, key[pos..])
    ensures GetOk(r, db, n, key, key[pos..], t, root)
    ensures r.Ok? && r.value.resolved ==> Touched(r.value.node, gen)
    ensures r.Ok? ==> LoadedOn(r.value.node, key[pos..])
    decreases t, false, 0
  {
    hide Terminated, Canon, Rep, Avail, AllHashed, Honest, KnownTree, Lookup, GetOk, LoadedOn;
    ghost var rest := key[pos..];
    RepShape(n, t, root);
    KnownShape(t);
    PrefixAt(n.key, key, pos);
    if |key| - pos < |n.key| || n.key != key[pos..pos + |n.key|] {
      ShortMiss(db, n, key, pos, t, root);
      return Ok(Got(None, n, false));
    }
    FitsExt(t, rest);
    r := TryGetAt(db, gen, n.val, key, pos + |n.key|, t.child, false);
    if r.Ok? {
      ShortHit(db, n, r.value, key, rest, gen, t, root);
      var n' := if r.value.resolved then Short(n.key, r.value.node, n.flags.(gen := gen)) else n;
      r := Ok(r.value.(node := n'));
    } else {
      ShortLost(db, n, r.error, key, pos, t, root);
    }
  }

  lemma ShortLost(db: Store, n: Node, e: Missing, key: Path, pos: nat, t: Tree, root: bool)
    requires Canon(t) && n.Short? && Rep(n, t, root) && pos <= |key| && n.key <= key[pos..]
    requires t.Ext? ==> Canon(t.child) && GetOk(Err(e), db, n.val, key, key[pos..][|n.key|..], t.child, false)
    ensures GetOk(Err(e), db, n, key, key[pos..], t, root)
  {
    hide Canon, Rep, Avail, LostOn;
    RepShape(n, t, root);
    CanonExt(t);
    PrefixAt(n.key, key, pos);
    GetLost(key, pos, |n.key|, t, t.child, e);
    if Avail(n, t, db) {
      AvailShape(n, t, db, root);
    }
  }

  lemma GetLost(key: Path, pos: nat, m: nat, t: Tree, u: Tree, e: Missing)
    requires Canon(t) && Canon(u) && 0 < m && pos + m <= |key|
    requires if t.Ext? then t.key == key[pos..pos + m] && u == t.child
             else t.Branch? && m == 1 && u == t.children[key[pos]]
    requires LostOn(u, key[..pos + m], key[pos + m..], e)
    ensures LostOn(t, key[..pos], key[pos..], e)
  {
    hide LostOn, LostBeside;
    var rest := key[pos..];
    assert rest[..m] == key[pos..pos + m] && rest[m..] == key[pos + m..];
    assert key[..pos] + rest[..m] == key[..pos + m];
    LostBelow(t, key[..pos], rest, m, u, e);
  }

  method TryGetFull(db: Store, gen: uint16, n: Node, key: Path, pos: nat, ghost t: Tree, ghost root: bool)
      returns (r: Result<Got, Missing>)
    requires Honest(db) && Canon(t) && KnownTree(t) && n.Full? && Rep(n, t, root)
    requires pos <= |key| && Fits(t, key[pos..])
    ensures GetOk(r, db, n, key, key[pos..], t, root)
    ensures r.Ok? && r.value.resolved ==> Touched(r.value.node, gen)
    ensures r.Ok? ==> LoadedOn(r.value.node, key[pos..])
    decreases t, false, 0
  {
    hide TreeHash, Big, Shallow, Terminated, Canon, Rep, Avail, AllHashed, Honest, KnownTree, LoadedAs, Stored, Lookup;
    hide LostOn;
    ghost var rest := key[pos..];
    RepShape(n, t, root);
    KnownShape(t);
    FitsBranch(t, rest);
    LookupBranch(t, rest);
    assert rest[1..] == key[pos + 1..];
    if Avail(n, t, db) {
      AvailShape(n, t, db, root);
    }
    if AllHashed(n, t) {
      HashedShape(n, t, root);
    }
    var i := key[pos];
    r := TryGetAt(db, gen, n.children[i], key, pos + 1, t.children[i], false);
    if r.Ok? {
      var n' := n;
      if r.value.resolved {
        ReloadFull(n, i, r.value.node, gen, t, db, root);
        n' := Full(n.children[i := r.value.node], n.flags.(gen := gen));
      }
      r := Ok(r.value.(node := n'));
    } else {
      GetLost(key, pos, 1, t, t.children[i], r.error);
    }
  }

  // ----- insert

  datatype Changed = Changed(dirty: bool, node: Node)

  /** What inserting below n must return: dirty exactly when the value changes. */
  ghost predicate InsertOk(r: Result<Changed, Missing>, db: Store, n: Node, prefix: Path, key: Path, value: Bytes,
                           t: Tree, root: bool)
    requires Canon(t)
  {
    var t' := Insert(t, key, Leaf(value));
    match r
    case Ok(c) =>
      && (c.dirty <==> Lookup(t, key) != Some(value))
      && Canon(t') && Rep(c.node, t', root)
      && (Avail(n, t, db) ==> Avail(c.node, t', db))
    case Err(e) =>
      !Avail(n, t, db) && e.hash !in db && LostOn(t, prefix, key, e)
  }

  /** The flags of a node made by this generation. */
  function NewFlag(gen: uint16): Flag {
    Flag(None, gen, true)
  }

  /** insert at a nil position. */
  function GraftNode(key: Path, n: Node, gen: uint16): Node {
    if key == [] then n else Short(key, n, NewFlag(gen))
  }

  lemma GraftRep(key: Path, n: Node, gen: uint16, t: Tree, db: Store)
    requires Canon(t) && Rep(n, t, false) && Canon(Graft(key, t))
    ensures Rep(GraftNode(key, n, gen), Graft(key, t), false)
    ensures Avail(n, t, db) ==> Avail(GraftNode(key, n, gen), Graft(key, t), db)
  {
    hide Rep, Avail;
    if key != [] {
      NewShort(key, n, gen, Ext(key, t), db, false);
    }
  }

  method InsertAt(db: Store, gen: uint16, n: Node, prefix: Path, key: Path, value: Bytes, ghost t: Tree,
                  ghost root: bool)
      returns (r: Result<Changed, Missing>)
    requires Honest(db) && Canon(t) && KnownTree(t) && Rep(n, t, root)
    requires Fits(t, key) && |value| > 0
    ensures InsertOk(r, db, n, prefix, key, value, t, root)
    ensures r.Ok? && r.value.dirty ==> r.value.node.Value? || Made(r.value.node, gen)
    decreases t, n.HashRef?
  {
    hide TreeHash, Big, Shallow, Terminated, Canon, Rep, Avail, AllHashed, Honest, KnownTree, LoadedAs, Stored;
    hide Lookup, Insert, LostOn;
    RepShape(n, t, root);
    LookupValue(t, key);
    InsertCanon(t, key, value);
    if |key| == 0 || n.Nil? {
      r := InsertHere(db, gen, n, prefix, key, value, t, root);
    } else if n.Short? {
      r := InsertShort(db, gen, n, prefix, key, value, t, root);
    } else if n.Full? {
      r := InsertFull(db, gen, n, prefix, key, value, t, root);
    } else {
      if Avail(n, t, db) {
        AvailShape(n, t, db, root);
      }
      var rn := ResolveHash(db, gen, n.hash, prefix, t, root);
      if rn.Err? {
        LostHere(t, prefix, key, rn.error);
        return Err(rn.error);
      }
      var rec := InsertAt(db, gen, rn.value, prefix, key, value, t, root);
      if rec.Ok? && !rec.value.dirty {
        InsertSame(t, key, value);
        return Ok(Changed(false, rn.value));
      }
      r := rec;
    }
  }

  method InsertHere(db: Store, gen: uint16, n: Node, ghost prefix: Path, key: Path, value: Bytes, ghost t: Tree,
                    ghost root: bool)
      returns (r: Result<Changed, Missing>)
    requires Canon(t) && Rep(n, t, root) && Fits(t, key) && |value| > 0
    requires key == [] || n.Nil?
    ensures InsertOk(r, db, n, prefix, key, value, t, root)
    ensures r.Ok? && r.value.dirty ==> r.value.node.Value? || Made(r.value.node, gen)
  {
    RepShape(n, t, root);
    InsertCanon(t, key, value);
    if |key| == 0 {
      r := Ok(Changed(n.Value? ==> n.value != value, Value(value)));
    } else {
      NewShort(key, Value(value), gen, Ext(key, Leaf(value)), db, root);
      r := Ok(Changed(true, Short(key, Value(value), NewFlag(gen))));
    }
  }

  method InsertShort(db: Store, gen: uint16, n: Node, prefix: Path, key: Path, value: Bytes, ghost t: Tree,
                     ghost root: bool)
      returns (r: Result<Changed, Missing>)
    requires Honest(db) && Canon(t) && KnownTree(t) && n.Short? && Rep(n, t, root)
    requires Fits(t, key) && |value| > 0 && key != []
    ensures InsertOk(r, db, n, prefix, key, value, t, root)
    ensures r.Ok? && r.value.dirty ==> r.value.node.Value? || Made(r.value.node, gen)
    decreases t, false, 0
  {
    hide TreeHash, Big, Shallow, Terminated, Canon, Rep, Avail, AllHashed, Honest, KnownTree, LoadedAs, Stored;
    hide Lookup, Insert, LostOn;
    RepShape(n, t, root);
    KnownShape(t);
    InsertCanon(t, key, value);
    LookupExt(t, key);
    NotPrefix(n.key, key);
    InsertExt(t, key, Leaf(value));
    var matchlen := PrefixLen(key, n.key);
    if matchlen < |n.key| {
      r := InsertSplit(db, gen, n, matchlen, prefix, key, value, t, root);
    } else {
      FitsExt(t, key);
      if Avail(n, t, db) {
        AvailShape(n, t, db, root);
      }
      var rec := InsertAt(db, gen, n.val, prefix + key[..matchlen], key[matchlen..], value, t.child, false);
      if rec.Err? {
        CanonExt(t);
        LostBelow(t, prefix, key, matchlen, t.child, rec.error);
        return Err(rec.error);
      }
      if !rec.value.dirty {
        InsertSame(t, key, value);
        return Ok(Changed(false, n));
      }
      NewShort(n.key, rec.value.node, gen, Insert(t, key, Leaf(value)), db, root);
      r := Ok(Changed(true, Short(n.key, rec.value.node, NewFlag(gen))));
    }
  }

  /** Branch out where the keys differ. */
  method InsertSplit(db: Store, gen: uint16, n: Node, m: nat, ghost prefix: Path, key: Path, value: Bytes,
                     ghost t: Tree, ghost root: bool)
      returns (r: Result<Changed, Missing>)
    requires Canon(t) && n.Short? && Rep(n, t, root)
    requires Fits(t, key) && |value| > 0 && key != []
    requires m == CommonLen(key, n.key) < |n.key|
    ensures InsertOk(r, db, n, prefix, key, value, t, root)
    ensures r.Ok? && r.value.dirty ==> r.value.node.Value? || Made(r.value.node, gen)
  {
    hide TreeHash, Big, Terminated, Canon, Rep, Avail, Lookup, Insert, Graft, Fork;
    RepShape(n, t, root);
    InsertCanon(t, key, value);
    LookupExt(t, key);
    NotPrefix(n.key, key);
    InsertExt(t, key, Leaf(value));
    SplitExtOk(t, key, value, m);
    var left := GraftNode(n.key[m + 1..], n.val, gen);
    var right := GraftNode(key[m + 1..], Value(value), gen);
    var branch := ForkNode(n.key[m], left, key[m], right, gen);
    GraftOk(t, m);
    GraftRep(n.key[m + 1..], n.val, gen, t.child, db);
    LeafGraft(key, m, value, gen, db);
    ghost var a, b := Graft(t.key[m + 1..], t.child), Graft(key[m + 1..], Leaf(value));
    if Avail(n, t, db) {
      AvailShape(n, t, db, root);
    }
    if m == 0 {
      ForkRep(t.key[m], left, a, key[m], right, b, gen, db, root);
      r := Ok(Changed(true, branch));
    } else {
      ForkRep(t.key[m], left, a, key[m], right, b, gen, db, false);
      NewShort(key[..m], branch, gen, Insert(t, key, Leaf(value)), db, root);
      r := Ok(Changed(true, Short(key[..m], branch, NewFlag(gen))));
    }
  }

  lemma LeafGraft(key: Path, m: nat, value: Bytes, gen: uint16, db: Store)
    requires Terminated(key) && m < |key| && |value| > 0
    ensures Canon(Graft(key[m + 1..], Leaf(value))) && !Graft(key[m + 1..], Leaf(value)).Empty?
    ensures Rep(GraftNode(key[m + 1..], Value(value), gen), Graft(key[m + 1..], Leaf(value)), false)
    ensures Avail(GraftNode(key[m + 1..], Value(value), gen), Graft(key[m + 1..], Leaf(value)), db)
  {
    GraftOk(Ext(key, Leaf(value)), m);
    GraftRep(key[m + 1..], Value(value), gen, Leaf(value), db);
  }

  function ForkNode(i: nibble, a: Node, j: nibble, b: Node, gen: uint16): Node {
    Full(seq(17, _ => Nil)[i := a][j := b], NewFlag(gen))
  }

  lemma ForkRep(i: nibble, a: Node, ta: Tree, j: nibble, b: Node, tb: Tree, gen: uint16, db: Store, root: bool)
    requires Canon(ta) && Canon(tb) && Canon(Fork(i, ta, j, tb)) && i != j
    requires Rep(a, ta, false) && Rep(b, tb, false)
    ensures Rep(ForkNode(i, a, j, b, gen), Fork(i, ta, j, tb), root)
    ensures Avail(a, ta, db) && Avail(b, tb, db) ==> Avail(ForkNode(i, a, j, b, gen), Fork(i, ta, j, tb), db)
  {
    var n, t := ForkNode(i, a, j, b, gen), Fork(i, ta, j, tb);
    forall x | 0 <= x < 17
      ensures Rep(n.children[x], t.children[x], false)
      ensures Avail(a, ta, db) && Avail(b, tb, db) ==> Avail(n.children[x], t.children[x], db)
    {
      if x != i && x != j {
        assert n.children[x] == Nil && t.children[x] == Empty;
      }
    }
    NewFull(n.children, gen, t, db, root);
  }

  method InsertFull(db: Store, gen: uint16, n: Node, prefix: Path, key: Path, value: Bytes, ghost t: Tree,
                    ghost root: bool)
      returns (r: Result<Changed, Missing>)
    requires Honest(db) && Canon(t) && KnownTree(t) && n.Full? && Rep(n, t, root)
    requires Fits(t, key) && |value| > 0 && key != []
    ensures InsertOk(r, db, n, prefix, key, value, t, root)
    ensures r.Ok? && r.value.dirty ==> r.value.node.Value? || Made(r.value.node, gen)
    decreases t, false, 0
  {
    hide TreeHash, Big, Shallow, Terminated, Canon, Rep, Avail, AllHashed, Honest, KnownTree, LoadedAs, Stored;
    hide Lookup, Insert, LostOn;
    RepShape(n, t, root);
    KnownShape(t);
    InsertCanon(t, key, value);
    FitsBranch(t, key);
    LookupBranch(t, key);
    InsertBranch(t, key, Leaf(value));
    if Avail(n, t, db) {
      AvailShape(n, t, db, root);
    }
    var i := key[0];
    var rec := InsertAt(db, gen, n.children[i], prefix + [i], key[1..], value, t.children[i], false);
    if rec.Err? {
      assert key[..1] == [i];
      LostBelow(t, prefix, key, 1, t.children[i], rec.error);
      return Err(rec.error);
    }
    if !rec.value.dirty {
      InsertSame(t, key, value);
      return Ok(Changed(false, n));
    }
    NewFull(n.children[i := rec.value.node], gen, Insert(t, key, Leaf(value)), db, root);
    r := Ok(Changed(true, Full(n.children[i := rec.value.node], NewFlag(gen))));
  }

  // ----- delete

  /** What deleting below n must return: dirty exactly when the key was there. */
  ghost predicate DeleteOk(r: Result<Changed, Missing>, db: Store, n: Node, prefix: Path, key: Path, t: Tree,
                           root: bool)
    requires Canon(t)
  {
    var t' := Delete(t, key);
    match r
    case Ok(c) =>
      && (c.dirty <==> Lookup(t, key).Some?)
      && (c.dirty ==> !c.node.HashRef?)
      && Canon(t') && Rep(c.node, t', root)
      && (Avail(n, t, db) ==> Avail(c.node, t', db))
    case Err(e) =>
      !Avail(n, t, db) && e.hash !in db && (LostOn(t, prefix, key, e) || LostBeside(t, prefix, key, e))
  }

  method DeleteAt(db: Store, gen: uint16, n: Node, prefix: Path, key: Path, ghost t: Tree, ghost root: bool)
      returns (r: Result<Changed, Missing>)
    requires Honest(db) && Canon(t) && KnownTree(t) && Rep(n, t, root) && Fits(t, key)
    ensures DeleteOk(r, db, n, prefix, key, t, root)
    ensures r.Ok? && r.value.dirty ==> r.value.node.Nil? || Made(r.value.node, gen)
    decreases t, n.HashRef?
  {
    hide TreeHash, Big, Shallow, Terminated, Canon, Rep, Avail, AllHashed, Honest, KnownTree, LoadedAs, Stored;
    hide Lookup, Delete, LostOn, LostBeside;
    RepShape(n, t, root);
    DeleteCanon(t, key);
    if n.Nil? || n.Value? {
      r := DeleteHere(db, n, prefix, key, t, root);
    } else if n.Short? {
      r := DeleteShort(db, gen, n, prefix, key, t, root);
    } else if n.Full? {
      r := DeleteFull(db, gen, n, prefix, key, t, root);
    } else {
      if Avail(n, t, db) {
        AvailShape(n, t, db, root);
      }
      var rn := ResolveHash(db, gen, n.hash, prefix, t, root);
      if rn.Err? {
        LostHere(t, prefix, key, rn.error);
        return Err(rn.error);
      }
      var rec := DeleteAt(db, gen, rn.value, prefix, key, t, root);
      if rec.Ok? && !rec.value.dirty {
        DeleteSame(t, key);
        return Ok(Changed(false, rn.value));
      }
      r := rec;
    }
  }

  method DeleteHere(db: Store, n: Node, ghost prefix: Path, key: Path, ghost t: Tree, ghost root: bool)
      returns (r: Result<Changed, Missing>)
    requires Canon(t) && Rep(n, t, root) && (n.Nil? || n.Value?)
    ensures DeleteOk(r, db, n, prefix, key, t, root) && (r.Ok? ==> r.value.node.Nil?)
  {
    RepShape(n, t, root);
    r := Ok(Changed(n.Value?, Nil));
  }

  method DeleteShort(db: Store, gen: uint16, n: Node, prefix: Path, key: Path, ghost t: Tree, ghost root: bool)
      returns (r: Result<Changed, Missing>)
    requires Honest(db) && Canon(t) && KnownTree(t) && n.Short? && Rep(n, t, root) && Fits(t, key)
    ensures DeleteOk(r, db, n, prefix, key, t, root)
    ensures r.Ok? && r.value.dirty ==> r.value.node.Nil? || Made(r.value.node, gen)
    decreases t, false, 0
  {
    hide TreeHash, Big, Shallow, Terminated, Canon, Rep, Avail, AllHashed, Honest, KnownTree, LoadedAs, Stored;
    hide Lookup, Delete, Merge, LostOn, LostBeside;
    RepShape(n, t, root);
    KnownShape(t);
    DeleteCanon(t, key);
    LookupExt(t, key);
    NotPrefix(n.key, key);
    DeleteExt(t, key);
    var matchlen := PrefixLen(key, n.key);
    if matchlen < |n.key| {
      return Ok(Changed(false, n));
    }
    FitsExt(t, key);
    LookupValue(t.child, key[matchlen..]);
    if matchlen == |key| {
      NilRep(db, root);
      return Ok(Changed(true, Nil));
    }
    if Avail(n, t, db) {
      AvailShape(n, t, db, root);
    }
    var rec := DeleteAt(db, gen, n.val, prefix + key[..|n.key|], key[|n.key|..], t.child, false);
    if rec.Err? {
      CanonExt(t);
      LostBelow(t, prefix, key, |n.key|, t.child, rec.error);
      return Err(rec.error);
    }
    if !rec.value.dirty {
      DeleteSame(t, key);
      return Ok(Changed(false, n));
    }
    MergeRep(n.key, rec.value.node, gen, Delete(t.child, key[|n.key|..]), db, root);
    r := Ok(Changed(true, MergeShort(n.key, rec.value.node, gen)));
  }

  lemma NilRep(db: Store, root: bool)
    ensures Canon(Empty) && Rep(Nil, Empty, root) && Avail(Nil, Empty, db)
  {
  }

  /** A new short node, merged with a short child. */
  function MergeShort(key: Path, c: Node, gen: uint16): Node {
    if c.Short? then Short(key + c.key, c.val, NewFlag(gen)) else Short(key, c, NewFlag(gen))
  }

  lemma MergeRep(key: Path, c: Node, gen: uint16, t: Tree, db: Store, root: bool)
    requires Canon(t) && Rep(c, t, false) && !c.HashRef? && Canon(Merge(key, t))
    ensures Rep(MergeShort(key, c, gen), Merge(key, t), root)
    ensures Avail(c, t, db) ==> Avail(MergeShort(key, c, gen), Merge(key, t), db)
  {
    hide Rep, Avail;
    RepShape(c, t, false);
    if Avail(c, t, db) {
      AvailShape(c, t, db, false);
    }
    if c.Short? {
      NewShort(key + c.key, c.val, gen, Merge(key, t), db, root);
    } else {
      NewShort(key, c, gen, Merge(key, t), db, root);
    }
  }

  /** The index of the single remaining child, -1 if there is none and -2 if
      there are several. */
  method SoleChild(children: seq<Node>) returns (pos: int)
    requires |children| == 17
    ensures -2 <= pos < 17
    ensures pos >= 0 ==> !children[pos].Nil? && forall i | 0 <= i < 17 && i != pos :: children[i].Nil?
    ensures pos == -1 ==> forall i | 0 <= i < 17 :: children[i].Nil?
    ensures pos == -2 ==> exists i, j | 0 <= i < j < 17 :: !children[i].Nil? && !children[j].Nil?
  {
    pos := -1;
    for i := 0 to 17
      invariant -1 <= pos < i
      invariant pos >= 0 ==> !children[pos].Nil?
      invariant forall j | 0 <= j < i && j != pos :: children[j].Nil?
    {
      if !children[i].Nil? {
        if pos == -1 {
          pos := i;
        } else {
          return -2;
        }
      }
    }
  }

  method DeleteFull(db: Store, gen: uint16, n: Node, prefix: Path, key: Path, ghost t: Tree, ghost root: bool)
      returns (r: Result<Changed, Missing>)
    requires Honest(db) && Canon(t) && KnownTree(t) && n.Full? && Rep(n, t, root) && Fits(t, key)
    ensures DeleteOk(r, db, n, prefix, key, t, root)
    ensures r.Ok? && r.value.dirty ==> r.value.node.Nil? || Made(r.value.node, gen)
    decreases t, false, 0
  {
    hide TreeHash, Big, Shallow, Terminated, Canon, Rep, Avail, AllHashed, Honest, KnownTree, LoadedAs, Stored;
    hide Lookup, Delete, Reduce, Reducible, KnownExcept, LostOn, LostBeside;
    RepShape(n, t, root);
    KnownShape(t);
    DeleteCanon(t, key);
    FitsBranch(t, key);
    LookupBranch(t, key);
    DeleteBranch(t, key);
    if Avail(n, t, db) {
      AvailShape(n, t, db, root);
    }
    var i := key[0];
    var rec := DeleteAt(db, gen, n.children[i], prefix + [i], key[1..], t.children[i], false);
    if rec.Err? {
      assert key[..1] == [i];
      LostBelow(t, prefix, key, 1, t.children[i], rec.error);
      return Err(rec.error);
    }
    if !rec.value.dirty {
      DeleteSame(t, key);
      return Ok(Changed(false, n));
    }
    ghost var c := Delete(t.children[i], key[1..]);
    DeleteCanon(t.children[i], key[1..]);
    DeletedReducible(t, i, c);
    KnownReduced(t, i, c);
    ghost var j: nibble;
    r, j := ReduceNode(db, gen, n.children[i := rec.value.node], prefix, t.children[i := c], i, root);
    if r.Err? {
      LostSibling(t, prefix, key, j, r.error);
    }
  }

  /** The children other than the one just deleted from are still known. */
  ghost predicate KnownExcept(ch: seq<Tree>, i: nibble)
    requires Reducible(ch)
  {
    forall j | 0 <= j < 17 && j != i :: KnownTree(ch[j])
  }

  lemma KnownReduced(t: Tree, i: nibble, c: Tree)
    requires Canon(t) && KnownTree(t) && t.Branch? && Reducible(t.children[i := c])
    ensures KnownExcept(t.children[i := c], i)
  {
  }

  /** Turn a branch that lost a child into a short node if one child is left. */
  method ReduceNode(db: Store, gen: uint16, children: seq<Node>, prefix: Path,
                    ghost ch: seq<Tree>, ghost i: nibble, ghost root: bool)
      returns (r: Result<Changed, Missing>, ghost sole: nibble)
    requires Honest(db) && Reducible(ch) && KnownExcept(ch, i) && |children| == 17
    requires forall j | 0 <= j < 17 :: Rep(children[j], ch[j], false)
    requires !children[i].HashRef?
    ensures r.Ok? ==> r.value.dirty && !r.value.node.HashRef? && Made(r.value.node, gen)
    ensures r.Ok? ==> Canon(Reduce(ch)) && Rep(r.value.node, Reduce(ch), root)
    ensures r.Ok? && (forall j | 0 <= j < 17 :: Avail(children[j], ch[j], db)) ==> Avail(r.value.node, Reduce(ch), db)
    ensures r.Err? ==>
              && r.error.hash !in db && !Avail(children[sole], ch[sole], db)
              && sole != i && sole < 16 && IsNode(ch[sole]) && r.error == Missing(TreeHash(ch[sole]), prefix)
  {
    hide TreeHash, Big, Shallow, Canon, Rep, Avail, Honest, Reduce, Merge;
    ReduceCanon(ch);
    ChildShapes(children, ch);
    var pos := SoleChild(children);
    if pos < 0 {
      assert TwoUsed(ch) by {
        var a, b :| 0 <= a < b < 17 && !children[a].Nil? && !children[b].Nil?;
        assert !ch[a].Empty? && !ch[b].Empty?;
      }
      ReduceMany(ch);
      NewFull(children, gen, Branch(ch), db, root);
      return Ok(Changed(true, Full(children, NewFlag(gen)))), 0;
    }
    ReduceSole(ch, pos);
    sole := pos;
    r := SoleNode(db, gen, children[pos], pos, prefix, ch[pos], root);
  }

  lemma ChildShapes(children: seq<Node>, ch: seq<Tree>)
    requires |children| == 17 && Reducible(ch)
    requires forall j | 0 <= j < 17 :: Rep(children[j], ch[j], false)
    ensures forall j | 0 <= j < 17 :: children[j].Nil? <==> ch[j].Empty?
    ensures exists j | 0 <= j < 17 :: !children[j].Nil?
  {
    hide Rep, Canon;
    forall j | 0 <= j < 17 ensures children[j].Nil? <==> ch[j].Empty? {
      RepShape(children[j], ch[j], false);
    }
    assert !children[FirstUsed(ch, 0)].Nil?;
  }

  /** The last child of a branch becomes, or becomes part of, a short node. It is loaded to see which, and if it is
      missing the error has the path of the branch. */
  method SoleNode(db: Store, gen: uint16, child: Node, pos: nibble, prefix: Path, ghost t: Tree, ghost root: bool)
      returns (r: Result<Changed, Missing>)
    requires Honest(db) && Canon(t) && Canon(Merge([pos], t)) && Rep(child, t, false)
    requires child.HashRef? ==> KnownTree(t)
    requires pos == 16 <==> t.Leaf?
    ensures r.Ok? ==> r.value.dirty && r.value.node.Short? && Made(r.value.node, gen)
    ensures r.Ok? ==> Rep(r.value.node, Merge([pos], t), root)
    ensures r.Ok? && Avail(child, t, db) ==> Avail(r.value.node, Merge([pos], t), db)
    ensures r.Err? <==> pos != 16 && child.HashRef? && child.hash !in db
    ensures r.Err? ==>
              r.error.hash !in db && !Avail(child, t, db) && IsNode(t) && r.error == Missing(TreeHash(t), prefix)
  {
    hide TreeHash, Big, Shallow, Canon, Rep, Avail, Honest, KnownTree;
    RepShape(child, t, false);
    if Avail(child, t, db) {
      AvailShape(child, t, db, false);
    }
    if pos != 16 {
      var cnode := child;
      if child.HashRef? {
        var res := ResolveHash(db, gen, child.hash, prefix, t, false);
        if res.Err? {
          return Err(res.error);
        }
        cnode := res.value;
        RepShape(cnode, t, false);
      }
      if cnode.Short? {
        MergeRep([pos], cnode, gen, t, db, root);
        return Ok(Changed(true, Short([pos] + cnode.key, cnode.val, NewFlag(gen))));
      }
    }
    NewShort([pos], child, gen, Ext([pos], t), db, root);
    r := Ok(Changed(true, Short([pos], child, NewFlag(gen))));
  }
}
