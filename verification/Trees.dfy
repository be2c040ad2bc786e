/** Merkle Patricia tries as plain trees: fully loaded, without cached hashes.
    Insert and Delete are the algorithms of trie/trie.go on such trees. */
module Trees {
  import opened Common
  import opened HexKeys

  datatype Tree =
    | Empty
    | Leaf(value: Bytes)
    | Ext(key: Path, child: Tree)
    | Branch(children: seq<Tree>)

  /** At least two children are in use. */
  predicate TwoUsed(ch: seq<Tree>) {
    exists i, j | 0 <= i < j < |ch| :: !ch[i].Empty? && !ch[j].Empty?
  }

  /** Canonical form: no empty and no nested short keys, every branch has two
      children, and values sit exactly behind the terminator. */
  predicate Canon(t: Tree) {
    && (t.Leaf? ==> |t.value| > 0)
    && (t.Ext? ==>
          && |t.key| > 0 && Canon(t.child)
          && if HasTerm(t.key) then Terminated(t.key) && t.child.Leaf? else Digits(t.key) && t.child.Branch?)
    && (t.Branch? ==>
          && |t.children| == 17 && TwoUsed(t.children)
          && (forall i | 0 <= i < 17 :: Canon(t.children[i]))
          && (forall i | 0 <= i < 16 :: !t.children[i].Leaf?)
          && (t.children[16].Leaf? || t.children[16].Empty?))
  }

  /** k can be looked up at t: values take the empty key, other nodes a
      terminated one. */
  predicate Fits(t: Tree, k: Path) {
    if k == [] then t.Leaf? || t.Empty? else Terminated(k) && !t.Leaf?
  }

  /** The subtree at path p, if p ends at a node. */
  function NodeAt(t: Tree, p: Path): (u: Option<Tree>)
    ensures Canon(t) && u.Some? ==> Canon(u.value)
    decreases t
  {
    if p == [] then Some(t)
    else if t.Ext? && t.key <= p then NodeAt(t.child, p[|t.key|..])
    else if t.Branch? && p[0] < |t.children| then NodeAt(t.children[p[0]], p[1..])
    else None
  }

  function Lookup(t: Tree, k: Path): Option<Bytes> {
    match t
    case Empty => None
    case Leaf(v) => Some(v)
    case Ext(key, c) => if key <= k then Lookup(c, k[|key|..]) else None
    case Branch(ch) => if k == [] || |ch| != 17 then None else Lookup(ch[k[0]], k[1..])
  }

  function NoChildren(): (ch: seq<Tree>)
    ensures |ch| == 17 && forall i | 0 <= i < 17 :: ch[i].Empty?
  {
    seq(17, _ => Empty)
  }

  /** insert on an empty position: a subtree pushed down by a key. */
  function Graft(k: Path, t: Tree): Tree {
    if k == [] then t else Ext(k, t)
  }

  function Fork(i: nibble, a: Tree, j: nibble, b: Tree): Tree {
    Branch(NoChildren()[i := a][j := b])
  }

  /** insert (trie/trie.go). The last case panics in the source; no fitting key reaches it. */
  function Insert(t: Tree, k: Path, v: Tree): Tree {
    if k == [] then v else
    match t
    case Empty => Ext(k, v)
    case Ext(key, c) =>
      var m := CommonLen(k, key);
      if m == |key| then Ext(key, Insert(c, k[m..], v))
      else if m < |k| then
        var branch := Fork(key[m], Graft(key[m + 1..], c), k[m], Graft(k[m + 1..], v));
        if m == 0 then branch else Ext(k[..m], branch)
      else t
    case Branch(ch) =>
      if |ch| == 17 then Branch(ch[k[0] := Insert(ch[k[0]], k[1..], v)]) else t
    case Leaf(_) => t
  }

  /** The first used child at or after from, or |ch|. */
  function FirstUsed(ch: seq<Tree>, from: nat): (i: nat)
    requires from <= |ch|
    ensures from <= i <= |ch|
    ensures i < |ch| ==> !ch[i].Empty?
    ensures forall j | from <= j < i :: ch[j].Empty?
    decreases |ch| - from
  {
    if from == |ch| || !ch[from].Empty? then from else FirstUsed(ch, from + 1)
  }

  /** delete's reduction of a branch: a single remaining child turns it into a
      short node, merged with a short child. */
  function Reduce(ch: seq<Tree>): Tree
    requires |ch| == 17
  {
    var i := FirstUsed(ch, 0);
    if i == 17 || FirstUsed(ch, i + 1) < 17 then Branch(ch)
    else if i != 16 && ch[i].Ext? then Ext([i] + ch[i].key, ch[i].child)
    else Ext([i], ch[i])
  }

  /** A short node over a child that may itself have become short. */
  function Merge(key: Path, c: Tree): Tree {
    if c.Ext? then Ext(key + c.key, c.child) else Ext(key, c)
  }

  function Delete(t: Tree, k: Path): Tree {
    match t
    case Empty => Empty
    case Leaf(_) => Empty
    case Ext(key, c) =>
      var m := CommonLen(k, key);
      if m < |key| then t
      else if m == |k| then Empty
      else Merge(key, Delete(c, k[m..]))
    case Branch(ch) =>
      if k == [] || |ch| != 17 then t
      else Reduce(ch[k[0] := Delete(ch[k[0]], k[1..])])
  }

  lemma CanonExt(t: Tree)
    requires t.Ext? && Canon(t)
    ensures |t.key| > 0 && Canon(t.child)
    ensures if HasTerm(t.key) then Terminated(t.key) && t.child.Leaf? else Digits(t.key) && t.child.Branch?
  {
  }

  lemma CanonBranch(t: Tree)
    requires t.Branch? && Canon(t)
    ensures |t.children| == 17 && TwoUsed(t.children)
    ensures forall i | 0 <= i < 17 :: Canon(t.children[i])
    ensures forall i | 0 <= i < 16 :: !t.children[i].Leaf?
    ensures t.children[16].Leaf? || t.children[16].Empty?
  {
  }

  // ----- keys along a path

  lemma LookupValue(t: Tree, k: Path)
    ensures t.Empty? ==> Lookup(t, k) == None
    ensures t.Leaf? ==> Lookup(t, k) == Some(t.value)
  {
  }

  lemma LookupExt(t: Tree, k: Path)
    requires t.Ext?
    ensures Lookup(t, k) == if t.key <= k then Lookup(t.child, k[|t.key|..]) else None
  {
  }

  lemma LookupBranch(t: Tree, k: Path)
    requires t.Branch? && |t.children| == 17 && k != []
    ensures Lookup(t, k) == Lookup(t.children[k[0]], k[1..])
  {
  }

  lemma FitsExt(t: Tree, k: Path)
    requires t.Ext? && Canon(t) && Terminated(k) && t.key <= k
    ensures Canon(t.child) && Fits(t.child, k[|t.key|..])
    ensures k == t.key <==> t.child.Leaf?
  {
    assert k == t.key + k[|t.key|..];
  }

  lemma FitsBranch(t: Tree, k: Path)
    requires t.Branch? && Canon(t) && Terminated(k)
    ensures |t.children| == 17 && Canon(t.children[k[0]]) && Fits(t.children[k[0]], k[1..])
    ensures k[0] == 16 <==> k[1..] == []
  {
  }

  // ----- insert

  lemma InsertExt(t: Tree, k: Path, v: Tree)
    requires t.Ext? && k != []
    ensures var m := CommonLen(k, t.key);
            && (m == |t.key| ==> Insert(t, k, v) == Ext(t.key, Insert(t.child, k[m..], v)))
            && (m < |t.key| && m < |k| ==>
                  var b := Fork(t.key[m], Graft(t.key[m + 1..], t.child), k[m], Graft(k[m + 1..], v));
                  Insert(t, k, v) == if m == 0 then b else Ext(k[..m], b))
  {
  }

  lemma InsertBranch(t: Tree, k: Path, v: Tree)
    requires t.Branch? && |t.children| == 17 && k != []
    ensures Insert(t, k, v) == Branch(t.children[k[0] := Insert(t.children[k[0]], k[1..], v)])
  {
  }

  lemma NotPrefix(key: Path, k: Path)
    ensures CommonLen(k, key) == |key| <==> key <= k
  {
  }

  lemma TermParts(k: Path, m: nat)
    requires Terminated(k) && m < |k|
    ensures Digits(k[..m])
    ensures if k[m] == 16 then m == |k| - 1 && k[m + 1..] == [] else Terminated(k[m + 1..])
  {
  }

  lemma DigitParts(key: Path, m: nat)
    requires Digits(key) && m < |key|
    ensures Digits(key[..m]) && key[m] < 16 && Digits(key[m + 1..])
  {
  }

  lemma GraftOk(t: Tree, m: nat)
    requires t.Ext? && Canon(t) && m < |t.key|
    ensures Canon(Graft(t.key[m + 1..], t.child)) && !Graft(t.key[m + 1..], t.child).Empty?
    ensures t.key[m] == 16 <==> Graft(t.key[m + 1..], t.child).Leaf?
  {
    if HasTerm(t.key) {
      TermParts(t.key, m);
    } else {
      DigitParts(t.key, m);
    }
  }

  lemma ForkOk(i: nibble, a: Tree, j: nibble, b: Tree)
    requires i != j && Canon(a) && Canon(b) && !a.Empty? && !b.Empty?
    requires (i == 16 <==> a.Leaf?) && (j == 16 <==> b.Leaf?)
    ensures Canon(Fork(i, a, j, b))
  {
    var ch := NoChildren()[i := a][j := b];
    assert !ch[i].Empty? && !ch[j].Empty?;
    assert TwoUsed(ch);
    assert forall x | 0 <= x < 17 :: x == i || x == j || ch[x] == Empty;
  }

  lemma SplitExtOk(t: Tree, k: Path, v: Bytes, m: nat)
    requires t.Ext? && Canon(t) && Terminated(k) && |v| > 0
    requires m == CommonLen(k, t.key) < |t.key|
    ensures m < |k| && Digits(k[..m])
    ensures Canon(Fork(t.key[m], Graft(t.key[m + 1..], t.child), k[m], Graft(k[m + 1..], Leaf(v))))
  {
    hide Fork, Graft;
    TermParts(k, m);
    GraftOk(t, m);
    GraftOk(Ext(k, Leaf(v)), m);
    ForkOk(t.key[m], Graft(t.key[m + 1..], t.child), k[m], Graft(k[m + 1..], Leaf(v)));
  }

  lemma BranchUpdate(t: Tree, i: nibble, n: Tree)
    requires t.Branch? && Canon(t) && Canon(n) && !n.Empty? && (i == 16 <==> n.Leaf?)
    ensures Canon(Branch(t.children[i := n]))
  {
    var ch, ch' := t.children, t.children[i := n];
    var a, b :| 0 <= a < b < 17 && !ch[a].Empty? && !ch[b].Empty?;
    assert !ch'[a].Empty? && !ch'[b].Empty?;
  }

  /** Inserting keeps the canonical form. */
  lemma {:induction false} InsertCanon(t: Tree, k: Path, v: Bytes)
    requires Canon(t) && Fits(t, k) && |v| > 0
    ensures var t' := Insert(t, k, Leaf(v));
            Canon(t') && !t'.Empty? && (k == [] <==> t'.Leaf?) && (t.Branch? ==> t'.Branch?)
    decreases t
  {
    if k != [] {
      match t
      case Empty =>
      case Ext(key, c) =>
        InsertExtCanon(t, k, v);
      case Branch(ch) =>
        hide Canon, Terminated;
        FitsBranch(t, k);
        InsertCanon(ch[k[0]], k[1..], v);
        BranchUpdate(t, k[0], Insert(ch[k[0]], k[1..], Leaf(v)));
    }
  }

  lemma {:induction false} InsertExtCanon(t: Tree, k: Path, v: Bytes)
    requires t.Ext? && Canon(t) && Fits(t, k) && |v| > 0 && k != []
    ensures var t' := Insert(t, k, Leaf(v)); Canon(t') && (t'.Ext? || t'.Branch?)
    decreases t, 0
  {
    hide Terminated, Graft;
    var m := CommonLen(k, t.key);
    NotPrefix(t.key, k);
    InsertExt(t, k, Leaf(v));
    if m == |t.key| {
      FitsExt(t, k);
      InsertCanon(t.child, k[m..], v);
    } else {
      SplitExtOk(t, k, v, m);
    }
  }

  /** Looking up a short node one position into its key. */
  lemma LookupExtAt(key: Path, c: Tree, m: nat, q: Path)
    requires m < |key| && m < |q| && key[..m] == q[..m]
    ensures Lookup(Ext(key, c), q) == if q[m] == key[m] then Lookup(Graft(key[m + 1..], c), q[m + 1..]) else None
  {
    assert key == key[..m] + [key[m]] + key[m + 1..];
    assert q == q[..m] + [q[m]] + q[m + 1..];
    if q[m] == key[m] {
      assert key <= q <==> key[m + 1..] <= q[m + 1..];
      assert key <= q ==> q[|key|..] == q[m + 1..][|key[m + 1..]|..];
    }
  }

  lemma LookupFork(i: nibble, a: Tree, j: nibble, b: Tree, q: Path)
    requires q != [] && i != j
    ensures Lookup(Fork(i, a, j, b), q) ==
            if q[0] == i then Lookup(a, q[1..]) else if q[0] == j then Lookup(b, q[1..]) else None
  {
  }

  lemma LookupSingle(k: Path, v: Bytes, q: Path)
    requires Terminated(k) && Terminated(q) && |v| > 0
    ensures Lookup(Ext(k, Leaf(v)), q) == if q == k then Some(v) else None
  {
    if k <= q {
      FitsExt(Ext(k, Leaf(v)), q);
    }
  }

  lemma SplitExtLookup(t: Tree, k: Path, v: Bytes, m: nat, q: Path)
    requires t.Ext? && Canon(t) && Terminated(k) && |v| > 0 && Terminated(q)
    requires m == CommonLen(k, t.key) < |t.key| && m < |k|
    ensures var b := Fork(t.key[m], Graft(t.key[m + 1..], t.child), k[m], Graft(k[m + 1..], Leaf(v)));
            Lookup(if m == 0 then b else Ext(k[..m], b), q) == if q == k then Some(v) else Lookup(t, q)
  {
    hide Fork, Graft;
    var key := t.key;
    var b := Fork(key[m], Graft(key[m + 1..], t.child), k[m], Graft(k[m + 1..], Leaf(v)));
    var t' := if m == 0 then b else Ext(k[..m], b);
    TermParts(k, m);
    LookupSingle(k, v, q);
    if k[..m] <= q {
      assert Lookup(t', q) == Lookup(b, q[m..]) by {
        assert m == 0 ==> q[m..] == q;
      }
      LookupFork(key[m], Graft(key[m + 1..], t.child), k[m], Graft(k[m + 1..], Leaf(v)), q[m..]);
      assert q[m..][1..] == q[m + 1..];
      LookupExtAt(key, t.child, m, q);
      LookupExtAt(k, Leaf(v), m, q);
    }
  }

  /** Inserting changes the lookup of the inserted key only. */
  lemma {:induction false} InsertLookup(t: Tree, k: Path, v: Bytes, q: Path)
    requires Canon(t) && Fits(t, k) && |v| > 0 && Fits(t, q) && (k == [] <==> q == [])
    ensures Lookup(Insert(t, k, Leaf(v)), q) == if q == k then Some(v) else Lookup(t, q)
    decreases t
  {
    hide Canon, Terminated;
    if k != [] {
      match t
      case Empty =>
        LookupSingle(k, v, q);
      case Ext(key, c) =>
        var m := CommonLen(k, key);
        NotPrefix(key, k);
        if m == |key| {
          FitsExt(t, k);
          if key <= q {
            FitsExt(t, q);
            assert k == key + k[m..] && q == key + q[m..];
            InsertLookup(c, k[m..], v, q[m..]);
          }
        } else {
          SplitExtOk(t, k, v, m);
          SplitExtLookup(t, k, v, m, q);
        }
      case Branch(ch) =>
        FitsBranch(t, k);
        FitsBranch(t, q);
        assert k == [k[0]] + k[1..] && q == [q[0]] + q[1..];
        if k[0] == q[0] {
          InsertLookup(ch[k[0]], k[1..], v, q[1..]);
        }
    }
  }

  /** Inserting the value a key already has changes nothing. */
  lemma {:induction false} InsertSame(t: Tree, k: Path, v: Bytes)
    requires Canon(t) && Fits(t, k) && Lookup(t, k) == Some(v)
    ensures Insert(t, k, Leaf(v)) == t
    decreases t
  {
    hide Canon, Terminated;
    if k != [] {
      match t
      case Empty =>
      case Ext(key, c) =>
        NotPrefix(key, k);
        FitsExt(t, k);
        InsertSame(c, k[|key|..], v);
      case Branch(ch) =>
        FitsBranch(t, k);
        InsertSame(ch[k[0]], k[1..], v);
    }
  }

  // ----- delete

  /** The children a reduction may meet: a branch's children, one of which may
      just have been emptied. */
  predicate Reducible(ch: seq<Tree>) {
    && |ch| == 17 && FirstUsed(ch, 0) < 17
    && (forall i | 0 <= i < 17 :: Canon(ch[i]))
    && (forall i | 0 <= i < 16 :: !ch[i].Leaf?)
    && (ch[16].Leaf? || ch[16].Empty?)
  }

  lemma JoinKeys(a: Path, b: Path)
    requires Digits(a) && |b| > 0
    ensures HasTerm(a + b) <==> HasTerm(b)
    ensures Terminated(b) ==> Terminated(a + b)
    ensures Digits(b) ==> Digits(a + b)
  {
  }

  lemma PushKey(i: nibble, t: Tree)
    requires i < 16 && t.Ext? && Canon(t)
    ensures Canon(Ext([i] + t.key, t.child))
  {
    JoinKeys([i], t.key);
  }

  lemma ReduceCanon(ch: seq<Tree>)
    requires Reducible(ch)
    ensures Canon(Reduce(ch)) && (Reduce(ch).Branch? || Reduce(ch).Ext?)
  {
    var i := FirstUsed(ch, 0);
    var j := FirstUsed(ch, i + 1);
    if j < 17 {
      assert TwoUsed(ch);
    } else if i != 16 && ch[i].Ext? {
      PushKey(i, ch[i]);
    }
  }

  lemma LookupMerge(key: Path, c: Tree, q: Path)
    ensures Lookup(Merge(key, c), q) == Lookup(Ext(key, c), q)
  {
    if c.Ext? {
      if key <= q {
        assert q == key + q[|key|..];
        assert key + c.key <= q <==> c.key <= q[|key|..];
        assert key + c.key <= q ==> q[|key + c.key|..] == q[|key|..][|c.key|..];
      }
    }
  }

  lemma ReduceLookup(ch: seq<Tree>, q: Path)
    requires Reducible(ch) && q != []
    ensures Lookup(Reduce(ch), q) == Lookup(ch[q[0]], q[1..])
  {
    var i := FirstUsed(ch, 0);
    if FirstUsed(ch, i + 1) == 17 {
      assert q[0] != i ==> ch[q[0]] == Empty;
      assert i == 16 ==> !ch[i].Ext?;
      assert Reduce(ch) == Merge([i], ch[i]);
      LookupMerge([i], ch[i], q);
      assert [i] <= q <==> q[0] == i;
    }
  }

  lemma DeletedReducible(t: Tree, i: nibble, n: Tree)
    requires t.Branch? && Canon(t)
    requires Canon(n) && if i == 16 then n.Leaf? || n.Empty? else !n.Leaf?
    ensures Reducible(t.children[i := n])
  {
    CanonBranch(t);
    hide Canon;
    var ch, ch' := t.children, t.children[i := n];
    var a, b :| 0 <= a < b < 17 && !ch[a].Empty? && !ch[b].Empty?;
    assert !ch'[if a == i then b else a].Empty?;
  }

  lemma DeleteExt(t: Tree, k: Path)
    requires t.Ext?
    ensures var m := CommonLen(k, t.key);
            Delete(t, k) == if m < |t.key| then t else if m == |k| then Empty else Merge(t.key, Delete(t.child, k[m..]))
  {
  }

  lemma DeleteBranch(t: Tree, k: Path)
    requires t.Branch? && |t.children| == 17 && k != []
    ensures Delete(t, k) == Reduce(t.children[k[0] := Delete(t.children[k[0]], k[1..])])
  {
  }

  lemma ReduceMany(ch: seq<Tree>)
    requires |ch| == 17 && TwoUsed(ch)
    ensures Reduce(ch) == Branch(ch)
  {
    var i, j :| 0 <= i < j < 17 && !ch[i].Empty? && !ch[j].Empty?;
    assert FirstUsed(ch, 0) <= i;
  }

  lemma ReduceSole(ch: seq<Tree>, pos: nibble)
    requires Reducible(ch) && !ch[pos].Empty?
    requires forall i | 0 <= i < 17 && i != pos :: ch[i].Empty?
    ensures Reduce(ch) == Merge([pos], ch[pos])
  {
    assert FirstUsed(ch, 0) == pos;
  }

  /** Deleting keeps the canonical form. */
  lemma {:induction false} DeleteCanon(t: Tree, k: Path)
    requires Canon(t) && Fits(t, k)
    ensures var t' := Delete(t, k);
            Canon(t') && !t'.Leaf? && (k == [] ==> t'.Empty?) && (t.Branch? ==> t'.Branch? || t'.Ext?)
    decreases t
  {
    hide Terminated;
    match t
    case Empty =>
    case Leaf(_) =>
    case Ext(key, c) =>
      var m := CommonLen(k, key);
      NotPrefix(key, k);
      if m == |key| && m < |k| {
        FitsExt(t, k);
        DeleteCanon(c, k[m..]);
        MergeCanon(t, Delete(c, k[m..]));
      }
    case Branch(ch) =>
      FitsBranch(t, k);
      DeleteCanon(ch[k[0]], k[1..]);
      DeletedReducible(t, k[0], Delete(ch[k[0]], k[1..]));
      ReduceCanon(ch[k[0] := Delete(ch[k[0]], k[1..])]);
  }

  lemma MergeCanon(t: Tree, c: Tree)
    requires t.Ext? && Canon(t) && t.child.Branch? && Canon(c) && (c.Branch? || c.Ext?)
    ensures Canon(Merge(t.key, c))
  {
    if c.Ext? {
      JoinKeys(t.key, c.key);
    }
  }

  /** Deleting removes the lookup of the deleted key only. */
  lemma {:induction false} DeleteLookup(t: Tree, k: Path, q: Path)
    requires Canon(t) && Fits(t, k) && Fits(t, q) && (k == [] <==> q == [])
    ensures Lookup(Delete(t, k), q) == if q == k then None else Lookup(t, q)
    decreases t
  {
    hide Canon, Terminated, Reduce, Merge;
    match t
    case Empty =>
    case Leaf(_) =>
    case Ext(key, c) =>
      var m := CommonLen(k, key);
      NotPrefix(key, k);
      if m == |key| {
        FitsExt(t, k);
        if key <= q {
          FitsExt(t, q);
        }
        if m < |k| {
          LookupMerge(key, Delete(c, k[m..]), q);
          if key <= q {
            assert k == key + k[m..] && q == key + q[m..];
            DeleteLookup(c, k[m..], q[m..]);
          }
        }
      }
    case Branch(ch) =>
      FitsBranch(t, k);
      FitsBranch(t, q);
      assert k == [k[0]] + k[1..] && q == [q[0]] + q[1..];
      DeleteCanon(ch[k[0]], k[1..]);
      var n := Delete(ch[k[0]], k[1..]);
      DeletedReducible(t, k[0], n);
      ReduceLookup(ch[k[0] := n], q);
      if k[0] == q[0] {
        DeleteLookup(ch[k[0]], k[1..], q[1..]);
      }
  }

  /** Deleting an absent key changes nothing. */
  lemma {:induction false} DeleteSame(t: Tree, k: Path)
    requires Canon(t) && Fits(t, k) && Lookup(t, k) == None
    ensures Delete(t, k) == t
    decreases t
  {
    hide Terminated, Reduce;
    match t
    case Empty =>
    case Ext(key, c) =>
      NotPrefix(key, k);
      if key <= k {
        FitsExt(t, k);
        DeleteSame(c, k[|key|..]);
      }
    case Branch(ch) =>
      FitsBranch(t, k);
      DeleteSame(ch[k[0]], k[1..]);
      assert ch[k[0] := ch[k[0]]] == ch;
      ReduceMany(ch);
  }

  // ----- canonical trees are determined by their lookups

  /** A key under which a nonempty canonical tree holds a value. */
  lemma {:induction false} Witness(t: Tree) returns (k: Path)
    requires Canon(t) && !t.Empty?
    ensures Fits(t, k) && Lookup(t, k).Some?
    decreases t
  {
    match t
    case Leaf(_) =>
      k := [];
    case Ext(key, c) =>
      var rest := Witness(c);
      k := key + rest;
      assert k[|key|..] == rest;
    case Branch(ch) =>
      var i :| 0 <= i < 17 && !ch[i].Empty?;
      k := WitnessAt(t, i);
  }

  lemma {:induction false} WitnessAt(t: Tree, i: nibble) returns (k: Path)
    requires Canon(t) && t.Branch? && !t.children[i].Empty?
    ensures Terminated(k) && k[0] == i && Lookup(t, k).Some?
    decreases t, 0
  {
    var rest := Witness(t.children[i]);
    k := [i] + rest;
    assert k[1..] == rest;
  }

  lemma OtherUsed(ch: seq<Tree>, avoid: nibble) returns (i: nibble)
    requires |ch| == 17 && TwoUsed(ch)
    ensures i != avoid && !ch[i].Empty?
  {
    var a, b :| 0 <= a < b < 17 && !ch[a].Empty? && !ch[b].Empty?;
    i := if a == avoid then b else a;
  }

  /** a's key is a proper prefix of b's, so a continues with a branch. */
  lemma DistinguishPrefix(a: Tree, b: Tree) returns (k: Path)
    requires Canon(a) && Canon(b) && a.Ext? && b.Ext? && a.key < b.key
    ensures Terminated(k) && Lookup(a, k).Some? && Lookup(b, k) == None
  {
    var m := |a.key|;
    assert b.key[m - 1] == a.key[m - 1] < 16;
    var i := OtherUsed(a.child.children, b.key[m]);
    var rest := WitnessAt(a.child, i);
    k := a.key + rest;
    assert k[m..] == rest && k[m] == i;
  }

  lemma DistinguishKeys(a: Tree, b: Tree) returns (k: Path)
    requires Canon(a) && Canon(b) && a.Ext? && b.Ext? && a.key != b.key
    ensures Terminated(k) && Lookup(a, k) != Lookup(b, k)
  {
    var m := CommonLen(a.key, b.key);
    if m == |a.key| {
      k := DistinguishPrefix(a, b);
    } else if m == |b.key| {
      k := DistinguishPrefix(b, a);
    } else {
      k := Witness(a);
      assert k[m] == a.key[m];
    }
  }

  lemma DistinguishShape(a: Tree, b: Tree) returns (k: Path)
    requires Canon(a) && Canon(b) && a.Ext? && b.Branch?
    ensures Terminated(k) && Lookup(a, k) != Lookup(b, k)
  {
    var i := OtherUsed(b.children, a.key[0]);
    k := WitnessAt(b, i);
  }

  /** Different canonical trees of one kind differ on some key. */
  lemma {:induction false} Distinguish(a: Tree, b: Tree) returns (k: Path)
    requires Canon(a) && Canon(b) && a != b
    requires a.Leaf? ==> b.Leaf? || b.Empty?
    requires b.Leaf? ==> a.Leaf? || a.Empty?
    ensures Fits(a, k) && Fits(b, k) && Lookup(a, k) != Lookup(b, k)
    decreases a
  {
    hide Canon, TwoUsed;
    if a.Empty? {
      k := Witness(b);
    } else if b.Empty? {
      k := Witness(a);
    } else if a.Leaf? {
      k := [];
    } else if a.Ext? && b.Ext? {
      k := DistinguishExt(a, b);
    } else if a.Ext? {
      k := DistinguishShape(a, b);
    } else if b.Ext? {
      k := DistinguishShape(b, a);
    } else {
      k := DistinguishBranch(a, b);
    }
  }

  lemma {:induction false} DistinguishExt(a: Tree, b: Tree) returns (k: Path)
    requires Canon(a) && Canon(b) && a.Ext? && b.Ext? && a != b
    ensures Terminated(k) && Lookup(a, k) != Lookup(b, k)
    decreases a, 0
  {
    if a.key == b.key {
      var rest := Distinguish(a.child, b.child);
      k := a.key + rest;
      assert k[|a.key|..] == rest;
    } else {
      k := DistinguishKeys(a, b);
    }
  }

  lemma {:induction false} DistinguishBranch(a: Tree, b: Tree) returns (k: Path)
    requires Canon(a) && Canon(b) && a.Branch? && b.Branch? && a != b
    ensures Terminated(k) && Lookup(a, k) != Lookup(b, k)
    decreases a, 0
  {
    var i: nibble :| a.children[i] != b.children[i];
    var rest := Distinguish(a.children[i], b.children[i]);
    k := [i] + rest;
    assert k[1..] == rest;
  }
}
