/** The difference of two tries by a simultaneous walk that skips equal subtrees
    (compareNodes and differenceIterator of trie/iterator.go). */
module Difference {
  import opened Common
  import opened HexKeys
  import opened Trees
  import opened Merkle
  import opened Nodes
  import opened Represent
  import opened Walks
  import opened Iterators

  /** bytes.Compare. */
  function CompareBytes(a: seq<int>, b: seq<int>): (c: int)
    ensures c == -1 || c == 0 || c == 1
    ensures c == 0 <==> a == b
  {
    if a == [] && b == [] then 0
    else if a == [] then -1
    else if b == [] then 1
    else if a[0] != b[0] then (if a[0] < b[0] then -1 else 1)
    else
      assert a == [a[0]] + a[1..] && b == [b[0]] + b[1..];
      CompareBytes(a[1..], b[1..])
  }

  lemma {:induction false} ComparePaths(a: Path, b: Path)
    ensures CompareBytes(a, b) == -1 <==> Before(a, b)
    ensures CompareBytes(a, b) == 1 <==> Before(b, a)
    decreases |a|
  {
    if a != [] && b != [] {
      ComparePaths(a[1..], b[1..]);
    }
  }

  /** compareNodes on the two current positions. */
  function CompareNodes(a: Visit, b: Visit): int {
    var c := CompareBytes(a.path, b.path);
    if c != 0 then c
    else if HasTerm(a.path) && !HasTerm(b.path) then -1
    else if HasTerm(b.path) && !HasTerm(a.path) then 1
    else
      var h := CompareBytes(a.hash, b.hash);
      if h != 0 then h
      else if HasTerm(a.path) && HasTerm(b.path) && a.value.Some? && b.value.Some? then
        CompareBytes(a.value.value, b.value.value)
      else 0
  }

  /** Blobs sit exactly at terminated paths, and carry no hash. */
  ghost predicate WellTermed(vs: seq<Visit>) {
    forall v | v in vs :: (HasTerm(v.path) <==> v.value.Some?) && (v.value.Some? ==> v.hash == ZeroHash)
  }

  lemma CompareMeaning(a: Visit, b: Visit)
    requires (HasTerm(a.path) <==> a.value.Some?) && (HasTerm(b.path) <==> b.value.Some?)
    ensures CompareNodes(a, b) == 0 <==> a == b
    ensures CompareNodes(a, b) == -1 ==> a != b && !Before(b.path, a.path)
    ensures CompareNodes(a, b) == 1 ==> a != b && !Before(a.path, b.path)
    ensures CompareNodes(a, b) == -1 || CompareNodes(a, b) == 0 || CompareNodes(a, b) == 1
  {
    hide CompareBytes;
    ComparePaths(a.path, b.path);
  }

  lemma {:induction false} WalkTermed(t: Tree, path: Path, root: bool)
    requires Canon(t) && (if t.Leaf? then HasTerm(path) else Digits(path))
    ensures WellTermed(Walk(t, path, root))
    decreases t, 19
  {
    hide Canon, TreeHash, Big;
    if !t.Leaf? {
      BelowTermed(t, path, -1);
    }
  }

  lemma {:induction false} BelowTermed(t: Tree, path: Path, index: int)
    requires Canon(t) && Digits(path) && -1 <= index
    ensures WellTermed(Below(t, path, index))
    decreases t, if index < 17 then 17 - index else 0
  {
    hide Canon, HashAt, VisitOf;
    if t.Ext? && index < 0 {
      CanonExt(t);
      WalkTermed(t.child, path + t.key, false);
    } else if t.Branch? && index < 16 {
      CanonBranch(t);
      BelowTermed(t, path, index + 1);
      if !t.children[index + 1].Empty? {
        WalkTermed(t.children[index + 1], path + [index + 1], false);
      }
    }
  }

  // ----- walking two lists

  /** The visits of vs that are not in wa. */
  ghost function Minus(vs: seq<Visit>, wa: seq<Visit>): seq<Visit> {
    if vs == [] then [] else (if vs[0] in wa then [] else [vs[0]]) + Minus(vs[1..], wa)
  }

  lemma {:induction false} MinusConcat(a: seq<Visit>, b: seq<Visit>, wa: seq<Visit>)
    requires forall v | v in a :: v in wa
    ensures Minus(a + b, wa) == Minus(b, wa)
  {
    if a == [] {
      assert a + b == b;
    } else {
      assert (a + b)[0] == a[0] && (a + b)[1..] == a[1..] + b;
      MinusConcat(a[1..], b, wa);
    }
  }

  lemma {:induction false} MinusExact(vs: seq<Visit>, wa: seq<Visit>, v: Visit)
    ensures v in Minus(vs, wa) <==> v in vs && v !in wa
  {
    if vs != [] {
      MinusExact(vs[1..], wa, v);
    }
  }

  /** as is what is left of wa, bs what is left of the other walk: on bs,
      membership in wa is decided by as. */
  ghost predicate InStep(wa: seq<Visit>, as_: seq<Visit>, bs: seq<Visit>) {
    && Increasing(as_) && Increasing(bs)
    && (forall v | v in as_ :: v in wa)
    && (forall v | v in bs :: v in wa <==> v in as_)
  }

  lemma IncreasingTail(x: Visit, vs: seq<Visit>)
    requires Increasing([x] + vs)
    ensures Increasing(vs) && forall v | v in vs :: Before(x.path, v.path)
  {
    var all := [x] + vs;
    forall i, j | 0 <= i < j < |vs| ensures Before(vs[i].path, vs[j].path) {
      assert all[i + 1] == vs[i] && all[j + 1] == vs[j];
    }
    forall v | v in vs ensures Before(x.path, v.path) {
      var j :| 0 <= j < |vs| && vs[j] == v;
      assert all[0] == x && all[j + 1] == v;
    }
  }

  lemma DropA(wa: seq<Visit>, x: Visit, as_: seq<Visit>, y: Visit, bs: seq<Visit>)
    requires InStep(wa, [x] + as_, [y] + bs) && x != y && !Before(y.path, x.path)
    ensures InStep(wa, as_, [y] + bs)
  {
    hide Before;
    IncreasingTail(x, as_);
    IncreasingTail(y, bs);
    assert forall v | v in [y] + bs :: v in wa <==> v in [x] + as_;
  }

  lemma EmitB(wa: seq<Visit>, x: Visit, as_: seq<Visit>, y: Visit, bs: seq<Visit>)
    requires InStep(wa, [x] + as_, [y] + bs) && x != y && !Before(x.path, y.path)
    ensures y !in wa && InStep(wa, [x] + as_, bs)
  {
    hide Before;
    IncreasingTail(x, as_);
    IncreasingTail(y, bs);
    assert y in [y] + bs;
    assert forall v | v in bs :: v in [y] + bs;
  }

  lemma SkipBoth(wa: seq<Visit>, x: Visit, s: seq<Visit>, as_: seq<Visit>, bs: seq<Visit>)
    requires InStep(wa, [x] + (s + as_), [x] + (s + bs))
    ensures InStep(wa, as_, bs)
    ensures x in wa && forall v | v in s :: v in wa
  {
    hide Before;
    IncreasingTail(x, s + as_);
    IncreasingTail(x, s + bs);
    IncreasingSuffix(s, as_);
    IncreasingSuffix(s, bs);
    assert x in [x] + (s + as_);
    forall v | v in s ensures v in wa {
      assert v in [x] + (s + as_);
    }
    forall v | v in as_ ensures v in wa {
      assert v in [x] + (s + as_);
    }
    forall v | v in bs ensures v in wa <==> v in as_ {
      assert v in [x] + (s + bs);
      BeforeIrreflexive(v.path);
    }
  }

  lemma IncreasingSuffix(s: seq<Visit>, vs: seq<Visit>)
    requires Increasing(s + vs)
    ensures Increasing(vs) && forall u, v | u in s && v in vs :: Before(u.path, v.path)
  {
    var all := s + vs;
    forall i, j | 0 <= i < j < |vs| ensures Before(vs[i].path, vs[j].path) {
      assert all[|s| + i] == vs[i] && all[|s| + j] == vs[j];
    }
    forall u, v | u in s && v in vs ensures Before(u.path, v.path) {
      var i :| 0 <= i < |s| && s[i] == u;
      var j :| 0 <= j < |vs| && vs[j] == v;
      assert all[i] == u && all[|s| + j] == v;
    }
  }

  /** Equal visits that carry a hash head equal subtrees. */
  lemma SameSubtree(ta: Tree, ra: bool, tb: Tree, rb: bool, path: Path)
    requires Canon(ta) && Canon(tb) && KnownTree(ta) && KnownTree(tb)
    requires VisitOf(ta, path, ra) == VisitOf(tb, path, rb) && VisitOf(ta, path, ra).hash != ZeroHash
    ensures ta == tb
  {
    hide Canon, KnownTree;
    MerkleInjective(ta, tb);
  }

  lemma TermedTail(x: Visit, s: seq<Visit>, vs: seq<Visit>)
    requires WellTermed([x] + (s + vs))
    ensures WellTermed(vs) && (HasTerm(x.path) <==> x.value.Some?)
  {
    assert x in [x] + (s + vs);
    assert forall v | v in vs :: v in [x] + (s + vs);
  }

  /** differenceIterator: the nodes of b that are not in a. */
  class DifferenceIterator {
    const a: NodeIterator
    const b: NodeIterator
    var eof: bool
    var count: nat
    ghost const wa: seq<Visit>

    /** What a still has to offer. */
    ghost function Left(): seq<Visit>
      requires !eof ==> a.stack != []
      reads this, a
    {
      if eof then [] else [a.Current()] + a.pending
    }

    ghost predicate Valid()
      reads this, a, b
    {
      && a != b && a.Valid() && b.Valid() && a.complete && b.complete
      && (!eof ==> a.stack != [] && a.Fresh())
      && InStep(wa, Left(), b.pending) && WellTermed(Left()) && WellTermed(b.pending)
    }

    /** Both walks from their start; a is advanced to its first node. */
    constructor (a: NodeIterator, b: NodeIterator)
      requires a != b && a.Valid() && b.Valid() && a.complete && b.complete
      requires a.stack == [] && b.stack == [] && a.err.NoErr? && b.err.NoErr?
      modifies a`stack, a`path, a`frames, a`err, a`pending
      ensures Valid() && this.a == a && this.b == b
      ensures wa == Walk(a.tree, [], true) && b.pending == Walk(b.tree, [], true)
    {
      this.a, this.b, this.eof, this.count := a, b, false, 0;
      this.wa := Walk(a.tree, [], true);
      new;
      hide *;
      Started(a);
      Started(b);
      StartInStep(a.pending, b.pending);
      Start();
    }

    /** The first step of a. */
    method Start()
      requires a != b && a.Valid() && b.Valid() && a.complete && b.complete && !eof && a.err.NoErr?
      requires a.pending != [] && a.stack == [] && InStep(wa, a.pending, b.pending)
      requires WellTermed(a.pending) && WellTermed(b.pending)
      modifies a`stack, a`path, a`frames, a`err, a`pending
      ensures Valid()
    {
      hide NodeIterator.Valid, InStep, WellTermed;
      Settled(a);
      var more := a.Next(true);
    }

    /** Emits the next node of b that is not in a; equal subtrees are skipped. */
    method Next() returns (more: bool)
      requires Valid()
      modifies this`eof, this`count, a, b
      ensures Valid()
      ensures more ==> b.stack != [] && old(Minus(b.pending, wa)) == [b.Current()] + Minus(b.pending, wa)
      ensures !more ==> old(Minus(b.pending, wa)) == []
    {
      hide NodeIterator.Valid, InStep, WellTermed, Minus;
      Settled(b);
      ghost var left, bs := Left(), b.pending;
      more := b.Next(true);
      if !more {
        MinusNil(wa);
        InStepNil(wa, left, bs);
        return;
      }
      count := count + 1;
      more := Settle();
    }

    /** The loop of Next, from a node of b that is still to be judged. */
    method Settle() returns (more: bool)
      requires a != b && a.Valid() && b.Valid() && a.complete && b.complete && b.stack != [] && b.Fresh()
      requires !eof ==> a.stack != [] && a.Fresh()
      requires InStep(wa, Left(), [b.Current()] + b.pending)
      requires WellTermed(Left()) && WellTermed([b.Current()] + b.pending)
      modifies this`eof, this`count, a, b
      ensures Valid()
      ensures more ==>
                && b.stack != []
                && old(Minus([b.Current()] + b.pending, wa)) == [b.Current()] + Minus(b.pending, wa)
      ensures !more ==> old(Minus([b.Current()] + b.pending, wa)) == []
    {
      hide NodeIterator.Valid, InStep, WellTermed, Minus, CompareNodes;
      ghost var rest := [b.Current()] + b.pending;
      while !eof
        invariant a.Valid() && b.Valid() && b.stack != [] && b.Fresh()
        invariant !eof ==> a.stack != [] && a.Fresh()
        invariant InStep(wa, Left(), [b.Current()] + b.pending)
        invariant WellTermed(Left()) && WellTermed([b.Current()] + b.pending)
        invariant Minus([b.Current()] + b.pending, wa) == Minus(rest, wa)
        decreases !eof, |a.pending| + |b.pending|
      {
        var c := CompareNodes(a.Current(), b.Current());
        TermedHeads(a.Current(), a.pending, b.Current(), b.pending);
        CompareMeaning(a.Current(), b.Current());
        if c == -1 {
          DropA(wa, a.Current(), a.pending, b.Current(), b.pending);
          assert [] + a.pending == a.pending;
          TermedTail(a.Current(), [], a.pending);
          AdvanceA(true);
        } else if c == 1 {
          EmitB(wa, a.Current(), a.pending, b.Current(), b.pending);
          assert [] + b.pending == b.pending;
          TermedTail(b.Current(), [], b.pending);
          MinusEmit(b.Current(), b.pending, wa);
          return true;
        } else {
          more := AdvanceBoth();
          if !more {
            return;
          }
        }
      }
      AllNew(wa, b.Current(), b.pending);
      MinusEmit(b.Current(), b.pending, wa);
      assert [] + b.pending == b.pending;
      TermedTail(b.Current(), [], b.pending);
      more := true;
    }
  
    /** a moves on; at its end it has nothing left. */
    method AdvanceA(descend: bool)
      requires a.Valid() && a.complete && !eof && a.stack != []
      modifies this`eof, this`count, a
      ensures a.Valid() && (!eof ==> a.stack != [] && a.Fresh())
      ensures Left() == old(a.Ahead(descend))
    {
      hide NodeIterator.Valid;
      Settled(a);
      var more := a.Next(descend);
      if more {
        count := count + 1;
      } else {
        eof := true;
      }
    }

    /** Both are at the same node: past it, or past its subtree if it has a hash. */
    method AdvanceBoth() returns (more: bool)
      requires a != b && a.Valid() && b.Valid() && a.complete && b.complete
      requires !eof && a.stack != [] && a.Fresh() && b.stack != [] && b.Fresh()
      requires InStep(wa, Left(), [b.Current()] + b.pending) && a.Current() == b.Current()
      requires WellTermed(Left()) && WellTermed([b.Current()] + b.pending)
      modifies this`eof, this`count, a, b
      ensures a.Valid() && b.Valid() && (!eof ==> a.stack != [] && a.Fresh())
      ensures more ==> b.stack != [] && b.Fresh() && InStep(wa, Left(), [b.Current()] + b.pending)
      ensures more ==> WellTermed(Left()) && WellTermed([b.Current()] + b.pending)
      ensures more ==> Minus([b.Current()] + b.pending, wa) == old(Minus([b.Current()] + b.pending, wa))
      ensures more ==> eof || |a.pending| + |b.pending| < old(|a.pending| + |b.pending|)
      ensures !more ==> old(Minus([b.Current()] + b.pending, wa)) == [] && Valid()
    {
      hide NodeIterator.Valid, InStep, WellTermed, Minus, SkipUnder, Below, Resumed, Blocked, DropBefore, Nibbles;
      var descend := a.Current().hash == ZeroHash;
      ghost var x, s, ra, rb := a.Current(), [], a.Ahead(descend), b.Ahead(descend);
      s := CommonSubtree(descend);
      assert [x] + a.pending == [x] + (s + ra) && [x] + b.pending == [x] + (s + rb);
      SkipBoth(wa, x, s, ra, rb);
      TermedTail(x, s, ra);
      TermedTail(x, s, rb);
      MinusConcat([x] + s, rb, wa);
      assert [x] + (s + rb) == [x] + s + rb;
      Settled(b);
      ghost var left, bs := Left(), b.pending;
      more := b.Next(descend);
      if !more {
        MinusNil(wa);
        InStepNil(wa, left, [x] + bs);
        return;
      }
      count := count + 1;
      AdvanceA(descend);
    }

    /** The visits both skip: none, or the subtree they share. */
    ghost method CommonSubtree(descend: bool) returns (s: seq<Visit>)
      requires a.Valid() && b.Valid() && a.stack != [] && a.Fresh() && b.stack != [] && b.Fresh()
      requires a.Current() == b.Current() && descend == (a.Current().hash == ZeroHash)
      ensures a.pending == s + a.Ahead(descend) && b.pending == s + b.Ahead(descend)
    {
      hide NodeIterator.Valid, SkipUnder, Below, Canon, KnownTree, HashAt;
      s := [];
      if !descend {
        var ta := a.SubtreeNext();
        var tb := b.SubtreeNext();
        SameSubtree(ta, |a.stack| == 1, tb, |b.stack| == 1, a.path);
        s := Below(ta, a.path, -1);
      }
    }
  }

  lemma Started(it: NodeIterator)
    requires it.Valid() && it.stack == [] && it.err.NoErr?
    ensures Canon(it.tree) && it.pending == Walk(it.tree, [], true) && it.pending != []
    ensures Increasing(it.pending) && WellTermed(it.pending)
  {
    hide Canon, Below, HashAt;
    WalkIncreasing(it.tree, [], true);
    WalkTermed(it.tree, [], true);
  }

  lemma StartInStep(wa: seq<Visit>, wb: seq<Visit>)
    requires Increasing(wa) && Increasing(wb)
    ensures InStep(wa, wa, wb)
  {
    hide Increasing;
  }

  lemma MinusNil(wa: seq<Visit>)
    ensures Minus([], wa) == []
  {
  }

  lemma MinusEmit(y: Visit, bs: seq<Visit>, wa: seq<Visit>)
    requires y !in wa
    ensures Minus([y] + bs, wa) == [y] + Minus(bs, wa)
  {
    assert ([y] + bs)[1..] == bs;
  }

  lemma AllNew(wa: seq<Visit>, y: Visit, bs: seq<Visit>)
    requires InStep(wa, [], [y] + bs)
    ensures y !in wa && InStep(wa, [], bs)
  {
    hide Before;
    IncreasingTail(y, bs);
    assert y in [y] + bs;
    assert forall v | v in bs :: v in [y] + bs;
  }

  lemma InStepNil(wa: seq<Visit>, as_: seq<Visit>, bs: seq<Visit>)
    requires InStep(wa, as_, bs)
    ensures InStep(wa, as_, [])
    ensures WellTermed([])
  {
  }

  lemma TermedHeads(x: Visit, as_: seq<Visit>, y: Visit, bs: seq<Visit>)
    requires WellTermed([x] + as_) && WellTermed([y] + bs)
    ensures (HasTerm(x.path) <==> x.value.Some?) && (HasTerm(y.path) <==> y.value.Some?)
  {
    assert x in [x] + as_ && y in [y] + bs;
  }

  /** A whole run emits exactly the nodes of b that a does not have, in order. */
  method DifferenceAll(d: DifferenceIterator) returns (vs: seq<Visit>)
    requires d.Valid()
    modifies d, d.a, d.b
    ensures vs == old(Minus(d.b.pending, d.wa))
  {
    hide DifferenceIterator.Valid, Minus;
    vs := [];
    var more := true;
    ghost var all := Minus(d.b.pending, d.wa);
    while more
      invariant d.Valid()
      invariant more ==> vs + Minus(d.b.pending, d.wa) == all
      invariant !more ==> vs == all
      decreases more, |Minus(d.b.pending, d.wa)|
    {
      ghost var before := Minus(d.b.pending, d.wa);
      more := d.Next();
      if more {
        vs := vs + [d.b.Current()];
        assert Minus(d.b.pending, d.wa) == before[1..];
      }
    }
  }

  /** The emitted leaves are the key-value pairs of b that are not in a. */
  lemma DifferenceLeaves(ta: Tree, tb: Tree, k: Path, v: Bytes)
    requires Canon(ta) && Canon(tb) && Fits(ta, k) && Fits(tb, k) && !ta.Leaf? && !tb.Leaf?
    ensures LeafAt(Minus(Walk(tb, [], true), Walk(ta, [], true)), k, v)
       <==> Lookup(tb, k) == Some(v) && Lookup(ta, k) != Some(v)
  {
    hide Canon, Walk, Lookup, Fits, Minus;
    var wa, wb := Walk(ta, [], true), Walk(tb, [], true);
    assert [] + k == k;
    WalkLeaves(ta, [], true, k, v);
    WalkLeaves(tb, [], true, k, v);
    WalkTermed(ta, [], true);
    WalkTermed(tb, [], true);
    if LeafAt(Minus(wb, wa), k, v) {
      var x :| x in Minus(wb, wa) && x.path == k && x.value == Some(v);
      MinusExact(wb, wa, x);
      assert LeafAt(wb, k, v);
      assert forall y | y in wa && y.path == k && y.value == Some(v) :: y == x;
    } else if LeafAt(wb, k, v) {
      var x :| x in wb && x.path == k && x.value == Some(v);
      MinusExact(wb, wa, x);
      assert LeafAt(wa, k, v);
    }
  }
}
