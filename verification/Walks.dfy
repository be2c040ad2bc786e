/** Pre-order traversals of a trie, as lists: what the iterators of
    trie/iterator.go are to produce. */
module Walks {
  import opened Common
  import opened HexKeys
  import opened Trees
  import opened Merkle

  // ----- the byte order of paths

  /** bytes.Compare(a, b) < 0: a proper prefix comes first. */
  predicate Before(a: Path, b: Path) {
    b != [] && (a == [] || a[0] < b[0] || (a[0] == b[0] && Before(a[1..], b[1..])))
  }

  lemma {:induction false} BeforeAppend(p: Path, a: Path, b: Path)
    ensures Before(p + a, p + b) <==> Before(a, b)
    decreases p
  {
    if p == [] {
      assert p + a == a && p + b == b;
    } else {
      BeforeAppend(p[1..], a, b);
      assert (p + a)[1..] == p[1..] + a && (p + b)[1..] == p[1..] + b;
    }
  }

  lemma {:induction false} BeforeTotal(a: Path, b: Path)
    ensures a == b || Before(a, b) || Before(b, a)
    ensures !(Before(a, b) && Before(b, a))
    decreases a
  {
    if a != [] && b != [] {
      BeforeTotal(a[1..], b[1..]);
      assert a == [a[0]] + a[1..] && b == [b[0]] + b[1..];
    }
  }

  lemma {:induction false} BeforeIrreflexive(a: Path)
    ensures !Before(a, a)
    decreases a
  {
    if a != [] {
      BeforeIrreflexive(a[1..]);
    }
  }

  lemma {:induction false} BeforeTrans(a: Path, b: Path, c: Path)
    requires Before(a, b) && Before(b, c)
    ensures Before(a, c)
    decreases a
  {
    if a != [] && a[0] == b[0] == c[0] {
      BeforeTrans(a[1..], b[1..], c[1..]);
    }
  }

  /** Everything below a path that is before key, but not a prefix of it, is
      before key as well. */
  lemma {:induction false} BeforeBelow(p: Path, key: Path, x: Path)
    requires Before(p, key) && !(p <= key)
    ensures Before(p + x, key)
    decreases p
  {
    if p[0] == key[0] {
      assert p == [p[0]] + p[1..] && key == [key[0]] + key[1..];
      BeforeBelow(p[1..], key[1..], x);
      assert (p + x)[1..] == p[1..] + x;
    }
  }

  // ----- visits

  /** An iterator position: the path, the hash of a node stored on its own, and
      the blob of a leaf. */
  datatype Visit = Visit(path: Path, hash: Hash, value: Option<Bytes>)

  function HashAt(t: Tree, root: bool): Hash
    requires Canon(t)
  {
    if IsNode(t) && (root || Big(t)) then TreeHash(t) else ZeroHash
  }

  function VisitOf(t: Tree, path: Path, root: bool): Visit
    requires Canon(t)
  {
    Visit(path, HashAt(t, root), if t.Leaf? then Some(t.value) else None)
  }

  /** The node at path, then everything below it. */
  function Walk(t: Tree, path: Path, root: bool): seq<Visit>
    requires Canon(t)
    decreases t, 19
  {
    [VisitOf(t, path, root)] + Below(t, path, -1)
  }

  /** What is left below t after its child number index. */
  function Below(t: Tree, path: Path, index: int): seq<Visit>
    requires Canon(t) && -1 <= index
    decreases t, if index < 17 then 17 - index else 0
  {
    if t.Ext? then (if index < 0 then Walk(t.child, path + t.key, false) else [])
    else if t.Branch? && index < 16 then
      (if t.children[index + 1].Empty? then [] else Walk(t.children[index + 1], path + [index + 1], false))
      + Below(t, path, index + 1)
    else []
  }

  // ----- every visit is below its start

  ghost predicate Under(vs: seq<Visit>, path: Path) {
    forall v | v in vs :: path <= v.path
  }

  lemma {:induction false} WalkUnder(t: Tree, path: Path, root: bool)
    requires Canon(t)
    ensures Under(Walk(t, path, root), path)
    decreases t, 19
  {
    hide Canon, HashAt;
    BelowUnder(t, path, -1);
  }

  lemma {:induction false} BelowUnder(t: Tree, path: Path, index: int)
    requires Canon(t) && -1 <= index
    ensures forall v | v in Below(t, path, index) :: path < v.path
    ensures t.Branch? ==> forall v | v in Below(t, path, index) :: |v.path| > |path| && v.path[|path|] > index
    decreases t, if index < 17 then 17 - index else 0
  {
    hide HashAt, VisitOf;
    if t.Ext? && index < 0 {
      WalkUnder(t.child, path + t.key, false);
    } else if t.Branch? && index < 16 {
      WalkUnder(t.children[index + 1], path + [index + 1], false);
      BelowUnder(t, path, index + 1);
      forall v | v in Below(t, path, index) ensures path < v.path && v.path[|path|] > index {
        if v !in Below(t, path, index + 1) {
          assert path + [index + 1] <= v.path;
        }
      }
    }
  }

  // ----- strictly increasing

  ghost predicate Increasing(vs: seq<Visit>) {
    forall i, j | 0 <= i < j < |vs| :: Before(vs[i].path, vs[j].path)
  }

  lemma IncreasingAppend(a: seq<Visit>, b: seq<Visit>)
    requires Increasing(a) && Increasing(b)
    requires forall x, y | x in a && y in b :: Before(x.path, y.path)
    ensures Increasing(a + b)
  {
    forall i, j | 0 <= i < j < |a + b| ensures Before((a + b)[i].path, (a + b)[j].path) {
      if i < |a| <= j {
        assert (a + b)[i] in a && (a + b)[j] in b;
      }
    }
  }

  /** Iteration order: paths strictly increase, so no node is visited twice. */
  lemma {:induction false} WalkIncreasing(t: Tree, path: Path, root: bool)
    requires Canon(t)
    ensures Increasing(Walk(t, path, root))
    decreases t, 19
  {
    hide Canon, HashAt, Before;
    BelowIncreasing(t, path, -1);
    BelowUnder(t, path, -1);
    forall v | v in Below(t, path, -1) ensures Before(path, v.path) {
      BeforeExtension(path, v.path);
    }
    IncreasingAppend([VisitOf(t, path, root)], Below(t, path, -1));
  }

  lemma BeforeExtension(p: Path, q: Path)
    requires p < q
    ensures Before(p, q)
  {
    assert q == p + q[|p|..] && p == p + [];
    BeforeAppend(p, [], q[|p|..]);
  }

  lemma BeforeSibling(p: Path, a: Path, b: Path)
    requires p < a && p < b && a[|p|] < b[|p|]
    ensures Before(a, b)
  {
    assert a == p + a[|p|..] && b == p + b[|p|..];
    BeforeAppend(p, a[|p|..], b[|p|..]);
  }

  lemma {:induction false} BelowIncreasing(t: Tree, path: Path, index: int)
    requires Canon(t) && -1 <= index
    ensures Increasing(Below(t, path, index))
    decreases t, if index < 17 then 17 - index else 0
  {
    hide HashAt, VisitOf, Before;
    if t.Ext? && index < 0 {
      WalkIncreasing(t.child, path + t.key, false);
    } else if t.Branch? && index < 16 {
      BelowIncreasing(t, path, index + 1);
      if !t.children[index + 1].Empty? {
        var w, b := Walk(t.children[index + 1], path + [index + 1], false), Below(t, path, index + 1);
        WalkIncreasing(t.children[index + 1], path + [index + 1], false);
        WalkUnder(t.children[index + 1], path + [index + 1], false);
        BelowUnder(t, path, index + 1);
        forall x, y | x in w && y in b ensures Before(x.path, y.path) {
          BeforeSibling(path, x.path, y.path);
        }
        IncreasingAppend(w, b);
      }
    }
  }

  // ----- the leaves are the contents

  ghost predicate LeafAt(vs: seq<Visit>, k: Path, v: Bytes) {
    exists x | x in vs :: x.path == k && x.value == Some(v)
  }

  lemma LeafAtConcat(a: seq<Visit>, b: seq<Visit>, k: Path, v: Bytes)
    ensures LeafAt(a + b, k, v) <==> LeafAt(a, k, v) || LeafAt(b, k, v)
  {
  }

  /** Exactly the stored keys and values are visited as leaves. */
  lemma {:induction false} WalkLeaves(t: Tree, path: Path, root: bool, k: Path, v: Bytes)
    requires Canon(t) && Fits(t, k)
    ensures LeafAt(Walk(t, path, root), path + k, v) <==> Lookup(t, k) == Some(v)
    decreases t, 19
  {
    hide Canon, HashAt, Terminated;
    var w, b := Walk(t, path, root), Below(t, path, -1);
    assert w == [VisitOf(t, path, root)] + b;
    if t.Leaf? {
      assert path + k == path && b == [];
      assert VisitOf(t, path, root) in w;
    } else if t.Empty? {
      assert b == [];
    } else {
      BelowLeaves(t, path, -1, k, v);
      assert LeafAt(w, path + k, v) <==> LeafAt(b, path + k, v);
    }
  }

  lemma {:induction false} BelowLeaves(t: Tree, path: Path, index: int, k: Path, v: Bytes)
    requires Canon(t) && Fits(t, k) && IsNode(t) && -1 <= index
    ensures LeafAt(Below(t, path, index), path + k, v) <==>
            Lookup(t, k) == Some(v) && (if t.Ext? then index < 0 else k[0] > index)
    decreases t, if index < 17 then 17 - index else 0
  {
    hide Canon, HashAt, Terminated, VisitOf;
    if t.Ext? {
      LookupExt(t, k);
      if index < 0 {
        if t.key <= k {
          FitsExt(t, k);
          assert path + k == path + t.key + k[|t.key|..];
          WalkLeaves(t.child, path + t.key, false, k[|t.key|..], v);
        } else {
          CanonExt(t);
          WalkUnder(t.child, path + t.key, false);
          NotUnder(path, t.key, k);
        }
      }
    } else if index < 16 {
      FitsBranch(t, k);
      LookupBranch(t, k);
      BranchLeaves(t, path, index, k, v);
    }
  }

  lemma NotUnder(path: Path, key: Path, k: Path)
    ensures path + key <= path + k <==> key <= k
  {
    if path + key <= path + k {
      assert (path + k)[|path|..][..|key|] == key;
    }
  }

  lemma BelowStep(t: Tree, path: Path, index: int)
    requires Canon(t) && t.Branch? && -1 <= index < 16
    ensures var c := t.children[index + 1];
            Below(t, path, index) ==
            (if c.Empty? then [] else Walk(c, path + [index + 1], false)) + Below(t, path, index + 1)
  {
  }

  lemma UnderLeaf(vs: seq<Visit>, p: Path, k: Path, v: Bytes)
    requires Under(vs, p) && LeafAt(vs, k, v)
    ensures p <= k
  {
  }

  lemma {:induction false} ChildLeaves(t: Tree, path: Path, i: nibble, k: Path, v: Bytes)
    requires Canon(t) && t.Branch? && k != []
    requires Fits(t.children[k[0]], k[1..])
    ensures var c := t.children[i];
            LeafAt(if c.Empty? then [] else Walk(c, path + [i], false), path + k, v)
            <==> k[0] == i && Lookup(t.children[k[0]], k[1..]) == Some(v)
    decreases t, 0
  {
    hide Canon, Walk, LeafAt, Under, Fits, Lookup;
    CanonBranch(t);
    var c := t.children[i];
    LeafAtNil(path + k, v);
    if k[0] == i {
      assert path + k == path + [i] + k[1..];
      LookupValue(c, k[1..]);
      WalkLeaves(c, path + [i], false, k[1..], v);
    } else {
      WalkUnder(c, path + [i], false);
      NotUnder(path, [i], k);
      if LeafAt(Walk(c, path + [i], false), path + k, v) {
        UnderLeaf(Walk(c, path + [i], false), path + [i], path + k, v);
      }
    }
  }

  lemma LeafAtNil(k: Path, v: Bytes)
    ensures !LeafAt([], k, v)
  {
  }

  lemma {:induction false} BranchLeaves(t: Tree, path: Path, index: int, k: Path, v: Bytes)
    requires Canon(t) && Fits(t, k) && t.Branch? && -1 <= index < 16 && k != []
    requires Fits(t.children[k[0]], k[1..]) && Lookup(t, k) == Lookup(t.children[k[0]], k[1..])
    ensures LeafAt(Below(t, path, index), path + k, v) <==> Lookup(t, k) == Some(v) && k[0] > index
    decreases t, 17 - index, 0
  {
    hide Canon, Walk, Below, LeafAt, Fits, Lookup;
    CanonBranch(t);
    var c := t.children[index + 1];
    BelowStep(t, path, index);
    ChildLeaves(t, path, index + 1, k, v);
    BelowLeaves(t, path, index + 1, k, v);
    LeafAtConcat(if c.Empty? then [] else Walk(c, path + [index + 1], false), Below(t, path, index + 1), path + k, v);
  }

  // ----- seeking

  /** The visits from the first one not before key on. */
  function DropBefore(vs: seq<Visit>, key: Path): seq<Visit> {
    if vs != [] && Before(vs[0].path, key) then DropBefore(vs[1..], key) else vs
  }

  /** In an increasing list these are exactly the visits at or after key. */
  lemma {:induction false} DropBeforeExact(vs: seq<Visit>, key: Path, v: Visit)
    requires Increasing(vs)
    ensures v in DropBefore(vs, key) <==> v in vs && !Before(v.path, key)
    decreases |vs|
  {
    if vs != [] && Before(vs[0].path, key) {
      DropBeforeExact(vs[1..], key, v);
      assert v in vs <==> v == vs[0] || v in vs[1..];
    } else if v in vs {
      var i :| 0 <= i < |vs| && vs[i] == v;
      if i > 0 && Before(v.path, key) {
        BeforeTrans(vs[0].path, v.path, key);
      }
    }
  }
}
