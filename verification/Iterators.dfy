/** The explicit-stack iterator over a lazily loaded trie (trie/iterator.go). */
module Iterators {
  import opened Common
  import opened HexKeys
  import opened Trees
  import opened Merkle
  import opened Nodes
  import opened Represent
  import opened TrieOps
  import opened Walks

  /** nodeIteratorState: a loaded node, its hash if it has one of its own, the
      child last visited and the length of the parent's path. */
  datatype State = State(hash: Hash, node: Node, index: int, pathlen: nat)

  /** The tree a stack entry stands for. */
  datatype Frame = Frame(tree: Tree, path: Path, index: int)

  /** The surroundings of an iteration: the database, and whether it is whole. */
  datatype Env = Env(db: Store, gen: uint16, complete: bool)

  ghost predicate FrameOk(env: Env, s: State, f: Frame, root: bool) {
    && Canon(f.tree) && KnownTree(f.tree)
    && Rep(s.node, f.tree, root) && AllHashed(s.node, f.tree) && !s.node.HashRef?
    && s.index == f.index && -1 <= f.index && s.hash == HashAt(f.tree, root)
    && (env.complete ==> Avail(s.node, f.tree, env.db))
  }

  /** g is the child of f that f last went into. */
  ghost predicate Linked(f: Frame, g: Frame) {
    && 0 <= f.index
    && (|| (f.tree.Branch? && f.index <= 16 && g.path == f.path + [f.index])
        || (f.tree.Ext? && g.path == f.path + f.tree.key))
  }

  ghost predicate StackOk(env: Env, stack: seq<State>, frames: seq<Frame>, path: Path) {
    && |stack| == |frames|
    && (forall i | 0 <= i < |stack| :: FrameOk(env, stack[i], frames[i], i == 0))
    && (forall i | 0 < i < |stack| :: Linked(frames[i - 1], frames[i]) && stack[i].pathlen == |frames[i - 1].path|)
    && (stack == [] ==> path == [])
    && (stack != [] ==> frames[0].path == [] && stack[0].pathlen == 0 && path == frames[|frames| - 1].path)
  }

  ghost predicate CanonFrames(frames: seq<Frame>) {
    forall i | 0 <= i < |frames| :: Canon(frames[i].tree) && -1 <= frames[i].index
  }

  /** What the stack still has to visit, innermost first. */
  ghost function Remaining(frames: seq<Frame>): seq<Visit>
    requires CanonFrames(frames)
  {
    if frames == [] then [] else
    var f := frames[|frames| - 1];
    Below(f.tree, f.path, f.index) + Remaining(frames[..|frames| - 1])
  }

  // ----- popping

  lemma PopOk(env: Env, stack: seq<State>, frames: seq<Frame>, path: Path)
    requires StackOk(env, stack, frames, path) && stack != []
    ensures var n := |stack| - 1;
            && stack[n].pathlen <= |path|
            && StackOk(env, stack[..n], frames[..n], path[..stack[n].pathlen])
  {
    hide FrameOk;
    var n := |stack| - 1;
    if n > 0 {
      assert Linked(frames[n - 1], frames[n]);
      assert path[..stack[n].pathlen] == frames[n - 1].path;
    }
  }

  /** The frames below the top visit nothing under the top's path. */
  lemma {:induction false} RemainingElsewhere(env: Env, stack: seq<State>, frames: seq<Frame>, path: Path, m: nat)
    requires StackOk(env, stack, frames, path) && m < |stack| && CanonFrames(frames)
    ensures frames[m].path <= path
    ensures forall v | v in Remaining(frames[..m]) :: !(path <= v.path)
    decreases |stack|, m
  {
    hide FrameOk, Below;
    FramePrefix(env, stack, frames, path, m);
    if m > 0 {
      var f := frames[m - 1];
      RemainingElsewhere(env, stack, frames, path, m - 1);
      assert frames[..m][m - 1] == f && frames[..m][..m - 1] == frames[..m - 1];
      assert Linked(f, frames[m]);
      BelowElsewhere(f, frames[m], path);
    }
  }

  lemma {:induction false} FramePrefix(env: Env, stack: seq<State>, frames: seq<Frame>, path: Path, m: nat)
    requires StackOk(env, stack, frames, path) && m < |stack|
    ensures frames[m].path <= path
    decreases |stack| - m
  {
    hide FrameOk;
    if m + 1 < |stack| {
      FramePrefix(env, stack, frames, path, m + 1);
      assert Linked(frames[m], frames[m + 1]);
    }
  }

  lemma BelowElsewhere(f: Frame, g: Frame, path: Path)
    requires Canon(f.tree) && -1 <= f.index && Linked(f, g) && g.path <= path
    ensures forall v | v in Below(f.tree, f.path, f.index) :: !(path <= v.path)
  {
    hide Canon;
    BelowUnder(f.tree, f.path, f.index);
    if f.tree.Branch? {
      forall v | v in Below(f.tree, f.path, f.index) ensures !(path <= v.path) {
        assert path[|f.path|] == f.index;
      }
    }
  }

  /** The visits left after skipping everything under p. */
  ghost function SkipUnder(vs: seq<Visit>, p: Path): seq<Visit> {
    if vs != [] && p <= vs[0].path then SkipUnder(vs[1..], p) else vs
  }

  lemma {:induction false} SkipUnderSplit(a: seq<Visit>, b: seq<Visit>, p: Path)
    requires Under(a, p) && forall v | v in b :: !(p <= v.path)
    ensures SkipUnder(a + b, p) == b
  {
    if a == [] {
      assert a + b == b;
    } else {
      assert a[0] in a && (a + b)[0] == a[0] && (a + b)[1..] == a[1..] + b;
      SkipUnderSplit(a[1..], b, p);
    }
  }

  /** Popping the top skips exactly its subtree. */
  lemma PopSkips(env: Env, stack: seq<State>, frames: seq<Frame>, path: Path)
    requires StackOk(env, stack, frames, path) && stack != [] && CanonFrames(frames)
    ensures SkipUnder(Remaining(frames), path) == Remaining(frames[..|frames| - 1])
  {
    hide FrameOk, Below;
    var n := |frames| - 1;
    var f := frames[n];
    RemainingElsewhere(env, stack, frames, path, n);
    BelowUnder(f.tree, f.path, f.index);
    SkipUnderSplit(Below(f.tree, f.path, f.index), Remaining(frames[..n]), path);
  }

  // ----- the next child of one node

  datatype Child = NoChild | Child(node: Node, step: Path, index: int)

  lemma {:induction false} SkipEmpty(t: Tree, path: Path, i: int, j: int)
    requires Canon(t) && t.Branch? && -1 <= i <= j <= 16
    requires forall x | i < x <= j :: t.children[x].Empty?
    ensures Below(t, path, i) == Below(t, path, j)
    decreases j - i
  {
    hide Canon, Walk;
    CanonBranch(t);
    if i < j {
      BelowStep(t, path, i);
      SkipEmpty(t, path, i + 1, j);
    }
  }

  lemma BelowEnd(t: Tree, path: Path, index: int)
    requires Canon(t) && t.Branch? && index >= 16
    ensures Below(t, path, index) == []
  {
  }

  /** The first child after the last visited one, and where the visit leaves the
      parent; no child means that nothing is left below. */
  method NextChild(s: State, ghost f: Frame, ghost env: Env, ghost root: bool) returns (c: Child, ghost t: Tree)
    requires FrameOk(env, s, f, root)
    ensures c.NoChild? ==> Below(f.tree, f.path, f.index) == []
    ensures c.Child? ==> IsNode(f.tree) && -1 <= c.index && Canon(t) && KnownTree(t) && !t.Empty? && c.step != []
    ensures c.Child? ==> Rep(c.node, t, false) && AllHashed(c.node, t) && (env.complete ==> Avail(c.node, t, env.db))
    ensures c.Child? ==> Below(f.tree, f.path, f.index) == Below(f.tree, f.path, c.index)
    ensures c.Child? ==>
              Below(f.tree, f.path, c.index) == Walk(t, f.path + c.step, false) + Below(f.tree, f.path, c.index + 1)
    ensures c.Child? ==> Linked(f.(index := c.index + 1), Frame(t, f.path + c.step, -1))
  {
    hide Canon, KnownTree, Rep, AllHashed, Avail, Walk, HashAt;
    RepShape(s.node, f.tree, root);
    KnownShape(f.tree);
    HashedShape(s.node, f.tree, root);
    if env.complete {
      AvailShape(s.node, f.tree, env.db, root);
    }
    c, t := NoChild, Empty;
    if s.node.Full? {
      c, t := NextFull(s.node, s.index, f.tree, f.path);
    } else if s.node.Short? && s.index < 0 {
      CanonExt(f.tree);
      c, t := Child(s.node.val, s.node.key, -1), f.tree.child;
    }
  }

  method NextFull(n: Node, index: int, ghost t: Tree, ghost path: Path) returns (c: Child, ghost sub: Tree)
    requires Canon(t) && t.Branch? && n.Full? && |n.children| == 17 && -1 <= index
    requires forall i | 0 <= i < 17 :: Rep(n.children[i], t.children[i], false)
    ensures c.NoChild? ==> Below(t, path, index) == []
    ensures c.Child? ==>
              && -1 <= c.index < 16 && c.step == [c.index + 1] && c.node == n.children[c.index + 1]
              && sub == t.children[c.index + 1] && !sub.Empty?
              && Below(t, path, index) == Below(t, path, c.index)
              && Below(t, path, c.index) == Walk(sub, path + c.step, false) + Below(t, path, c.index + 1)
  {
    hide Canon, Rep, Walk, Below;
    CanonBranch(t);
    var i := index + 1;
    while i < 17
      invariant index < i && (index < 17 ==> i <= 17)
      invariant forall j | index < j < i && j < 17 :: t.children[j].Empty?
    {
      RepShape(n.children[i], t.children[i], false);
      if !n.children[i].Nil? {
        SkipEmpty(t, path, index, i - 1);
        BelowStep(t, path, i - 1);
        return Child(n.children[i], [i], i - 1), t.children[i];
      }
      i := i + 1;
    }
    if index < 16 {
      SkipEmpty(t, path, index, 16);
      BelowEnd(t, path, 16);
    } else {
      BelowEnd(t, path, index);
    }
    c, sub := NoChild, Empty;
  }

  /** Skipping a subtree whose root is before key, but not above it, skips
      nothing at or after key. */
  lemma {:induction false} SkipDropped(vs: seq<Visit>, p: Path, key: Path)
    requires Before(p, key) && !(p <= key)
    ensures DropBefore(SkipUnder(vs, p), key) == DropBefore(vs, key)
    decreases |vs|
  {
    if vs != [] && p <= vs[0].path {
      assert vs[0].path == p + vs[0].path[|p|..];
      BeforeBelow(p, key, vs[0].path[|p|..]);
      SkipDropped(vs[1..], p, key);
    }
  }

  lemma {:induction false} SkipShorter(vs: seq<Visit>, p: Path)
    ensures |SkipUnder(vs, p)| <= |vs|
    decreases |vs|
  {
    if vs != [] {
      SkipShorter(vs[1..], p);
    }
  }

  // ----- peek and push

  /** The next visit is of a node that the database does not have; the error names it. */
  predicate Blocked(db: Store, vs: seq<Visit>, e: Missing) {
    vs != [] && vs[0].path == e.path && vs[0].hash == e.hash && e.hash !in db
  }

  /** What a step goes through after a failed seek for key has been repeated: all visits at or after the key, or, if
      the step does not descend, those not under the node the seek stopped on. */
  ghost predicate Resumed(was: seq<Visit>, key: Path, descend: bool, rest: seq<Visit>) {
    || rest == DropBefore(was, key)
    || (!descend && exists q: Path :: Behind(q, key) && rest == SkipUnder(DropBefore(was, key), q))
  }

  datatype Peeked = Ready(state: State, path: Path) | Failed(error: Missing) | Finished

  function BumpState(stack: seq<State>): seq<State> {
    if stack == [] then [] else
    var n := |stack| - 1;
    stack[n := stack[n].(index := stack[n].index + 1)]
  }

  ghost function Bump(frames: seq<Frame>): (r: seq<Frame>)
    ensures CanonFrames(frames) ==> CanonFrames(r)
  {
    if frames == [] then [] else
    var n := |frames| - 1;
    frames[n := frames[n].(index := frames[n].index + 1)]
  }

  /** A peeked state continues rem, and would be pushed on this stack. */
  ghost predicate ReadyOk(env: Env, stack: seq<State>, frames: seq<Frame>, path: Path, s: State, p: Path, g: Tree,
                          rem: seq<Visit>) {
    && StackOk(env, stack, frames, path) && CanonFrames(frames)
    && FrameOk(env, s, Frame(g, p, -1), stack == []) && s.pathlen == |path|
    && rem == [VisitOf(g, p, stack == [])] + Below(g, p, -1) + Remaining(Bump(frames))
    && (stack == [] ==> p == [])
    && (stack != [] ==> Remaining(frames) == rem && Linked(Bump(frames)[|frames| - 1], Frame(g, p, -1)))
  }

  /** The stored child index of the top entry does not matter to the stack. */
  lemma SetIndex(env: Env, stack: seq<State>, frames: seq<Frame>, path: Path, index: int)
    requires StackOk(env, stack, frames, path) && stack != [] && -1 <= index
    ensures var n := |stack| - 1;
            StackOk(env, stack[n := stack[n].(index := index)], frames[n := frames[n].(index := index)], path)
  {
    hide Canon, KnownTree, Rep, AllHashed, Avail, HashAt;
    var n := |stack| - 1;
    assert FrameOk(env, stack[n], frames[n], n == 0);
  }

  lemma AppendOk(env: Env, stack: seq<State>, frames: seq<Frame>, path: Path, s: State, f: Frame)
    requires StackOk(env, stack, frames, path) && FrameOk(env, s, f, stack == []) && s.pathlen == |path|
    requires if stack == [] then f.path == [] else Linked(frames[|frames| - 1], f)
    ensures StackOk(env, stack + [s], frames + [f], f.path)
  {
    hide FrameOk, Linked;
  }

  lemma FrameVisit(env: Env, s: State, f: Frame, root: bool)
    requires FrameOk(env, s, f, root)
    ensures Canon(f.tree)
    ensures VisitOf(f.tree, f.path, root) == Visit(f.path, s.hash, if s.node.Value? then Some(s.node.value) else None)
  {
    hide Canon, KnownTree, Rep, AllHashed, Avail, HashAt;
    RepShape(s.node, f.tree, root);
  }

  lemma RemainingPush(frames: seq<Frame>, f: Frame)
    requires CanonFrames(frames) && Canon(f.tree) && -1 <= f.index
    ensures CanonFrames(frames + [f])
    ensures Remaining(frames + [f]) == Below(f.tree, f.path, f.index) + Remaining(frames)
  {
    hide Canon, Below;
    assert (frames + [f])[..|frames|] == frames;
  }

  lemma PushOk(env: Env, stack: seq<State>, frames: seq<Frame>, path: Path, s: State, p: Path, g: Tree, rem: seq<Visit>)
    requires ReadyOk(env, stack, frames, path, s, p, g, rem)
    ensures var frames' := Bump(frames) + [Frame(g, p, -1)];
            && StackOk(env, BumpState(stack) + [s], frames', p)
            && CanonFrames(frames')
            && rem == [Visit(p, s.hash, if s.node.Value? then Some(s.node.value) else None)] + Remaining(frames')
  {
    hide FrameOk, Below, VisitOf, StackOk, Linked, Remaining, CanonFrames;
    var f := Frame(g, p, -1);
    StackLen(env, stack, frames, path);
    if stack != [] {
      SetIndex(env, stack, frames, path, stack[|stack| - 1].index + 1);
    }
    AppendOk(env, BumpState(stack), Bump(frames), path, s, f);
    FrameVisit(env, s, f, stack == []);
    RemainingPush(Bump(frames), f);
  }

  lemma StackLen(env: Env, stack: seq<State>, frames: seq<Frame>, path: Path)
    requires StackOk(env, stack, frames, path)
    ensures |stack| == |frames|
    ensures stack != [] ==> stack[|stack| - 1].index == frames[|frames| - 1].index >= -1
    ensures stack != [] ==> FrameOk(env, stack[|stack| - 1], frames[|frames| - 1], |stack| == 1)
    ensures stack != [] ==> path == frames[|frames| - 1].path
    ensures stack == [] ==> path == []
  {
    hide Canon, KnownTree, Rep, AllHashed, Avail, HashAt;
  }

  /** Writing back where nextChild left the parent changes nothing visible. */
  lemma SettleOk(env: Env, stack: seq<State>, frames: seq<Frame>, path: Path, index: int)
    requires StackOk(env, stack, frames, path) && stack != [] && CanonFrames(frames) && -1 <= index
    requires var f := frames[|frames| - 1]; Below(f.tree, f.path, f.index) == Below(f.tree, f.path, index)
    ensures var n := |stack| - 1;
            var frames' := frames[n := frames[n].(index := index)];
            && StackOk(env, stack[n := stack[n].(index := index)], frames', path)
            && CanonFrames(frames') && Remaining(frames') == Remaining(frames)
  {
    hide FrameOk, Below, Linked;
    var n := |stack| - 1;
    var frames' := frames[n := frames[n].(index := index)];
    SetIndex(env, stack, frames, path, index);
    assert frames'[..n] == frames[..n];
  }

  /** nodeIterator. pending lists the visits still to come. */
  class NodeIterator {
    const db: Store
    const gen: uint16
    const root: Node
    const rootHash: Hash
    var stack: seq<State>
    var path: Path
    var err: IterErr
    ghost const tree: Tree
    ghost const complete: bool
    ghost var frames: seq<Frame>
    ghost var pending: seq<Visit>

    ghost predicate TrieOk() {
      && Canon(tree) && !tree.Leaf? && KnownTree(tree) && Honest(db)
      && Rep(root, tree, true) && AllHashed(root, tree) && (complete ==> Avail(root, tree, db))
      && (if IsNode(tree) then rootHash == TreeHash(tree) != EmptyRoot() else rootHash == EmptyRoot())
    }

    ghost predicate Valid()
      reads this
    {
      && TrieOk()
      && StackOk(Env(db, gen, complete), stack, frames, path) && CanonFrames(frames)
      && (err.EndErr? ==> stack == [])
      && (err.MissErr? ==> !complete)
      && (err.SeekErr? ==> !complete && Behind(path, Nibbles(err.key)))
      && pending == if stack != [] then Remaining(frames) else if err.EndErr? then [] else Walk(tree, [], true)
    }

    /** The node the iterator stands on. */
    function Current(): Visit
      requires stack != []
      reads this
    {
      var s := stack[|stack| - 1];
      Visit(path, s.hash, if s.node.Value? then Some(s.node.value) else None)
    }

    /** The current node was just entered: none of its children was visited. */
    ghost predicate Fresh()
      reads this
    {
      frames != [] && frames[|frames| - 1].index == -1
    }

    /** On a fresh node its whole subtree comes next. */
    lemma SubtreeNext() returns (t: Tree)
      requires Valid() && stack != [] && Fresh()
      ensures Canon(t) && KnownTree(t) && Current() == VisitOf(t, path, |stack| == 1)
      ensures pending == Below(t, path, -1) + SkipUnder(pending, path)
    {
      hide Canon, KnownTree, Rep, AllHashed, Avail, HashAt, Below, Linked, StackOk, TrieOk, SkipUnder;
      var env := Env(db, gen, complete);
      StackLen(env, stack, frames, path);
      PopSkips(env, stack, frames, path);
      t := frames[|frames| - 1].tree;
      RepShape(stack[|stack| - 1].node, t, |stack| == 1);
    }

    /** What an advance has to go through. */
    ghost function Ahead(descend: bool): seq<Visit>
      reads this
    {
      if stack == [] || descend then pending else SkipUnder(pending, path)
    }

    constructor (db: Store, gen: uint16, root: Node, rootHash: Hash, ghost tree: Tree, ghost complete: bool)
      requires Canon(tree) && !tree.Leaf? && KnownTree(tree) && Honest(db)
      requires Rep(root, tree, true) && AllHashed(root, tree) && (complete ==> Avail(root, tree, db))
      requires if IsNode(tree) then rootHash == TreeHash(tree) != EmptyRoot() else rootHash == EmptyRoot()
      ensures Valid() && this.tree == tree && this.complete == complete
      ensures stack == [] && path == [] && err == NoErr && pending == Walk(tree, [], true)
    {
      this.db, this.gen, this.root, this.rootHash := db, gen, root, rootHash;
      this.stack, this.path, this.err := [], [], NoErr;
      this.tree, this.complete, this.frames, this.pending := tree, complete, [], Walk(tree, [], true);
    }

    /** resolve: load a hash node and remember its hash. */
    method Resolve(s: State, at: Path, ghost t: Tree, ghost top: bool) returns (r: Result<State, Missing>)
      requires Honest(db) && Canon(t) && KnownTree(t) && Rep(s.node, t, top) && AllHashed(s.node, t)
      requires complete ==> Avail(s.node, t, db)
      requires s.index == -1
      requires if s.node.HashRef? then IsNode(t) else s.hash == HashAt(t, top)
      ensures r.Ok? ==> FrameOk(Env(db, gen, complete), r.value, Frame(t, at, -1), top) && r.value.pathlen == s.pathlen
      ensures r.Err? ==> !complete && r.error == Missing(HashAt(t, top), at) && r.error.hash !in db
    {
      hide Canon, KnownTree, Rep, AllHashed, Avail, Honest;
      RepShape(s.node, t, top);
      if !s.node.HashRef? {
        return Ok(s);
      }
      if complete {
        AvailShape(s.node, t, db, top);
      }
      var n := ResolveHash(db, gen, s.node.hash, at, t, top);
      if n.Err? {
        return Err(n.error);
      }
      r := Ok(s.(node := n.value, hash := s.node.hash));
    }

    method Pop()
      requires StackOk(Env(db, gen, complete), stack, frames, path) && stack != [] && CanonFrames(frames)
      modifies this`stack, this`path, this`frames
      ensures StackOk(Env(db, gen, complete), stack, frames, path) && CanonFrames(frames)
      ensures stack == old(stack[..|stack| - 1]) && frames == old(frames[..|frames| - 1]) && path <= old(path)
    {
      hide FrameOk, Linked;
      PopOk(Env(db, gen, complete), stack, frames, path);
      var n := |stack| - 1;
      path, frames := path[..stack[n].pathlen], frames[..n];
      stack := stack[..n];
    }

    method Push(s: State, p: Path, ghost g: Tree, ghost rem: seq<Visit>)
      requires ReadyOk(Env(db, gen, complete), stack, frames, path, s, p, g, rem)
      modifies this`stack, this`path, this`frames
      ensures StackOk(Env(db, gen, complete), stack, frames, path) && CanonFrames(frames)
      ensures stack != [] && path == p && rem == [Current()] + Remaining(frames) && Fresh()
    {
      hide FrameOk, Linked, StackOk, Remaining;
      PushOk(Env(db, gen, complete), stack, frames, path, s, p, g, rem);
      stack, path, frames := BumpState(stack) + [s], p, Bump(frames) + [Frame(g, p, -1)];
    }

    /** peek: the next node in order, found but not yet entered. */
    method Peek(descend: bool) returns (p: Peeked, ghost g: Tree)
      requires Valid() && !err.EndErr?
      modifies this`stack, this`path, this`frames
      ensures StackOk(Env(db, gen, complete), stack, frames, path) && CanonFrames(frames) && path <= old(path)
      ensures p.Finished? ==> old(Ahead(descend)) == [] && stack == []
      ensures p.Ready? ==> (stack == [] <==> old(stack) == [])
      ensures p.Ready? ==>
                ReadyOk(Env(db, gen, complete), stack, frames, path, p.state, p.path, g, old(Ahead(descend)))
      ensures p.Failed? ==> !complete && (stack == [] ==> old(stack) == [])
      ensures p.Failed? ==> Blocked(db, old(Ahead(descend)), p.error)
      ensures p.Failed? && stack != [] ==> Remaining(frames) == old(Ahead(descend))
    {
      hide Canon, KnownTree, Rep, AllHashed, Avail, Honest, FrameOk, Linked, StackOk, Below, Remaining, Walk, SkipUnder;
      ghost var env, rem := Env(db, gen, complete), Ahead(descend);
      if stack == [] {
        p := PeekRoot();
        return p, tree;
      }
      StackLen(env, stack, frames, path);
      if !descend {
        PopSkips(env, stack, frames, path);
        Pop();
      }
      while stack != []
        invariant StackOk(env, stack, frames, path) && CanonFrames(frames) && path <= old(path)
        invariant Remaining(frames) == rem
        decreases |stack|
      {
        var found;
        found, p, g := PeekChild();
        if found {
          return;
        }
        Pop();
      }
      StackLen(env, stack, frames, path);
      RemainingNil();
      p, g := Finished, Empty;
    }

    /** The next child of the node on top of the stack, if it has one. */
    method PeekChild() returns (found: bool, p: Peeked, ghost g: Tree)
      requires TrieOk() && StackOk(Env(db, gen, complete), stack, frames, path) && CanonFrames(frames) && stack != []
      modifies this`stack, this`frames
      ensures StackOk(Env(db, gen, complete), stack, frames, path) && CanonFrames(frames) && |stack| == old(|stack|)
      ensures Remaining(frames) == old(Remaining(frames))
      ensures !found ==> Remaining(frames[..|frames| - 1]) == Remaining(frames)
      ensures found ==> !p.Finished?
      ensures found && p.Ready? ==>
                ReadyOk(Env(db, gen, complete), stack, frames, path, p.state, p.path, g, Remaining(frames))
      ensures found && p.Failed? ==> !complete && Blocked(db, Remaining(frames), p.error)
    {
      hide Canon, KnownTree, Rep, AllHashed, Avail, Honest, FrameOk, Linked, StackOk, Below, Remaining, Walk, ReadyOk;
      hide Blocked, HashAt, CachedHashOf;
      ghost var env := Env(db, gen, complete);
      StackLen(env, stack, frames, path);
      var n := |stack| - 1;
      var c;
      c, g := NextChild(stack[n], frames[n], env, n == 0);
      if c.NoChild? {
        RemainingPop(frames);
        return false, Finished, g;
      }
      SettleOk(env, stack, frames, path, c.index);
      stack, frames := stack[n := stack[n].(index := c.index)], frames[n := frames[n].(index := c.index)];
      RepShape(c.node, g, false);
      if !c.node.HashRef? {
        ChildHash(c.node, g);
      }
      var sub := path + c.step;
      var s := Resolve(State(CachedHashOf(c.node), c.node, -1, |path|), sub, g, false);
      if s.Err? {
        ChildBlocked(db, frames, sub, g, s.error);
        return true, Failed(s.error), g;
      }
      ChildReady(env, stack, frames, path, s.value, sub, g);
      return true, Ready(s.value, sub), g;
    }

    /** Next: one step in order; without descending, past the current subtree. It ends only when nothing is ahead.
        Any other failure names the next node ahead, which is missing, and keeps the position. */
    method Next(descend: bool) returns (more: bool)
      requires Valid()
      modifies this`stack, this`path, this`frames, this`err, this`pending
      ensures Valid()
      ensures more ==> stack != [] && err.NoErr? && Fresh()
      ensures more && !old(err.SeekErr?) ==> old(Ahead(descend)) == [Current()] + pending
      ensures more && old(err.SeekErr?) ==>
                Resumed(old(pending), Nibbles(old(err.key)), descend, [Current()] + pending)
      ensures !more && err.EndErr? ==> pending == []
      ensures !more && err.EndErr? && !old(err.SeekErr?) ==> old(Ahead(descend)) == []
      ensures !more && err.EndErr? && old(err.SeekErr?) ==> Resumed(old(pending), Nibbles(old(err.key)), descend, [])
      ensures !more ==> !err.NoErr? && (err.MissErr? || err.SeekErr? ==> Blocked(db, pending, err.error))
      ensures !more && err.MissErr? && !old(err.SeekErr?) ==> pending == old(Ahead(descend))
      ensures !more && err.MissErr? && old(err.SeekErr?) ==>
                Resumed(old(pending), Nibbles(old(err.key)), descend, pending)
      ensures !more && err.SeekErr? ==>
                && old(err.SeekErr?) && err.key == old(err.key)
                && DropBefore(pending, Nibbles(err.key)) == DropBefore(old(pending), Nibbles(err.key))
      ensures !more && complete ==> err.EndErr? && old(Ahead(descend)) == [] && pending == []
    {
      hide TrieOk, StackOk, Remaining, ReadyOk, SkipUnder, Nibbles, DropBefore, Behind, Walk, CanonFrames, Blocked;
      if err.EndErr? {
        EndAhead(path);
        return false;
      }
      ghost var was, key := pending, if err.SeekErr? then Nibbles(err.key) else [];
      if err.SeekErr? {
        Seek(err.key);
        if !err.NoErr? {
          return false;
        }
        assert Resumed(was, key, descend, Ahead(descend));
      }
      more := Step(descend);
    }

    lemma EndAhead(p: Path)
      ensures SkipUnder([], p) == []
    {
    }

    /** Next without a pending seek. */
    method Step(descend: bool) returns (more: bool)
      requires Valid() && !err.EndErr? && !err.SeekErr?
      modifies this`stack, this`path, this`frames, this`err, this`pending
      ensures Valid()
      ensures more ==> stack != [] && err.NoErr? && Fresh() && old(Ahead(descend)) == [Current()] + pending
      ensures !more ==> err.EndErr? || err.MissErr?
      ensures err.EndErr? ==> old(Ahead(descend)) == [] == pending
      ensures err.MissErr? ==> pending == old(Ahead(descend)) && Blocked(db, pending, err.error)
    {
      hide TrieOk, StackOk, Remaining, ReadyOk, SkipUnder, Nibbles, DropBefore, Behind, Walk, CanonFrames, Blocked;
      ghost var ahead := Ahead(descend);
      var p;
      ghost var g;
      p, g := Peek(descend);
      match p
      case Finished =>
        err, pending := EndErr, [];
        more := false;
      case Failed(e) =>
        err := MissErr(e);
        if stack != [] {
          pending := ahead;
        }
        more := false;
      case Ready(s, at) =>
        err := NoErr;
        Push(s, at, g, ahead);
        pending := Remaining(frames);
        more := true;
    }

    /** seek: afterwards exactly the visits at or after the start key are left, although whole subtrees were skipped
        and the last peek was not entered. A missing node on the way is named, and none of those visits is lost. */
    method Seek(start: Bytes)
      requires Valid() && !err.EndErr? && Behind(path, Nibbles(start))
      modifies this`stack, this`path, this`frames, this`err, this`pending
      ensures Valid() && !err.MissErr? && (!err.EndErr? ==> Behind(path, Nibbles(start)))
      ensures !err.SeekErr? ==> pending == DropBefore(old(pending), Nibbles(start))
      ensures err.EndErr? ==> pending == []
      ensures err.SeekErr? ==>
                && err.key == start && Blocked(db, pending, err.error)
                && DropBefore(pending, Nibbles(start)) == DropBefore(old(pending), Nibbles(start))
      ensures complete ==> !err.SeekErr?
    {
      hide Valid, Nibbles, DropBefore, Behind, Blocked;
      var hex := KeybytesToHex(start);
      var key := hex[..|hex| - 1];
      assert key == Nibbles(start);
      ClearErr();
      var stop := false;
      while !stop
        invariant Valid() && !err.MissErr? && (!err.EndErr? ==> Behind(path, key))
        invariant !stop || err.SeekErr? ==> DropBefore(pending, key) == DropBefore(old(pending), key)
        invariant !stop ==> err.NoErr?
        invariant err.SeekErr? ==> err.key == start && Blocked(db, pending, err.error)
        invariant stop && !err.SeekErr? ==> pending == DropBefore(old(pending), key)
        invariant stop && err.EndErr? ==> pending == []
        invariant complete ==> !err.SeekErr?
        decreases !stop, |pending|
      {
        stop := SeekStep(start, key);
      }
    }

    method ClearErr()
      requires Valid() && !err.EndErr?
      modifies this`err
      ensures Valid() && err.NoErr?
    {
      err := NoErr;
    }

    method SeekStep(start: Bytes, key: Path) returns (stop: bool)
      requires Valid() && err.NoErr? && key == Nibbles(start) && Behind(path, key)
      modifies this`stack, this`path, this`frames, this`err, this`pending
      ensures Valid() && !err.MissErr? && (!err.EndErr? ==> Behind(path, key))
      ensures !stop || err.SeekErr? ==> DropBefore(pending, key) == DropBefore(old(pending), key)
      ensures !stop ==> err.NoErr?
      ensures err.SeekErr? ==> err.key == start && Blocked(db, pending, err.error)
      ensures !stop ==> |pending| < |old(pending)|
      ensures stop && !err.SeekErr? ==> pending == DropBefore(old(pending), key)
      ensures err.EndErr? ==> pending == []
      ensures complete ==> !err.SeekErr?
    {
      hide TrieOk, StackOk, Remaining, ReadyOk, SkipUnder, Nibbles, DropBefore, Before, Behind, Walk, CanonFrames;
      hide Blocked;
      ghost var ahead := Ahead(path <= key);
      if !(path <= key) {
        NotAbove(path, key);
        SkipDropped(pending, path, key);
        SkipShorter(pending, path);
      }
      BehindAll(path, key);
      var p;
      ghost var g;
      p, g := Peek(path <= key);
      match p
      case Finished =>
        DropNil(key);
        err, pending, stop := EndErr, [], true;
      case Failed(e) =>
        err, stop := SeekErr(start, e), true;
        if stack != [] {
          pending := ahead;
        }
      case Ready(s, at) =>
        stop := Enter(s, at, g, key, ahead);
    }

    /** Enters the node that was found, unless it is at or after the key. */
    method Enter(s: State, at: Path, ghost g: Tree, key: Path, ghost ahead: seq<Visit>) returns (stop: bool)
      requires TrieOk() && err.NoErr? && (stack == [] ==> ahead == Walk(tree, [], true))
      requires StackOk(Env(db, gen, complete), stack, frames, path) && CanonFrames(frames)
      requires ReadyOk(Env(db, gen, complete), stack, frames, path, s, at, g, ahead)
      modifies this`stack, this`path, this`frames, this`pending
      ensures Valid() && (stop ==> path == old(path))
      ensures stop ==> pending == ahead == DropBefore(ahead, key)
      ensures !stop ==> Behind(path, key) && DropBefore(pending, key) == DropBefore(ahead, key) && |pending| < |ahead|
    {
      hide TrieOk, StackOk, Remaining, ReadyOk, DropBefore, Before, Behind, Walk, CanonFrames;
      ReadyHead(Env(db, gen, complete), stack, frames, path, s, at, g, ahead);
      stop := !Before(at, key);
      if stop {
        DropStop(ahead, key);
        pending := ahead;
      } else {
        Push(s, at, g, ahead);
        pending := Remaining(frames);
        DropStep(ahead, Current(), pending, key);
        PushedBehind(path, key);
      }
    }

    method PeekRoot() returns (p: Peeked)
      requires Valid() && !err.EndErr? && stack == []
      ensures !p.Finished?
      ensures p.Ready? ==>
                ReadyOk(Env(db, gen, complete), stack, frames, path, p.state, p.path, tree, Walk(tree, [], true))
      ensures p.Failed? ==> !complete && Blocked(db, Walk(tree, [], true), p.error)
    {
      hide Canon, KnownTree, Rep, AllHashed, Avail, Honest, Linked, Below;
      RepShape(root, tree, true);
      var hash := if rootHash != EmptyRoot() then rootHash else ZeroHash;
      var s := Resolve(State(hash, root, -1, 0), [], tree, true);
      if s.Err? {
        return Failed(s.error);
      }
      p := Ready(s.value, []);
    }
  }

  /** Repeated Next(true): every node that was pending, in order. */
  method VisitAll(it: NodeIterator) returns (vs: seq<Visit>)
    requires it.Valid() && it.complete
    modifies it
    ensures it.Valid() && it.err.EndErr? && vs == old(it.pending)
  {
    hide NodeIterator.Valid;
    Settled(it);
    vs := [];
    var more := true;
    while more
      invariant it.Valid() && vs + it.pending == old(it.pending)
      invariant !more ==> it.err.EndErr? && it.pending == []
      decreases more, |it.pending|
    {
      Settled(it);
      ghost var before := it.pending;
      more := it.Next(true);
      if more {
        vs := vs + [it.Current()];
        assert it.pending == before[1..];
      }
    }
  }

  /** A complete trie walked from a start key: exactly the visits at or after it, and among them as leaves exactly the
      keys and values of the trie from that key on. */
  method VisitFrom(db: Store, gen: uint16, root: Node, rootHash: Hash, start: Bytes, ghost tree: Tree)
      returns (vs: seq<Visit>)
    requires Canon(tree) && !tree.Leaf? && KnownTree(tree) && Honest(db)
    requires Rep(root, tree, true) && AllHashed(root, tree) && Avail(root, tree, db)
    requires if IsNode(tree) then rootHash == TreeHash(tree) != EmptyRoot() else rootHash == EmptyRoot()
    ensures forall v :: v in vs <==> v in Walk(tree, [], true) && !Before(v.path, Nibbles(start))
    ensures forall k, v | Terminated(k) ::
              LeafAt(vs, k, v) <==> Lookup(tree, k) == Some(v) && !Before(k, Nibbles(start))
    ensures Increasing(vs)
  {
    hide Canon, KnownTree, Honest, Rep, AllHashed, Avail, NodeIterator.Valid, Walk, Nibbles, Before, DropBefore, LeafAt;
    var it := new NodeIterator(db, gen, root, rootHash, tree, true);
    it.Seek(start);
    vs := VisitAll(it);
    FromKey(tree, Nibbles(start));
  }

  lemma FromKey(tree: Tree, key: Path)
    requires Canon(tree) && !tree.Leaf?
    ensures var vs := DropBefore(Walk(tree, [], true), key);
            && Increasing(vs)
            && (forall v :: v in vs <==> v in Walk(tree, [], true) && !Before(v.path, key))
            && (forall k, v | Terminated(k) :: LeafAt(vs, k, v) <==> Lookup(tree, k) == Some(v) && !Before(k, key))
  {
    hide Canon, Walk, Before, DropBefore, Terminated;
    var all := Walk(tree, [], true);
    WalkIncreasing(tree, [], true);
    DropIncreasing(all, key);
    forall v ensures v in DropBefore(all, key) <==> v in all && !Before(v.path, key) {
      DropBeforeExact(all, key, v);
    }
    forall k, v | Terminated(k)
      ensures LeafAt(DropBefore(all, key), k, v) <==> Lookup(tree, k) == Some(v) && !Before(k, key)
    {
      TermFits(tree, k);
      WalkLeaves(tree, [], true, k, v);
      assert [] + k == k;
    }
  }

  lemma TermFits(t: Tree, k: Path)
    requires Terminated(k) && !t.Leaf?
    ensures Fits(t, k)
  {
  }

  lemma {:induction false} DropIncreasing(vs: seq<Visit>, key: Path)
    requires Increasing(vs)
    ensures Increasing(DropBefore(vs, key))
    decreases |vs|
  {
    hide Before;
    if vs != [] && Before(vs[0].path, key) {
      DropIncreasing(vs[1..], key);
    }
  }

  lemma Settled(it: NodeIterator)
    requires it.Valid() && it.complete
    ensures !it.err.SeekErr?
  {
    hide StackOk;
  }

  /** A seek for key has not gone past it. */
  predicate Behind(path: Path, key: Path) {
    path <= key || Before(path, key)
  }

  lemma BehindPrefix(p: Path, path: Path, key: Path)
    requires p <= path && Behind(path, key)
    ensures Behind(p, key)
  {
    if path <= key {
      assert p == path[..|p|] == key[..|p|];
    } else if p < path {
      BeforeExtension(p, path);
      BeforeTrans(p, path, key);
    } else {
      assert p == path;
    }
  }

  /** cache(): the cached hash, or none. */
  function CachedHashOf(n: Node): Hash {
    if (n.Short? || n.Full?) && n.flags.hash.Some? then n.flags.hash.value else ZeroHash
  }

  lemma ChildHash(n: Node, t: Tree)
    requires Canon(t) && Rep(n, t, false) && AllHashed(n, t) && !n.HashRef?
    ensures CachedHashOf(n) == HashAt(t, false)
  {
    hide TreeHash, Big;
  }

  lemma RemainingPop(frames: seq<Frame>)
    requires CanonFrames(frames) && frames != []
    requires var f := frames[|frames| - 1]; Below(f.tree, f.path, f.index) == []
    ensures Remaining(frames[..|frames| - 1]) == Remaining(frames)
  {
    hide Below;
  }

  lemma NotAbove(path: Path, key: Path)
    requires Behind(path, key) && !(path <= key)
    ensures Before(path, key)
  {
  }

  lemma PushedBehind(path: Path, key: Path)
    requires Before(path, key)
    ensures Behind(path, key)
  {
  }

  lemma BehindAll(path: Path, key: Path)
    requires Behind(path, key)
    ensures forall p | p <= path :: Behind(p, key)
  {
    forall p | p <= path ensures Behind(p, key) {
      BehindPrefix(p, path, key);
    }
  }

  lemma ReadyHead(env: Env, stack: seq<State>, frames: seq<Frame>, path: Path, s: State, p: Path, g: Tree,
                  rem: seq<Visit>)
    requires ReadyOk(env, stack, frames, path, s, p, g, rem)
    ensures rem != [] && rem[0].path == p
    ensures stack != [] ==> CanonFrames(frames) && Remaining(frames) == rem
  {
    hide StackOk, FrameOk, Below, Remaining, HashAt;
  }

  lemma DropNil(key: Path)
    ensures DropBefore([], key) == []
  {
  }

  lemma DropStop(vs: seq<Visit>, key: Path)
    requires vs != [] && !Before(vs[0].path, key)
    ensures DropBefore(vs, key) == vs
  {
  }

  lemma DropStep(vs: seq<Visit>, v: Visit, rest: seq<Visit>, key: Path)
    requires vs == [v] + rest && Before(v.path, key)
    ensures DropBefore(vs, key) == DropBefore(rest, key)
  {
    assert vs[1..] == rest;
  }

  lemma RemainingNil()
    ensures Remaining([]) == []
  {
  }

  lemma ChildBlocked(db: Store, frames: seq<Frame>, sub: Path, g: Tree, e: Missing)
    requires CanonFrames(frames) && frames != [] && Canon(g) && e == Missing(HashAt(g, false), sub) && e.hash !in db
    requires var f := frames[|frames| - 1];
             Below(f.tree, f.path, f.index) == Walk(g, sub, false) + Below(f.tree, f.path, f.index + 1)
    ensures Blocked(db, Remaining(frames), e)
  {
    hide Canon, Below, HashAt;
    assert Walk(g, sub, false)[0] == VisitOf(g, sub, false);
  }

  /** The found child, in front of what its siblings and elders still have. */
  lemma ChildReady(env: Env, stack: seq<State>, frames: seq<Frame>, path: Path, s: State, sub: Path, g: Tree)
    requires StackOk(env, stack, frames, path) && stack != [] && CanonFrames(frames)
    requires FrameOk(env, s, Frame(g, sub, -1), false) && s.pathlen == |path|
    requires var f := frames[|frames| - 1];
             && Below(f.tree, f.path, f.index) == Walk(g, sub, false) + Below(f.tree, f.path, f.index + 1)
             && Linked(f.(index := f.index + 1), Frame(g, sub, -1))
    ensures ReadyOk(env, stack, frames, path, s, sub, g, Remaining(frames))
  {
    hide Canon, KnownTree, Rep, AllHashed, Avail, Below, HashAt, Linked;
    var n := |frames| - 1;
    assert Bump(frames)[..n] == frames[..n];
    assert Walk(g, sub, false) == [VisitOf(g, sub, false)] + Below(g, sub, -1);
  }

  datatype IterErr = NoErr | EndErr | MissErr(error: Missing) | SeekErr(key: Bytes, error: Missing)
}
