/** The Merkle structure of a tree: the RLP form of a node with its children
    collapsed to references, and the hash of that form (trie/hasher.go, with the
    caching taken away; Appendix D of the Yellow Paper). */
module Merkle {
  import opened Common
  import opened HexKeys
  import opened Trees
  import opened Rlp

  /** A tree that is stored as a node of its own. */
  predicate IsNode(t: Tree) {
    t.Ext? || t.Branch?
  }

  /** The node itself, its children replaced by references. */
  function NodeItem(t: Tree): Item
    requires Canon(t) && IsNode(t)
    decreases t, 0
  {
    if t.Ext? then List([Str(Compact(t.key)), RefItem(t.child)])
    else List(seq(17, i requires 0 <= i < 17 => RefItem(t.children[i])))
  }

  /** What a parent holds of t: a small node is embedded, a larger one hashed. */
  function RefItem(t: Tree): Item
    requires Canon(t)
    decreases t, 1
  {
    if t.Empty? then Str([])
    else if t.Leaf? then Str(t.value)
    else if |Encode(NodeItem(t))| < 32 then NodeItem(t)
    else Str(Keccak(Encode(NodeItem(t))))
  }

  function Blob(t: Tree): (b: Bytes)
    requires Canon(t) && IsNode(t)
    ensures |b| > 0
  {
    Encode(NodeItem(t))
  }

  function TreeHash(t: Tree): Hash
    requires Canon(t) && IsNode(t)
  {
    Keccak(Blob(t))
  }

  predicate Big(t: Tree)
    requires Canon(t) && IsNode(t)
  {
    |Blob(t)| >= 32
  }

  /** The node at path p has hash h. */
  predicate HashedAt(t: Tree, p: Path, h: Hash)
    requires Canon(t)
  {
    var u := NodeAt(t, p);
    u.Some? && IsNode(u.value) && h == TreeHash(u.value)
  }

  /** Shorter than 32 bytes is embedded, 32 and longer is replaced by its hash; so a reference takes less than 32
      bytes or exactly 33. */
  lemma ReferenceLength(t: Tree)
    requires Canon(t) && IsNode(t)
    ensures RefItem(t) == (if |Encode(NodeItem(t))| < 32 then NodeItem(t) else Str(TreeHash(t)))
    ensures |Encode(NodeItem(t))| >= 32 <==> |Encode(RefItem(t))| == 33
    ensures |Encode(NodeItem(t))| < 32 <==> |Encode(RefItem(t))| < 32
  {
    hide NodeItem;
    if |Encode(NodeItem(t))| >= 32 {
      HashItem(TreeHash(t));
    }
  }

  lemma HashItem(h: Hash)
    ensures Encode(Str(h)) == [0xA0] + h
  {
  }

  /** The hash of the empty trie, Keccak of the RLP of the empty string. */
  function EmptyRoot(): Hash {
    Keccak(Encode(Str([])))
  }

  function RootHash(t: Tree): Hash
    requires Canon(t) && !t.Leaf?
  {
    if t.Empty? then EmptyRoot() else TreeHash(t)
  }

  /** The node blobs of t are free of hash collisions. */
  ghost predicate KnownTree(t: Tree)
    requires Canon(t)
  {
    && (IsNode(t) ==> Known(Blob(t)))
    && (t.Ext? ==> KnownTree(t.child))
    && (t.Branch? ==> forall i | 0 <= i < 17 :: KnownTree(t.children[i]))
  }
}
