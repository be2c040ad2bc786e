/** Trie nodes in memory, partly loaded and with cached hashes, and the decoder
    that loads them (trie/node.go). */
module Nodes {
  import opened Common
  import opened HexKeys
  import opened Trees
  import opened Rlp
  import opened Merkle

  type uint16 = x: int | 0 <= x < 0x1_0000

  /** Caching metadata: cached hash, cache generation, not yet written. */
  datatype Flag = Flag(hash: Option<Hash>, gen: uint16, dirty: bool)

  datatype Node =
    | Nil
    | Value(value: Bytes)
    | Short(key: Path, val: Node, flags: Flag)
    | Full(children: seq<Node>, flags: Flag)
    | HashRef(hash: Hash)

  /** A clean node whose generation is old enough, in 16-bit arithmetic. */
  predicate CanUnload(f: Flag, cachegen: uint16, cachelimit: uint16) {
    !f.dirty && (cachegen - f.gen) % 0x1_0000 >= cachelimit
  }

  // ----- decoding

  datatype DecodeError =
    | Malformed(error: Rlp.Error)
    | ElementCount
    | Oversized
    | RefSize
    | EmptyKeyPanic

  datatype Ref = Ref(node: Node, rest: Bytes)

  function DecodeNode(hash: Option<Hash>, buf: Bytes, gen: uint16): Result<Node, DecodeError>
    decreases |buf|, 0
  {
    if |buf| == 0 then Err(Malformed(UnexpectedEOF)) else
    match SplitList(buf)
    case Err(e) => Err(Malformed(e))
    case Ok(p) =>
      var c := Count(p.content);
      if c == Ok(2) then DecodeShort(hash, p.content, gen)
      else if c == Ok(17) then DecodeFull(hash, p.content, gen)
      else Err(ElementCount)
  }

  function DecodeShort(hash: Option<Hash>, elems: Bytes, gen: uint16): Result<Node, DecodeError>
    decreases |elems|, 3
  {
    match SplitString(elems)
    case Err(e) => Err(Malformed(e))
    case Ok(k) =>
      if k.content == [] then Err(EmptyKeyPanic) else
      var key := Expand(k.content);
      if HasTerm(key) then
        match SplitString(k.rest) {
          case Err(e) => Err(Malformed(e))
          case Ok(v) => Ok(Short(key, Value(v.content), Flag(hash, gen, false)))
        }
      else
        match DecodeRef(k.rest, gen) {
          case Err(e) => Err(e)
          case Ok(r) => Ok(Short(key, r.node, Flag(hash, gen, false)))
        }
  }

  function DecodeFull(hash: Option<Hash>, elems: Bytes, gen: uint16): Result<Node, DecodeError>
    decreases |elems|, 3
  {
    match DecodeChildren(elems, 16, gen)
    case Err(e) => Err(e)
    case Ok(c) =>
      match SplitString(c.rest)
      case Err(e) => Err(Malformed(e))
      case Ok(v) =>
        var last := if |v.content| > 0 then Value(v.content) else Nil;
        Ok(Full(c.nodes + [last], Flag(hash, gen, false)))
  }

  datatype Refs = Refs(nodes: seq<Node>, rest: Bytes)

  function DecodeChildren(elems: Bytes, n: nat, gen: uint16): (r: Result<Refs, DecodeError>)
    ensures r.Ok? ==> |r.value.nodes| == n && |r.value.rest| <= |elems|
    decreases |elems|, 2, n
  {
    if n == 0 then Ok(Refs([], elems)) else
    match DecodeRef(elems, gen)
    case Err(e) => Err(e)
    case Ok(r) =>
      match DecodeChildren(r.rest, n - 1, gen)
      case Err(e) => Err(e)
      case Ok(c) => Ok(Refs([r.node] + c.nodes, c.rest))
  }

  /** decodeFull fills the children one by one. */
  method FillFull(hash: Option<Hash>, elems: Bytes, gen: uint16) returns (r: Result<Node, DecodeError>)
    ensures r == DecodeFull(hash, elems, gen)
  {
    hide DecodeRef;
    var children: seq<Node>, rest := [], elems;
    FrontNone(DecodeChildren(elems, 16, gen));
    for i := 0 to 16
      invariant |children| == i && DecodeChildren(elems, 16, gen) == Front(children, DecodeChildren(rest, 16 - i, gen))
    {
      var cld := DecodeRef(rest, gen);
      if cld.Err? {
        return Err(cld.error);
      }
      FrontSnoc(children, cld.value.node, DecodeChildren(cld.value.rest, 15 - i, gen));
      children, rest := children + [cld.value.node], cld.value.rest;
    }
    assert children + [] == children;
    var v := SplitString(rest);
    if v.Err? {
      return Err(Malformed(v.error));
    }
    var last := if |v.value.content| > 0 then Value(v.value.content) else Nil;
    return Ok(Full(children + [last], Flag(hash, gen, false)));
  }

  ghost function Front(nodes: seq<Node>, r: Result<Refs, DecodeError>): Result<Refs, DecodeError> {
    if r.Err? then r else Ok(Refs(nodes + r.value.nodes, r.value.rest))
  }

  lemma FrontNone(r: Result<Refs, DecodeError>)
    ensures Front([], r) == r
  {
    if r.Ok? {
      assert [] + r.value.nodes == r.value.nodes;
    }
  }

  lemma FrontSnoc(a: seq<Node>, n: Node, r: Result<Refs, DecodeError>)
    ensures Front(a, Front([n], r)) == Front(a + [n], r)
  {
    if r.Ok? {
      assert a + ([n] + r.value.nodes) == a + [n] + r.value.nodes;
    }
  }

  function DecodeRef(buf: Bytes, gen: uint16): (r: Result<Ref, DecodeError>)
    ensures r.Ok? ==> |r.value.rest| < |buf|
    decreases |buf|, 1
  {
    match Split(buf)
    case Err(e) => Err(Malformed(e))
    case Ok(p) =>
      if p.kind.Sequence? then
        if |buf| - |p.rest| > 32 then Err(Oversized) else
        match DecodeNode(None, buf, gen) {
          case Err(e) => Err(e)
          case Ok(n) => Ok(Ref(n, p.rest))
        }
      else if p.kind.String? && |p.content| == 0 then Ok(Ref(Nil, p.rest))
      else if p.kind.String? && |p.content| == 32 then Ok(Ref(HashRef(p.content), p.rest))
      else Err(RefSize)
  }

  // ----- decoding inverts the Merkle form

  /** t as the decoder rebuilds it: embedded nodes loaded, large ones by hash. */
  function Shallow(t: Tree, hash: Option<Hash>, gen: uint16): Node
    requires Canon(t) && IsNode(t)
    decreases t, 0
  {
    if t.Ext? then Short(t.key, ShallowRef(t.child, gen), Flag(hash, gen, false))
    else Full(seq(17, i requires 0 <= i < 17 => ShallowRef(t.children[i], gen)), Flag(hash, gen, false))
  }

  function ShallowRef(t: Tree, gen: uint16): Node
    requires Canon(t)
    decreases t, 1
  {
    if t.Empty? then Nil
    else if t.Leaf? then Value(t.value)
    else if Big(t) then HashRef(TreeHash(t))
    else Shallow(t, None, gen)
  }

  lemma {:induction false} CountAll(items: seq<Item>)
    requires |EncodeAll(items)| < TWO_64
    ensures Count(EncodeAll(items)) == Ok(|items|)
  {
    if items != [] {
      CountAll(items[1..]);
      SplitItem(items[0], EncodeAll(items[1..]));
    }
  }

  /** Splitting off the first encoded item. */
  lemma SplitItem(item: Item, rest: Bytes)
    requires |Encode(item)| < TWO_64
    ensures var r := Split(Encode(item) + rest);
            && r.Ok? && r.value.rest == rest
            && ReadKind(Encode(item) + rest).Ok?
            && var h := ReadKind(Encode(item) + rest).value; (Encode(item) + rest)[h.tag + h.size..] == rest
  {
    hide Rlp.ReadKind, EncodeStr, EncodeAll, WrapList;
    match item
    case Str(s) =>
      EncodeStrLen(s);
      SplitStr(s, rest);
    case List(items) =>
      WrapLen(EncodeAll(items));
      SplitWrapped(EncodeAll(items), rest);
  }

  lemma BlobForm(t: Tree)
    requires Canon(t) && IsNode(t)
    ensures NodeItem(t).List? && |NodeItem(t).items| == if t.Ext? then 2 else 17
    ensures Blob(t) == WrapList(EncodeAll(NodeItem(t).items))
    ensures |EncodeAll(NodeItem(t).items)| < |Blob(t)|
  {
    hide Header, EncodeAll;
  }

  /** decodeNode rebuilds every canonical node from its stored form. */
  lemma {:induction false} DecodeNodeOf(t: Tree, hash: Option<Hash>, gen: uint16, rest: Bytes)
    requires Canon(t) && IsNode(t) && |Blob(t)| < TWO_64
    ensures DecodeNode(hash, Blob(t) + rest, gen) == Ok(Shallow(t, hash, gen))
    decreases t, 2
  {
    hide Canon, Blob, WrapList, EncodeAll, Split, Count, NodeItem, DecodeShort, DecodeFull, Shallow;
    BlobForm(t);
    SplitWrapped(EncodeAll(NodeItem(t).items), rest);
    CountAll(NodeItem(t).items);
    if t.Ext? {
      DecodeShortOf(t, hash, gen);
    } else {
      DecodeFullOf(t, hash, gen);
    }
  }

  // ----- what decodes and what panics, over all values

  /** The item is the form of a node: a short node with a key, or a full node. */
  predicate NodeOk(item: Item)
    decreases item, 0
  {
    && item.List?
    && if |item.items| == 2 then ShortOk(item.items[0], item.items[1])
       else |item.items| == 17 && item.items[16].Str? && forall i | 0 <= i < 16 :: RefOk(item.items[i])
  }

  predicate ShortOk(key: Item, val: Item)
    decreases val, 2
  {
    && key.Str? && key.bytes != []
    && if HasTerm(Expand(key.bytes)) then val.Str? else RefOk(val)
  }

  /** Nothing, a hash, or a node of at most 32 bytes. */
  predicate RefOk(item: Item)
    decreases item, 1
  {
    if item.Str? then |item.bytes| == 0 || |item.bytes| == 32 else |Encode(item)| <= 32 && NodeOk(item)
  }

  /** Decoding comes to an empty key: in the item itself, or in an embedded node with nothing wrong before it. */
  predicate NodePanics(item: Item)
    decreases item, 0
  {
    && item.List?
    && if |item.items| == 2 then ShortPanics(item.items[0], item.items[1])
       else |item.items| == 17 && AnyPanics(item.items, 16)
  }

  /** The first of n children that is not right panics. */
  predicate AnyPanics(items: seq<Item>, n: nat)
    requires n <= |items|
    decreases items, 0
  {
    n > 0 && (RefPanics(items[0]) || (RefOk(items[0]) && AnyPanics(items[1..], n - 1)))
  }

  predicate ShortPanics(key: Item, val: Item)
    decreases val, 2
  {
    key.Str? && (key.bytes == [] || (!HasTerm(Expand(key.bytes)) && RefPanics(val)))
  }

  predicate RefPanics(item: Item)
    decreases item, 1
  {
    item.List? && |Encode(item)| <= 32 && NodePanics(item)
  }

  /** On the encoding of any value, whatever follows it: decodeNode succeeds exactly on the forms of nodes, and panics
      exactly when it comes to an empty key, of which it reads the first byte. */
  lemma {:induction false} EmptyKeyPanics(hash: Option<Hash>, item: Item, gen: uint16, rest: Bytes)
    requires |Encode(item)| < TWO_64
    ensures DecodeNode(hash, Encode(item) + rest, gen).Ok? <==> NodeOk(item)
    ensures DecodeNode(hash, Encode(item) + rest, gen) == Err(EmptyKeyPanic) <==> NodePanics(item)
    decreases item, 0
  {
    hide WrapList, EncodeStr, EncodeAll, Split, Count, DecodeShort, DecodeFull, NodeOk, NodePanics;
    match item
    case Str(s) =>
      EncodeStrLen(s);
      SplitStr(s, rest);
      NotNode(item);
    case List(items) =>
      WrapLen(EncodeAll(items));
      SplitWrapped(EncodeAll(items), rest);
      CountAll(items);
      NodeCases(item);
      if |items| == 2 {
        ShortDecodes(hash, items, gen);
      } else if |items| == 17 {
        FullDecodes(hash, items, gen);
      }
  }

  lemma NotNode(item: Item)
    requires item.Str?
    ensures !NodeOk(item) && !NodePanics(item)
  {
  }

  lemma NodeCases(item: Item)
    requires item.List?
    ensures |item.items| == 2 ==> (NodeOk(item) <==> ShortOk(item.items[0], item.items[1]))
    ensures |item.items| == 2 ==> (NodePanics(item) <==> ShortPanics(item.items[0], item.items[1]))
    ensures |item.items| == 17 ==>
              (NodeOk(item) <==> item.items[16].Str? && forall i | 0 <= i < 16 :: RefOk(item.items[i]))
    ensures |item.items| == 17 ==> (NodePanics(item) <==> AnyPanics(item.items, 16))
    ensures NodeOk(item) || NodePanics(item) ==> |item.items| == 2 || |item.items| == 17
  {
    hide ShortOk, ShortPanics, RefOk, AnyPanics;
  }

  lemma {:induction false} ShortDecodes(hash: Option<Hash>, items: seq<Item>, gen: uint16)
    requires |items| == 2 && |EncodeAll(items)| < TWO_64
    ensures DecodeShort(hash, EncodeAll(items), gen).Ok? <==> ShortOk(items[0], items[1])
    ensures DecodeShort(hash, EncodeAll(items), gen) == Err(EmptyKeyPanic) <==> ShortPanics(items[0], items[1])
    decreases items, 0
  {
    hide WrapList, EncodeStr, Split, DecodeRef, Expand, RefOk, RefPanics;
    var tail := Encode(items[1]);
    PairPayload(items);
    PartLen(items, 0);
    PartLen(items, 1);
    SplitKind(items[0], tail);
    SplitKind(items[1], []);
    assert tail + [] == tail;
    RefDecodes(items[1], gen, []);
  }

  lemma PairPayload(items: seq<Item>)
    requires |items| == 2
    ensures EncodeAll(items) == Encode(items[0]) + Encode(items[1])
  {
    hide Encode;
    LastPayload(items[1]);
    assert items[1..] == [items[1]];
  }

  /** Splitting off an encoded item tells strings from lists. */
  lemma SplitKind(item: Item, rest: Bytes)
    requires |Encode(item)| < TWO_64
    ensures var r := Split(Encode(item) + rest);
            && r.Ok? && r.value.rest == rest && (r.value.kind.Sequence? <==> item.List?)
            && (item.Str? ==>
                  && r.value.content == item.bytes
                  && (r.value.kind.Byte? <==> |item.bytes| == 1 && item.bytes[0] < 0x80))
  {
    hide Split, EncodeStr, EncodeAll, WrapList;
    match item
    case Str(s) =>
      EncodeStrLen(s);
      SplitStr(s, rest);
    case List(items) =>
      WrapLen(EncodeAll(items));
      SplitWrapped(EncodeAll(items), rest);
  }

  lemma {:induction false} RefDecodes(item: Item, gen: uint16, rest: Bytes)
    requires |Encode(item)| < TWO_64
    ensures DecodeRef(Encode(item) + rest, gen).Ok? <==> RefOk(item)
    ensures DecodeRef(Encode(item) + rest, gen).Ok? ==> DecodeRef(Encode(item) + rest, gen).value.rest == rest
    ensures DecodeRef(Encode(item) + rest, gen) == Err(EmptyKeyPanic) <==> RefPanics(item)
    decreases item, 1
  {
    hide Split, DecodeNode, NodeOk, NodePanics, Encode;
    SplitKind(item, rest);
    if item.List? {
      EmptyKeyPanics(None, item, gen, rest);
    }
  }

  lemma {:induction false} FullDecodes(hash: Option<Hash>, items: seq<Item>, gen: uint16)
    requires |items| == 17 && |EncodeAll(items)| < TWO_64
    ensures DecodeFull(hash, EncodeAll(items), gen).Ok? <==>
            items[16].Str? && forall i | 0 <= i < 16 :: RefOk(items[i])
    ensures DecodeFull(hash, EncodeAll(items), gen) == Err(EmptyKeyPanic) <==> AnyPanics(items, 16)
    decreases items, 0
  {
    hide EncodeAll, Encode, Split, DecodeChildren, RefOk, AnyPanics;
    ChildrenDecode(items, items, 16, gen);
    var last := items[16];
    PartLen(items, 16);
    assert items[16..] == [last];
    LastPayload(last);
    SplitKind(last, []);
    assert Encode(last) + [] == Encode(last);
  }

  lemma LastPayload(item: Item)
    ensures EncodeAll([item]) == Encode(item)
  {
    hide Encode;
    assert [item][1..] == [];
    assert EncodeAll([item]) == Encode(item) + EncodeAll([]);
  }

  lemma {:induction false} ChildrenDecode(all: seq<Item>, items: seq<Item>, n: nat, gen: uint16)
    requires n <= |items| <= |all| && items == all[|all| - |items|..] && |EncodeAll(items)| < TWO_64
    ensures DecodeChildren(EncodeAll(items), n, gen).Ok? <==> forall i | 0 <= i < n :: RefOk(items[i])
    ensures DecodeChildren(EncodeAll(items), n, gen).Ok? ==>
              DecodeChildren(EncodeAll(items), n, gen).value.rest == EncodeAll(items[n..])
    ensures DecodeChildren(EncodeAll(items), n, gen) == Err(EmptyKeyPanic) <==> AnyPanics(items, n)
    decreases all, 0, n
  {
    hide Encode, DecodeRef, RefOk, RefPanics;
    if n == 0 {
      assert items[n..] == items;
    } else {
      var x, rest := items[0], items[1..];
      assert EncodeAll(items) == Encode(x) + EncodeAll(rest);
      assert x == all[|all| - |items|];
      RefDecodes(x, gen, EncodeAll(rest));
      ChildrenDecode(all, rest, n - 1, gen);
      assert items[n..] == rest[n - 1..];
      assert (forall i | 0 <= i < n :: RefOk(items[i])) <==>
             RefOk(x) && forall i | 0 <= i < n - 1 :: RefOk(rest[i]);
    }
  }

  /** The shortest data that panics: a list of two empty strings. */
  lemma ShortestPanic()
    ensures var item := List([Str([]), Str([])]); NodePanics(item) && Encode(item) == [0xC2, 0x80, 0x80]
  {
    var items := [Str([]), Str([])];
    PairPayload(items);
    assert EncodeAll(items) == [0x80, 0x80];
    assert Encode(List(items)) == [0xC2] + [0x80, 0x80];
  }

  lemma ShortPayload(t: Tree)
    requires Canon(t) && t.Ext?
    ensures EncodeAll(NodeItem(t).items) == EncodeStr(Compact(t.key)) + Encode(RefItem(t.child))
    ensures t.child.Leaf? ==> Encode(RefItem(t.child)) == EncodeStr(t.child.value)
    ensures |Compact(t.key)| <= |EncodeStr(Compact(t.key))|
    ensures t.child.Leaf? ==> |t.child.value| <= |EncodeStr(t.child.value)|
  {
    hide Header, Compact;
    var items := NodeItem(t).items;
    assert items[1..] == [items[1]] && items[1..][1..] == [];
    assert EncodeAll(items[1..]) == Encode(items[1]);
  }

  lemma {:induction false} DecodeShortOf(t: Tree, hash: Option<Hash>, gen: uint16)
    requires Canon(t) && t.Ext? && |EncodeAll(NodeItem(t).items)| < TWO_64
    ensures DecodeShort(hash, EncodeAll(NodeItem(t).items), gen) == Ok(Shallow(t, hash, gen))
    decreases t, 1
  {
    hide EncodeAll, Encode, EncodeStr, NodeItem, RefItem, Compact, Expand, Split, DecodeRef;
    ShortPayload(t);
    var tail := Encode(RefItem(t.child));
    SplitStr(Compact(t.key), tail);
    ExpandCompact(t.key);
    assert tail == tail + [];
    if HasTerm(t.key) {
      SplitStr(t.child.value, []);
    } else {
      DecodeRefOf(t.child, gen, []);
    }
  }

  lemma {:induction false} DecodeRefOf(t: Tree, gen: uint16, rest: Bytes)
    requires Canon(t) && !t.Leaf?
    ensures DecodeRef(Encode(RefItem(t)) + rest, gen) == Ok(Ref(ShallowRef(t, gen), rest))
    decreases t, 3
  {
    hide Canon, NodeItem, Shallow, Split, DecodeNode, EncodeStr, WrapList, EncodeAll;
    if t.Empty? {
      SplitStr([], rest);
    } else if Big(t) {
      SplitStr(TreeHash(t), rest);
    } else {
      BlobForm(t);
      SplitWrapped(EncodeAll(NodeItem(t).items), rest);
      DecodeNodeOf(t, None, gen, rest);
    }
  }

  lemma FullPayload(t: Tree, i: nat)
    requires Canon(t) && t.Branch? && i <= 16
    ensures NodeItem(t).List? && |NodeItem(t).items| == 17
    ensures var items := NodeItem(t).items;
            EncodeAll(items[i..]) == Encode(RefItem(t.children[i])) + EncodeAll(items[i + 1..])
    ensures EncodeAll(NodeItem(t).items[17..]) == []
  {
    hide Encode, RefItem;
    var items := NodeItem(t).items;
    assert items[i..][0] == RefItem(t.children[i]) && items[i..][1..] == items[i + 1..];
  }

  lemma {:induction false} DecodeChildrenOf(t: Tree, i: nat, gen: uint16)
    requires Canon(t) && t.Branch? && i <= 16
    ensures NodeItem(t).List? && |NodeItem(t).items| == 17
    ensures DecodeChildren(EncodeAll(NodeItem(t).items[i..]), 16 - i, gen)
         == Ok(Refs(Shallow(t, None, gen).children[i..16], Encode(RefItem(t.children[16]))))
    decreases t, 0, 16 - i
  {
    hide NodeItem, EncodeAll, Encode, RefItem, DecodeRef, ShallowRef;
    FullPayload(t, i);
    if i == 16 {
      var tail := Encode(RefItem(t.children[16]));
      assert tail + [] == tail;
    } else {
      DecodeRefOf(t.children[i], gen, EncodeAll(NodeItem(t).items[i + 1..]));
      DecodeChildrenOf(t, i + 1, gen);
      var nodes := Shallow(t, None, gen).children;
      assert nodes[i..16] == [nodes[i]] + nodes[i + 1..16];
    }
  }

  lemma LastRef(t: Tree)
    requires Canon(t) && (t.Leaf? || t.Empty?)
    ensures Encode(RefItem(t)) == EncodeStr(if t.Empty? then [] else t.value)
    ensures t.Leaf? ==> |t.value| <= |Encode(RefItem(t))|
  {
    hide Header;
  }

  lemma LastBound(t: Tree)
    requires Canon(t) && t.Branch?
    ensures NodeItem(t).List? && |Encode(RefItem(t.children[16]))| <= |EncodeAll(NodeItem(t).items)|
  {
    hide Encode, EncodeAll, RefItem;
    PartLen(NodeItem(t).items, 16);
  }

  lemma {:induction false} DecodeFullOf(t: Tree, hash: Option<Hash>, gen: uint16)
    requires Canon(t) && t.Branch?
    requires NodeItem(t).List? && |EncodeAll(NodeItem(t).items)| < TWO_64
    ensures DecodeFull(hash, EncodeAll(NodeItem(t).items), gen) == Ok(Shallow(t, hash, gen))
    decreases t, 1
  {
    hide NodeItem, EncodeAll, Encode, EncodeStr, RefItem, DecodeChildren, Split;
    var items, last := NodeItem(t).items, t.children[16];
    LastBound(t);
    LastRef(last);
    DecodeChildrenOf(t, 0, gen);
    assert items[0..] == items;
    var tail := Encode(RefItem(last));
    assert tail == tail + [];
    SplitStr(if last.Empty? then [] else last.value, []);
    var nodes := Shallow(t, None, gen).children;
    assert nodes == nodes[0..16] + [ShallowRef(last, gen)];
  }
}
