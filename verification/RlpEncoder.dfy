/** The RLP encoder of rlp/encode.go. List headers are not written in place: the
    buffer collects string data and list heads apart, and merges them at the end. */
module RlpEncoder {
  import opened Common
  import opened Rlp

  // ----- integers and headers in a buffer

  /** The low byte of i shifted right by k bytes. */
  function Digit(i: nat, k: nat): byte {
    if k == 0 then i % 256 else Digit(i / 256, k - 1)
  }

  /** The digits of the shortest big-endian form, most significant first. */
  lemma {:induction false} BigEndianDigit(i: nat, k: nat)
    requires k < |BigEndian(i)|
    ensures BigEndian(i)[k] == Digit(i, |BigEndian(i)| - 1 - k)
  {
    var n := |BigEndian(i)|;
    if i >= 256 {
      if k < n - 1 {
        BigEndianDigit(i / 256, k);
      }
    }
  }

  /** The length of the shortest form, by the ranges putint switches on. */
  lemma BigEndianRange(i: nat, n: nat)
    requires n > 0 && i < Pow256(n) && (n > 1 ==> i >= Pow256(n - 1))
    ensures |BigEndian(i)| == n
  {
    BigEndianLen(i, n);
    if n > 1 {
      BigEndianLen(i, n - 1);
    }
  }

  lemma Pow256Values()
    ensures Pow256(1) == 0x100 && Pow256(2) == 0x1_0000 && Pow256(3) == 0x100_0000 && Pow256(4) == 0x1_0000_0000
    ensures Pow256(5) == 0x100_0000_0000 && Pow256(6) == 0x1_0000_0000_0000
    ensures Pow256(7) == 0x100_0000_0000_0000 && Pow256(8) == TWO_64
  {
    assert Pow256(1) == 0x100;
    assert Pow256(2) == 0x1_0000;
    assert Pow256(3) == 0x100_0000;
    assert Pow256(4) == 0x1_0000_0000;
    assert Pow256(5) == 0x100_0000_0000;
    assert Pow256(6) == 0x1_0000_0000_0000;
    assert Pow256(7) == 0x100_0000_0000_0000;
  }

  /** The byte array with s written at position at. */
  ghost function Spliced(b: Bytes, at: nat, s: Bytes): Bytes
    requires at + |s| <= |b|
  {
    b[..at] + s + b[at + |s|..]
  }

  lemma SplicedFront(b: Bytes, at: nat, x: byte, s: Bytes)
    requires at + 1 + |s| <= |b|
    ensures Spliced(b, at + 1, s)[at := x] == Spliced(b, at, [x] + s)
  {
  }

  lemma SplicedNone(b: Bytes, at: nat)
    requires at <= |b|
    ensures Spliced(b, at, []) == b
  {
  }

  lemma SplicedSnoc(b: Bytes, at: nat, s: Bytes, x: byte)
    requires at + |s| < |b|
    ensures Spliced(b, at, s)[at + |s| := x] == Spliced(b, at, s + [x])
  {
  }

  /** What is before, in and after the written part. */
  lemma SplicedParts(b: Bytes, at: nat, s: Bytes)
    requires at + |s| <= |b|
    ensures var r := Spliced(b, at, s);
            && |r| == |b| && r[..at] == b[..at] && r[..at + |s|] == b[..at] + s && r[at + |s|..] == b[at + |s|..]
  {
  }

  /** The copy of Go: as much of src as fits. */
  method Copy(dst: array<byte>, at: nat, src: Bytes) returns (n: nat)
    requires at <= dst.Length
    modifies dst
    ensures n == if |src| <= dst.Length - at then |src| else dst.Length - at
    ensures dst[..] == Spliced(old(dst[..]), at, src[..n])
  {
    hide Spliced;
    n := 0;
    ghost var was := dst[..];
    SplicedNone(was, at);
    while n < |src| && at + n < dst.Length
      invariant 0 <= n <= |src| && at + n <= dst.Length
      invariant dst[..] == Spliced(was, at, src[..n])
    {
      ghost var mid := dst[..];
      dst[at + n] := src[n];
      assert dst[..] == mid[at + n := src[n]];
      SplicedSnoc(was, at, src[..n], src[n]);
      assert src[..n + 1] == src[..n] + [src[n]];
      n := n + 1;
    }
  }

  /** The digits putint stores. */
  method PutInt(b: array<byte>, at: nat, i: nat) returns (size: nat)
    requires i < TWO_64 && at + |BigEndian(i)| <= b.Length
    modifies b
    ensures size == |BigEndian(i)| && b[..] == Spliced(old(b[..]), at, BigEndian(i))
  {
    hide BigEndian, Digit, Pow256;
    Pow256Values();
    var ds: Bytes;
    if i < 0x100 {
      ds := [Digit(i, 0)];
    } else if i < 0x1_0000 {
      ds := [Digit(i, 1), Digit(i, 0)];
    } else if i < 0x100_0000 {
      ds := [Digit(i, 2), Digit(i, 1), Digit(i, 0)];
    } else if i < 0x1_0000_0000 {
      ds := [Digit(i, 3), Digit(i, 2), Digit(i, 1), Digit(i, 0)];
    } else if i < 0x100_0000_0000 {
      ds := [Digit(i, 4), Digit(i, 3), Digit(i, 2), Digit(i, 1), Digit(i, 0)];
    } else if i < 0x1_0000_0000_0000 {
      ds := [Digit(i, 5), Digit(i, 4), Digit(i, 3), Digit(i, 2), Digit(i, 1), Digit(i, 0)];
    } else if i < 0x100_0000_0000_0000 {
      ds := [Digit(i, 6), Digit(i, 5), Digit(i, 4), Digit(i, 3), Digit(i, 2), Digit(i, 1), Digit(i, 0)];
    } else {
      ds := [Digit(i, 7), Digit(i, 6), Digit(i, 5), Digit(i, 4), Digit(i, 3), Digit(i, 2), Digit(i, 1), Digit(i, 0)];
    }
    BigEndianRange(i, |ds|);
    forall k | 0 <= k < |ds| ensures ds[k] == BigEndian(i)[k] {
      BigEndianDigit(i, k);
    }
    assert ds == BigEndian(i);
    size := Copy(b, at, ds);
    assert ds[..size] == ds;
  }

  /** The number of bytes putint stores. */
  method IntSize(i: nat) returns (size: nat)
    ensures size == |BigEndian(i)|
  {
    var j: nat := i / 256;
    size := 1;
    while j != 0
      invariant |BigEndian(i)| == size + if j == 0 then 0 else |BigEndian(j)|
      decreases j
    {
      j := j / 256;
      size := size + 1;
    }
  }

  method PutHead(b: array<byte>, at: nat, small: byte, large: byte, size: nat) returns (n: nat)
    requires size < TWO_64 && at + |Header(small, large, size)| <= b.Length
    modifies b
    ensures n == |Header(small, large, size)| && b[..] == Spliced(old(b[..]), at, Header(small, large, size))
  {
    hide BigEndian, Spliced;
    ghost var was := b[..];
    if size < 56 {
      var tag: byte := (small + size) % 256;
      b[at] := tag;
      SplicedNone(was, at);
      SplicedSnoc(was, at, [], tag);
      assert b[..] == was[at := tag] && [] + [tag] == [tag];
      n := 1;
    } else {
      var sizesize := PutInt(b, at + 1, size);
      ghost var mid := b[..];
      var tag: byte := (large + sizesize) % 256;
      b[at] := tag;
      assert b[..] == mid[at := tag];
      SplicedFront(was, at, tag, BigEndian(size));
      n := sizesize + 1;
    }
  }

  // ----- the collected form of an item

  datatype ListHead = ListHead(offset: nat, size: int)

  /** The string data of an item: its encoding without the list headers. */
  ghost function Data(item: Item): Bytes
    decreases item
  {
    match item
    case Str(s) => EncodeStr(s)
    case List(items) => DataAll(items)
  }

  ghost function DataAll(items: seq<Item>): Bytes
    decreases items
  {
    if items == [] then [] else Data(items[0]) + DataAll(items[1..])
  }

  /** The list heads of an item in pre-order, its data starting at offset. */
  ghost function Heads(item: Item, offset: nat): seq<ListHead>
    decreases item
  {
    match item
    case Str(_) => []
    case List(items) => [ListHead(offset, |EncodeAll(items)|)] + HeadsAll(items, offset)
  }

  ghost function HeadsAll(items: seq<Item>, offset: nat): seq<ListHead>
    decreases items
  {
    if items == [] then [] else Heads(items[0], offset) + HeadsAll(items[1..], offset + |Data(items[0])|)
  }

  lemma {:induction false} DataSnoc(items: seq<Item>, x: Item)
    ensures DataAll(items + [x]) == DataAll(items) + Data(x)
    decreases |items|
  {
    hide Data;
    if items == [] {
      assert ([] + [x])[1..] == [];
    } else {
      DataSnoc(items[1..], x);
      assert (items + [x])[1..] == items[1..] + [x];
    }
  }

  lemma {:induction false} HeadsSnoc(items: seq<Item>, x: Item, offset: nat)
    ensures HeadsAll(items + [x], offset) == HeadsAll(items, offset) + Heads(x, offset + |DataAll(items)|)
    decreases |items|
  {
    hide Data, Heads;
    if items == [] {
      assert ([] + [x])[1..] == [];
    } else {
      HeadsSnoc(items[1..], x, offset + |Data(items[0])|);
      assert (items + [x])[1..] == items[1..] + [x];
    }
  }

  lemma EncodeSnoc(items: seq<Item>, x: Item)
    ensures EncodeAll(items + [x]) == EncodeAll(items) + Encode(x)
  {
    EncodeAllConcat(items, [x]);
    assert [x][1..] == [] && EncodeAll([x]) == Encode(x) + [];
  }

  /** Offsets do not decrease, from lo up to hi. */
  ghost predicate Ordered(heads: seq<ListHead>, lo: nat, hi: nat)
    decreases |heads|
  {
    if heads == [] then lo <= hi else lo <= heads[0].offset && Ordered(heads[1..], heads[0].offset, hi)
  }

  lemma {:induction false} OrderedFrom(heads: seq<ListHead>, lo: nat, mid: nat, hi: nat)
    requires lo <= mid && Ordered(heads, mid, hi)
    ensures Ordered(heads, lo, hi)
  {
    if heads == [] {
    } else {
      assert Ordered(heads[1..], heads[0].offset, hi);
    }
  }

  /** In an ordered list every offset is in range and none is below an earlier one. */
  lemma {:induction false} OrderedPairs(heads: seq<ListHead>, lo: nat, hi: nat)
    requires Ordered(heads, lo, hi)
    ensures lo <= hi
    ensures forall i | 0 <= i < |heads| :: lo <= heads[i].offset <= hi
    ensures forall i, j | 0 <= i < j < |heads| :: heads[i].offset <= heads[j].offset
    decreases |heads|
  {
    if heads != [] {
      OrderedPairs(heads[1..], heads[0].offset, hi);
      assert forall i | 0 < i < |heads| :: heads[i] == heads[1..][i - 1];
    }
  }

  lemma {:induction false} HeadsOrdered(item: Item, o: nat, hs: seq<ListHead>, hi: nat)
    requires Ordered(hs, o + |Data(item)|, hi)
    ensures Ordered(Heads(item, o) + hs, o, hi)
    decreases item
  {
    match item
    case Str(_) =>
      OrderedFrom(hs, o, o + |Data(item)|, hi);
      assert Heads(item, o) + hs == hs;
    case List(items) =>
      AllOrdered(items, o, hs, hi);
      assert (Heads(item, o) + hs)[1..] == HeadsAll(items, o) + hs;
  }

  lemma {:induction false} AllOrdered(items: seq<Item>, o: nat, hs: seq<ListHead>, hi: nat)
    requires Ordered(hs, o + |DataAll(items)|, hi)
    ensures Ordered(HeadsAll(items, o) + hs, o, hi)
    decreases items
  {
    if items == [] {
      assert HeadsAll(items, o) + hs == hs;
    } else {
      var mid := o + |Data(items[0])|;
      AllOrdered(items[1..], mid, hs, hi);
      HeadsOrdered(items[0], o, HeadsAll(items[1..], mid) + hs, hi);
      assert HeadsAll(items, o) + hs == Heads(items[0], o) + (HeadsAll(items[1..], mid) + hs);
    }
  }

  // ----- merging

  ghost function HeadBytes(h: ListHead): Bytes {
    if h.size < 0 then [] else Header(0xC0, 0xF7, h.size)
  }

  /** String data from strpos on, with the headers merged in at their offsets. */
  ghost function Merge(str: Bytes, heads: seq<ListHead>, strpos: nat): Bytes
    requires Ordered(heads, strpos, |str|)
    decreases |heads|
  {
    OrderedPairs(heads, strpos, |str|);
    if heads == [] then str[strpos..]
    else str[strpos..heads[0].offset] + (HeadBytes(heads[0]) + Merge(str, heads[1..], heads[0].offset))
  }

  lemma MergeFrom(str: Bytes, heads: seq<ListHead>, p: nat, q: nat)
    requires p <= q && Ordered(heads, q, |str|)
    ensures q <= |str| && Ordered(heads, p, |str|)
    ensures Merge(str, heads, p) == str[p..q] + Merge(str, heads, q)
  {
    hide HeadBytes;
    OrderedFrom(heads, p, q, |str|);
    OrderedPairs(heads, q, |str|);
    if heads == [] {
      SliceSplit(str, p, q, |str|);
    } else {
      var o := heads[0].offset;
      SliceSplit(str, p, q, o);
      Assoc(str[p..q], str[q..o], HeadBytes(heads[0]) + Merge(str, heads[1..], o));
    }
  }

  lemma SliceSplit(s: Bytes, p: nat, q: nat, r: nat)
    requires p <= q <= r <= |s|
    ensures s[p..r] == s[p..q] + s[q..r]
  {
  }

  /** Merging the collected form of an item gives its encoding. */
  lemma {:induction false} MergeItem(str: Bytes, item: Item, o: nat, hs: seq<ListHead>)
    requires o + |Data(item)| <= |str| && str[o..o + |Data(item)|] == Data(item)
    requires Ordered(hs, o + |Data(item)|, |str|)
    ensures Ordered(Heads(item, o) + hs, o, |str|)
    ensures Merge(str, Heads(item, o) + hs, o) == Encode(item) + Merge(str, hs, o + |Data(item)|)
    decreases item
  {
    hide Merge, Ordered, EncodeAll, HeadsAll, DataAll, Header;
    HeadsOrdered(item, o, hs, |str|);
    match item
    case Str(_) =>
      MergeFrom(str, hs, o, o + |Data(item)|);
      assert Heads(item, o) + hs == hs;
    case List(items) =>
      var size := |EncodeAll(items)|;
      MergeAll(str, items, o, hs);
      MergeHead(str, size, o, HeadsAll(items, o) + hs);
      assert Heads(item, o) + hs == [ListHead(o, size)] + (HeadsAll(items, o) + hs);
      Assoc(Header(0xC0, 0xF7, size), EncodeAll(items), Merge(str, hs, o + |Data(item)|));
  }

  lemma MergeHead(str: Bytes, size: nat, o: nat, hs: seq<ListHead>)
    requires Ordered(hs, o, |str|)
    ensures Ordered([ListHead(o, size)] + hs, o, |str|)
    ensures Merge(str, [ListHead(o, size)] + hs, o) == Header(0xC0, 0xF7, size) + Merge(str, hs, o)
  {
    hide Header;
    var all := [ListHead(o, size)] + hs;
    assert all[1..] == hs;
    OrderedPairs(hs, o, |str|);
    assert str[o..o] == [];
  }

  lemma {:induction false} MergeAll(str: Bytes, items: seq<Item>, o: nat, hs: seq<ListHead>)
    requires o + |DataAll(items)| <= |str| && str[o..o + |DataAll(items)|] == DataAll(items)
    requires Ordered(hs, o + |DataAll(items)|, |str|)
    ensures Ordered(HeadsAll(items, o) + hs, o, |str|)
    ensures Merge(str, HeadsAll(items, o) + hs, o) == EncodeAll(items) + Merge(str, hs, o + |DataAll(items)|)
    decreases items
  {
    hide Merge, Encode, Data, Heads, Ordered;
    AllOrdered(items, o, hs, |str|);
    if items == [] {
      assert HeadsAll(items, o) + hs == hs;
    } else {
      var d, rest := Data(items[0]), DataAll(items[1..]);
      var mid := o + |d|;
      assert str[o..mid] == (d + rest)[..|d|] == d;
      assert str[mid..mid + |rest|] == (d + rest)[|d|..] == rest;
      AllOrdered(items[1..], mid, hs, |str|);
      MergeAll(str, items[1..], mid, hs);
      MergeItem(str, items[0], o, HeadsAll(items[1..], mid) + hs);
      Assoc(Encode(items[0]), EncodeAll(items[1..]), Merge(str, hs, mid + |rest|));
      assert HeadsAll(items, o) + hs == Heads(items[0], o) + (HeadsAll(items[1..], mid) + hs);
    }
  }

  /** Data appended after everything collected so far. */
  lemma {:induction false} MergeAppend(str: Bytes, heads: seq<ListHead>, p: nat, more: Bytes, hs: seq<ListHead>)
    requires Ordered(heads, p, |str|) && Ordered(hs, |str|, |str| + |more|)
    ensures Ordered(heads + hs, p, |str + more|) && Ordered(hs, |str|, |str + more|)
    ensures Merge(str + more, heads + hs, p) == Merge(str, heads, p) + Merge(str + more, hs, |str|)
    decreases |heads|
  {
    hide HeadBytes;
    OrderedPairs(heads, p, |str|);
    if heads == [] {
      MergeFrom(str + more, hs, p, |str|);
      assert heads + hs == hs && (str + more)[p..|str|] == str[p..];
    } else {
      MergeAppend(str, heads[1..], heads[0].offset, more, hs);
      assert (heads + hs)[1..] == heads[1..] + hs;
      var tail := Merge(str, heads[1..], heads[0].offset);
      assert (str + more)[p..heads[0].offset] == str[p..heads[0].offset];
      Assoc(HeadBytes(heads[0]), tail, Merge(str + more, hs, |str|));
      Assoc(str[p..heads[0].offset], HeadBytes(heads[0]) + tail, Merge(str + more, hs, |str|));
    }
  }

  // ----- the buffer

  /** encbuf. */
  class EncBuf {
    var str: Bytes
    var lheads: seq<ListHead>
    var lhsize: int

    constructor ()
      ensures str == [] && lheads == [] && lhsize == 0
      ensures Closed() && Output() == []
    {
      str, lheads, lhsize := [], [], 0;
    }

    function Size(): int
      reads this
    {
      |str| + lhsize
    }

    /** No list is open: every head holds its final size. */
    ghost predicate Closed()
      reads this
    {
      && Ordered(lheads, 0, |str|)
      && (forall i | 0 <= i < |lheads| :: 0 <= lheads[i].size < TWO_64)
      && Size() == |Merge(str, lheads, 0)|
    }

    /** What has been encoded so far. */
    ghost function Output(): Bytes
      requires Closed()
      reads this
    {
      Merge(str, lheads, 0)
    }

    method EncodeStringHeader(size: nat)
      requires size < TWO_64
      modifies this`str
      ensures str == old(str) + Header(0x80, 0xB7, size)
    {
      hide BigEndian;
      if size < 56 {
        str := str + [0x80 + size];
      } else {
        Pow256At8();
        BigEndianLen(size, 8);
        var sizebuf := new byte[9](_ => 0);
        var sizesize := PutInt(sizebuf, 1, size);
        sizebuf[0] := (0xB7 + sizesize) % 256;
        str := str + sizebuf[..sizesize + 1];
      }
    }

    method EncodeString(b: Bytes)
      requires |b| < TWO_64
      modifies this`str
      ensures str == old(str) + EncodeStr(b)
    {
      hide Header;
      if |b| == 1 && b[0] <= 0x7F {
        str := str + [b[0]];
      } else {
        EncodeStringHeader(|b|);
        str := str + b;
      }
    }

    /** writeUint: an integer is the string of its shortest big-endian form, zero the empty string. */
    method EncodeUint(i: nat)
      requires i < TWO_64
      modifies this`str
      ensures str == old(str) + EncodeStr(if i == 0 then [] else BigEndian(i))
    {
      if i == 0 {
        str := str + [0x80];
      } else if i < 128 {
        str := str + [i];
      } else {
        UintHeader(i);
        var sizebuf := new byte[9](_ => 0);
        var s := PutInt(sizebuf, 1, i);
        sizebuf[0] := 0x80 + s;
        str := str + sizebuf[..s + 1];
      }
    }

    /** Opens a list; its head remembers the header bytes collected before it. */
    method List() returns (lh: nat)
      modifies this`lheads
      ensures lh == |old(lheads)| && lheads == old(lheads) + [ListHead(|str|, lhsize)]
    {
      lh := |lheads|;
      lheads := lheads + [ListHead(|str|, lhsize)];
    }

    /** Closes the list: the head gets the size of everything added since it was opened. */
    method ListEnd(lh: nat)
      requires lh < |lheads| && 0 <= Size() - lheads[lh].offset - lheads[lh].size
      modifies this`lheads, this`lhsize
      ensures var h := old(lheads[lh]);
              var size := old(Size()) - h.offset - h.size;
              && lheads == old(lheads)[lh := ListHead(h.offset, size)]
              && lhsize == old(lhsize) + |Header(0xC0, 0xF7, size)|
    {
      var size := Size() - lheads[lh].offset - lheads[lh].size;
      lheads := lheads[lh := lheads[lh].(size := size)];
      if size < 56 {
        lhsize := lhsize + 1;
      } else {
        var n := IntSize(size);
        lhsize := lhsize + 1 + n;
      }
    }

    /** Encodes one value: a string, or a list element by element (makeSliceWriter). */
    method Write(item: Item)
      requires |Encode(item)| < TWO_64
      modifies this
      ensures str == old(str) + Data(item)
      ensures lheads == old(lheads) + Heads(item, |old(str)|)
      ensures Size() == old(Size()) + |Encode(item)|
      decreases item
    {
      match item
      case Str(s) =>
        EncodeStrLen(s);
        EncodeString(s);
      case List(items) =>
        var lh := List();
        WriteAll(items);
        ListEnd(lh);
    }

    /** The element loop of a list writer. */
    method WriteAll(items: seq<Item>)
      requires |EncodeAll(items)| < TWO_64
      modifies this
      ensures str == old(str) + DataAll(items)
      ensures lheads == old(lheads) + HeadsAll(items, |old(str)|)
      ensures Size() == old(Size()) + |EncodeAll(items)|
      decreases items, 0
    {
      hide Data, Heads, Encode;
      var i := 0;
      while i < |items|
        invariant 0 <= i <= |items|
        invariant str == old(str) + DataAll(items[..i])
        invariant lheads == old(lheads) + HeadsAll(items[..i], |old(str)|)
        invariant Size() == old(Size()) + |EncodeAll(items[..i])|
      {
        assert items[..i + 1] == items[..i] + [items[i]];
        DataSnoc(items[..i], items[i]);
        HeadsSnoc(items[..i], items[i], |old(str)|);
        EncodeSnoc(items[..i], items[i]);
        PartLen(items, i);
        Write(items[i]);
        i := i + 1;
      }
      assert items[..i] == items;
    }

    /** One whole value is added to the output. */
    method EncodeValue(item: Item)
      requires Closed() && |Encode(item)| < TWO_64
      modifies this
      ensures Closed() && Output() == old(Output()) + Encode(item)
    {
      hide Merge, Ordered, Data, Heads, Encode;
      ghost var str0, heads0 := str, lheads;
      Write(item);
      Collected(str0, heads0, item);
      HeadSizes(item, |str0|);
    }

    /** Merges strings and headers into one exactly sized buffer. */
    method ToBytes() returns (r: Bytes)
      requires Closed()
      ensures r == Output() && |r| == Size()
    {
      hide Merge, Ordered, Header;
      var out := new byte[Size()](_ => 0);
      var strpos: nat, pos: nat, i := 0, 0, 0;
      ghost var done: Bytes := [];
      assert lheads[0..] == lheads;
      while i < |lheads|
        invariant 0 <= i <= |lheads| && Ordered(lheads[i..], strpos, |str|)
        invariant Output() == done + Merge(str, lheads[i..], strpos)
        invariant pos == |done| <= out.Length == Size() && out[..pos] == done
      {
        var head := lheads[i];
        MergeStep(str, lheads[i..], strpos);
        assert lheads[i..][1..] == lheads[i + 1..];
        ghost var chunk := str[strpos..head.offset];
        ghost var hb := Header(0xC0, 0xF7, head.size);
        ghost var rest := Merge(str, lheads[i + 1..], head.offset);
        assert Output() == done + chunk + hb + rest;
        var n := Copy(out, pos, str[strpos..head.offset]);
        assert out[..pos + n] == done + chunk;
        pos := pos + n;
        strpos := strpos + n;
        n := PutHead(out, pos, 0xC0, 0xF7, head.size);
        assert out[..pos + n] == done + chunk + hb;
        pos := pos + n;
        done := done + chunk + hb;
        i := i + 1;
      }
      assert lheads[i..] == [];
      MergeEnd(str, strpos);
      var n := Copy(out, pos, str[strpos..]);
      r := out[..];
      assert str[strpos..][..n] == str[strpos..];
    }
  }

  lemma UintHeader(i: nat)
    requires 128 <= i < TWO_64
    ensures |BigEndian(i)| <= 8 && EncodeStr(BigEndian(i)) == [0x80 + |BigEndian(i)|] + BigEndian(i)
  {
    Pow256At8();
    BigEndianLen(i, 8);
  }

  lemma MergeStep(str: Bytes, heads: seq<ListHead>, p: nat)
    requires heads != [] && Ordered(heads, p, |str|) && heads[0].size >= 0
    ensures p <= heads[0].offset <= |str| && Ordered(heads[1..], heads[0].offset, |str|)
    ensures Merge(str, heads, p) ==
            str[p..heads[0].offset] + (Header(0xC0, 0xF7, heads[0].size) + Merge(str, heads[1..], heads[0].offset))
  {
    hide Header;
    OrderedPairs(heads, p, |str|);
  }

  lemma MergeEnd(str: Bytes, p: nat)
    requires Ordered([], p, |str|)
    ensures p <= |str| && Merge(str, [], p) == str[p..]
  {
  }

  /** The collected form of one more value, merged. */
  lemma Collected(str: Bytes, heads: seq<ListHead>, item: Item)
    requires Ordered(heads, 0, |str|)
    ensures Ordered(heads + Heads(item, |str|), 0, |str + Data(item)|)
    ensures Merge(str + Data(item), heads + Heads(item, |str|), 0) == Merge(str, heads, 0) + Encode(item)
  {
    hide Data, Heads, Encode, Merge, Ordered;
    var s := str + Data(item);
    OrderedEnd(|s|);
    HeadsOrdered(item, |str|, [], |s|);
    assert Heads(item, |str|) + [] == Heads(item, |str|);
    MergeAppend(str, heads, 0, Data(item), Heads(item, |str|));
    MergeItem(s, item, |str|, []);
    assert s[|str|..|str| + |Data(item)|] == Data(item);
    MergeEnd(s, |s|);
  }

  /** Every head of an item fits a 64-bit size when the item does. */
  lemma {:induction false} HeadSizes(item: Item, o: nat)
    ensures forall i | 0 <= i < |Heads(item, o)| :: 0 <= Heads(item, o)[i].size <= |Encode(item)|
    decreases item
  {
    match item
    case Str(_) =>
    case List(items) => HeadSizesAll(items, o);
  }

  lemma {:induction false} HeadSizesAll(items: seq<Item>, o: nat)
    ensures forall i | 0 <= i < |HeadsAll(items, o)| :: 0 <= HeadsAll(items, o)[i].size <= |EncodeAll(items)|
    decreases items
  {
    hide Heads, Encode, Data;
    if items != [] {
      HeadSizes(items[0], o);
      HeadSizesAll(items[1..], o + |Data(items[0])|);
    }
  }

  /** The encoder computes the Appendix B encoding of every item. */
  method EncodeToBytes(item: Item) returns (r: Bytes)
    requires |Encode(item)| < TWO_64
    ensures r == Encode(item)
  {
    hide Encode;
    var eb := new EncBuf();
    eb.EncodeValue(item);
    r := eb.ToBytes();
  }

  // ----- reading the output piecewise

  /** encReader: hands out the encoding in pieces of any size. */
  class EncReader {
    var buf: EncBuf?
    var lhpos: nat
    var strpos: nat
    var piece: Bytes

    ghost predicate Valid()
      reads this, buf
    {
      buf != null ==> buf.Closed() && lhpos <= |buf.lheads| && Ordered(buf.lheads[lhpos..], strpos, |buf.str|)
    }

    /** What has not been handed out yet. */
    ghost function Left(): Bytes
      requires Valid()
      reads this, buf
    {
      if buf == null then [] else piece + Merge(buf.str, buf.lheads[lhpos..], strpos)
    }

    constructor (eb: EncBuf)
      requires eb.Closed()
      ensures Valid() && buf == eb && Left() == eb.Output()
    {
      buf, lhpos, strpos, piece := eb, 0, 0, [];
      new;
      assert eb.lheads[0..] == eb.lheads;
    }

    /** The next piece, empty only at the end. */
    method Next() returns (p: Bytes)
      requires Valid()
      modifies this`lhpos, this`strpos
      ensures Valid() && (p == [] <==> old(Left()) == [])
      ensures buf != null ==> old(Left()) == p + Merge(buf.str, buf.lheads[lhpos..], strpos)
    {
      hide Merge, Ordered, Header;
      if buf == null {
        return [];
      }
      if piece != [] {
        return piece;
      }
      if lhpos < |buf.lheads| {
        var head := buf.lheads[lhpos];
        ghost var heads := buf.lheads[lhpos..];
        MergeStep(buf.str, heads, strpos);
        assert heads[1..] == buf.lheads[lhpos + 1..];
        var sizebefore := head.offset - strpos;
        if sizebefore > 0 {
          MergeTo(buf.str, heads, strpos);
          p := buf.str[strpos..head.offset];
          strpos := strpos + sizebefore;
          return;
        }
        lhpos := lhpos + 1;
        Pow256At8();
        BigEndianLen(head.size, 8);
        assert |Header(0xC0, 0xF7, head.size)| <= 9 by { HeaderLen(head.size); }
        var sizebuf := new byte[9](_ => 0);
        var n := PutHead(sizebuf, 0, 0xC0, 0xF7, head.size);
        p := sizebuf[..n];
        return;
      }
      assert buf.lheads[lhpos..] == [];
      MergeEnd(buf.str, strpos);
      if strpos < |buf.str| {
        p := buf.str[strpos..];
        strpos := |buf.str|;
        OrderedEnd(|buf.str|);
        MergeEnd(buf.str, strpos);
        return;
      }
      return [];
    }

    /** Fills b as far as data is left; eof exactly when nothing is left, and then the buffer is released. */
    method Read(b: array<byte>) returns (n: nat, eof: bool)
      requires Valid()
      modifies this, b
      ensures Valid() && n <= b.Length && (n < b.Length ==> eof)
      ensures old(Left()) == b[..n] + Left()
      ensures (eof <==> Left() == []) && (eof ==> buf == null)
      ensures b[n..] == old(b[n..])
    {
      hide *;
      n := 0;
      while true
        invariant Valid() && n <= b.Length
        invariant old(Left()) == b[..n] + Left()
        invariant b[n..] == old(b[n..])
        decreases |Left()|
      {
        Load();
        if piece == [] {
          return n, true;
        }
        var nn := Take(b, n);
        n := n + nn;
        if piece != [] {
          return n, false;
        }
      }
    }

    /** Sets the current piece; at the end the buffer is released. */
    method Load()
      requires Valid()
      modifies this
      ensures Valid() && Left() == old(Left()) && (piece == [] <==> Left() == [])
      ensures piece != [] <==> buf != null
    {
      hide Merge, Ordered, EncBuf.Closed;
      piece := Next();
      if piece == [] {
        buf := null;
      }
    }

    /** Copies as much of the current piece as fits. */
    method Take(b: array<byte>, n: nat) returns (nn: nat)
      requires Valid() && buf != null && n <= b.Length
      modifies this`piece, b
      ensures n + nn <= b.Length && (piece == [] || n + nn == b.Length) && |piece| == |old(piece)| - nn
      ensures Valid() && (piece != [] ==> Left() != []) && old(b[..n] + Left()) == b[..n + nn] + Left()
      ensures b[n + nn..] == old(b[n + nn..])
    {
      hide Merge, Ordered, EncBuf.Closed, Spliced;
      ghost var was := b[..];
      nn := Copy(b, n, piece);
      SplicedParts(was, n, piece[..nn]);
      Regroup(was[..n], piece, nn, Merge(buf.str, buf.lheads[lhpos..], strpos));
      piece := piece[nn..];
    }
  }

  lemma Regroup(a: Bytes, p: Bytes, n: nat, c: Bytes)
    requires n <= |p|
    ensures a + (p + c) == (a + p[..n]) + (p[n..] + c)
  {
  }

  lemma HeaderLen(size: nat)
    requires size < TWO_64
    ensures |Header(0xC0, 0xF7, size)| <= 9
  {
    Pow256At8();
    BigEndianLen(size, 8);
  }

  lemma OrderedEnd(n: nat)
    ensures Ordered([], n, n)
  {
  }

  /** The data before the first head, split off. */
  lemma MergeTo(str: Bytes, heads: seq<ListHead>, p: nat)
    requires heads != [] && Ordered(heads, p, |str|)
    ensures p <= heads[0].offset <= |str| && Ordered(heads, heads[0].offset, |str|)
    ensures Merge(str, heads, p) == str[p..heads[0].offset] + Merge(str, heads, heads[0].offset)
  {
    OrderedPairs(heads, p, |str|);
    MergeFrom(str, heads, p, heads[0].offset);
  }
}
