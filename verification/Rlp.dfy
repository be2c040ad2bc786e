/** Recursive Length Prefix: the encoding of Appendix B of the Yellow Paper and
    the slice-based splitter that reads it back (rlp/raw.go). */
module Rlp {
  import opened Common

  /** The values RLP serialises. */
  datatype Item = Str(bytes: Bytes) | List(items: seq<Item>)

  datatype Kind = Byte | String | Sequence

  datatype Error =
    | UnexpectedEOF
    | CanonSize
    | ValueTooLarge
    | ElemTooLarge
    | ExpectedString
    | ExpectedList
    | EOF
    | EndOfList
    | NotInList
    | NotAtEOL
    | MoreThanOneValue
    | CanonInt
    | UintOverflow

  // ----- big-endian sizes

  /** The shortest big-endian form; zero takes one byte (putint). */
  function BigEndian(n: nat): (b: Bytes)
    ensures |b| > 0 && (n > 0 ==> b[0] > 0)
  {
    if n < 256 then [n] else BigEndian(n / 256) + [n % 256]
  }

  function BeValue(b: Bytes): nat {
    if b == [] then 0 else 256 * BeValue(b[..|b| - 1]) + b[|b| - 1]
  }

  function Pow256(k: nat): (p: nat)
    ensures p > 0
  {
    if k == 0 then 1 else 256 * Pow256(k - 1)
  }

  lemma Pow256At8()
    ensures Pow256(8) == TWO_64
  {
    assert Pow256(4) == 0x1_0000_0000;
    assert Pow256(6) == 0x1_0000_0000_0000;
  }

  lemma {:induction false} BigEndianLen(n: nat, k: nat)
    requires k > 0
    ensures n < Pow256(k) <==> |BigEndian(n)| <= k
  {
    if n >= 256 {
      if k == 1 {
        assert Pow256(1) == 256;
      } else {
        BigEndianLen(n / 256, k - 1);
      }
    } else {
      Pow256Grows(k);
    }
  }

  lemma {:induction false} Pow256Grows(k: nat)
    requires k > 0
    ensures Pow256(k) >= 256
  {
    if k > 1 {
      Pow256Grows(k - 1);
    }
  }

  lemma {:induction false} BeValueBound(b: Bytes)
    ensures BeValue(b) < Pow256(|b|)
  {
    if b != [] {
      BeValueBound(b[..|b| - 1]);
    }
  }

  lemma {:induction false} BeValueBigEndian(n: nat)
    ensures BeValue(BigEndian(n)) == n
  {
    var b := BigEndian(n);
    if n >= 256 {
      BeValueBigEndian(n / 256);
      assert b[..|b| - 1] == BigEndian(n / 256);
    } else {
      assert BeValue(b[..|b| - 1]) == 0;
    }
  }

  lemma {:induction false} BigEndianBeValue(b: Bytes)
    requires |b| > 0 && b[0] > 0
    ensures BigEndian(BeValue(b)) == b
    ensures BeValue(b) > 0
  {
    var front := b[..|b| - 1];
    if |b| > 1 {
      BigEndianBeValue(front);
      assert b == front + [b[|b| - 1]];
    } else {
      assert BeValue(front) == 0;
    }
  }

  // ----- the encoding

  /** A string or list header; the tag is computed in byte arithmetic (puthead). */
  function Header(small: byte, large: byte, size: nat): (h: Bytes)
    ensures |h| > 0
  {
    if size < 56 then [(small + size) % 256]
    else [(large + |BigEndian(size)|) % 256] + BigEndian(size)
  }

  function EncodeStr(s: Bytes): Bytes {
    if |s| == 1 && s[0] < 0x80 then s else Header(0x80, 0xB7, |s|) + s
  }

  function WrapList(payload: Bytes): Bytes {
    Header(0xC0, 0xF7, |payload|) + payload
  }

  /** The RLP function of Appendix B. */
  function Encode(item: Item): (b: Bytes)
    ensures |b| > 0
    decreases item
  {
    match item
    case Str(s) => EncodeStr(s)
    case List(items) => WrapList(EncodeAll(items))
  }

  function EncodeAll(items: seq<Item>): Bytes
    decreases items
  {
    if items == [] then [] else Encode(items[0]) + EncodeAll(items[1..])
  }

  lemma Assoc(a: Bytes, b: Bytes, c: Bytes)
    ensures (a + b) + c == a + (b + c)
  {
  }

  lemma {:induction false} EncodeAllConcat(a: seq<Item>, b: seq<Item>)
    ensures EncodeAll(a + b) == EncodeAll(a) + EncodeAll(b)
  {
    hide Encode;
    if a == [] {
      assert a + b == b;
    } else {
      EncodeAllConcat(a[1..], b);
      assert (a + b)[0] == a[0] && (a + b)[1..] == a[1..] + b;
      Assoc(Encode(a[0]), EncodeAll(a[1..]), EncodeAll(b));
    }
  }

  lemma EncodeStrLen(s: Bytes)
    ensures |s| <= |EncodeStr(s)|
  {
  }

  lemma WrapLen(payload: Bytes)
    ensures |payload| < |WrapList(payload)|
  {
  }

  lemma PartLen(items: seq<Item>, i: nat)
    requires i < |items|
    ensures |Encode(items[i])| <= |EncodeAll(items)|
  {
    hide Encode;
    assert items == items[..i] + items[i..];
    EncodeAllConcat(items[..i], items[i..]);
  }

  // ----- the splitter

  datatype Head = Head(kind: Kind, tag: nat, size: nat)

  datatype Parts = Parts(kind: Kind, content: Bytes, rest: Bytes)

  function ReadSize(b: Bytes, slen: nat): Result<nat, Error>
    requires slen > 0
  {
    if slen > |b| then Err(UnexpectedEOF) else
    var s := BeValue(b[..slen]);
    if s < 56 || b[0] == 0 then Err(CanonSize) else Ok(s)
  }

  function LongHead(kind: Kind, buf: Bytes, slen: nat): Result<Head, Error>
    requires |buf| > 0 && slen > 0
  {
    match ReadSize(buf[1..], slen)
    case Err(e) => Err(e)
    case Ok(size) => Ok(Head(kind, slen + 1, size))
  }

  function TagHead(buf: Bytes): Result<Head, Error> {
    if |buf| == 0 then Err(UnexpectedEOF) else
    var b := buf[0];
    if b < 0x80 then Ok(Head(Byte, 0, 1))
    else if b < 0xB8 then
      if b == 0x81 && |buf| > 1 && buf[1] < 128 then Err(CanonSize)
      else Ok(Head(String, 1, b - 0x80))
    else if b < 0xC0 then LongHead(String, buf, b - 0xB7)
    else if b < 0xF8 then Ok(Head(Sequence, 1, b - 0xC0))
    else LongHead(Sequence, buf, b - 0xF7)
  }

  function ReadKind(buf: Bytes): (r: Result<Head, Error>)
    ensures r.Ok? ==> 0 < r.value.tag + r.value.size <= |buf|
  {
    match TagHead(buf)
    case Err(e) => Err(e)
    case Ok(h) => if h.size > |buf| - h.tag then Err(ValueTooLarge) else Ok(h)
  }

  function Split(b: Bytes): (r: Result<Parts, Error>)
    ensures r.Ok? ==> |r.value.content| <= |b| && |r.value.rest| < |b|
    ensures r.Ok? && !r.value.kind.Byte? ==> |r.value.content| + |r.value.rest| < |b|
  {
    match ReadKind(b)
    case Err(e) => Err(e)
    case Ok(h) => Ok(Parts(h.kind, b[h.tag..h.tag + h.size], b[h.tag + h.size..]))
  }

  function SplitString(b: Bytes): (r: Result<Parts, Error>)
    ensures r.Ok? ==> |r.value.rest| < |b|
  {
    match Split(b)
    case Err(e) => Err(e)
    case Ok(p) => if p.kind.Sequence? then Err(ExpectedString) else Ok(p)
  }

  function SplitList(b: Bytes): (r: Result<Parts, Error>)
    ensures r.Ok? ==> |r.value.content| + |r.value.rest| < |b|
  {
    match Split(b)
    case Err(e) => Err(e)
    case Ok(p) => if !p.kind.Sequence? then Err(ExpectedList) else Ok(p)
  }

  /** The number of values in b, if b is a concatenation of values. */
  function Count(b: Bytes): Result<nat, Error>
    decreases |b|
  {
    if b == [] then Ok(0) else
    match ReadKind(b)
    case Err(e) => Err(e)
    case Ok(h) =>
      match Count(b[h.tag + h.size..])
      case Err(e) => Err(e)
      case Ok(n) => Ok(n + 1)
  }

  // ----- splitting inverts encoding

  lemma LongHeadOf(kind: Kind, large: byte, size: nat, tail: Bytes)
    requires 56 <= size < TWO_64 && large + 8 < 256
    ensures |BigEndian(size)| <= 8
    ensures LongHead(kind, Header(0, large, size) + tail, |BigEndian(size)|) ==
            Ok(Head(kind, |BigEndian(size)| + 1, size))
  {
    Pow256At8();
    BigEndianLen(size, 8);
    BeValueBigEndian(size);
    var be := BigEndian(size);
    var b := Header(0, large, size) + tail;
    assert b[1..][..|be|] == be;
  }

  lemma SplitAt(b: Bytes, kind: Kind, head: Bytes, content: Bytes, rest: Bytes)
    requires b == head + content + rest && |head| + |content| > 0
    requires TagHead(b) == Ok(Head(kind, |head|, |content|))
    ensures Split(b) == Ok(Parts(kind, content, rest))
  {
    assert b[|head|..|head| + |content|] == content && b[|head| + |content|..] == rest;
  }

  lemma TagOfStr(s: Bytes, rest: Bytes)
    requires |s| < TWO_64 && !(|s| == 1 && s[0] < 0x80)
    ensures var h := Header(0x80, 0xB7, |s|);
            TagHead(h + s + rest) == Ok(Head(String, |h|, |s|))
  {
    hide BigEndian, LongHead;
    var h := Header(0x80, 0xB7, |s|);
    assert h + s + rest == h + (s + rest);
    if |s| >= 56 {
      LongHeadOf(String, 0xB7, |s|, s + rest);
    }
  }

  lemma TagOfList(payload: Bytes, rest: Bytes)
    requires |payload| < TWO_64
    ensures var h := Header(0xC0, 0xF7, |payload|);
            TagHead(h + payload + rest) == Ok(Head(Sequence, |h|, |payload|))
  {
    hide BigEndian, LongHead;
    var h := Header(0xC0, 0xF7, |payload|);
    assert h + payload + rest == h + (payload + rest);
    if |payload| >= 56 {
      LongHeadOf(Sequence, 0xF7, |payload|, payload + rest);
    }
  }

  lemma SplitStr(s: Bytes, rest: Bytes)
    requires |s| < TWO_64
    ensures Split(EncodeStr(s) + rest) == Ok(Parts(if |s| == 1 && s[0] < 0x80 then Byte else String, s, rest))
  {
    hide Header, Split;
    var b := EncodeStr(s) + rest;
    if |s| == 1 && s[0] < 0x80 {
      SplitAt(b, Byte, [], s, rest);
    } else {
      TagOfStr(s, rest);
      SplitAt(b, String, Header(0x80, 0xB7, |s|), s, rest);
    }
  }

  lemma SplitWrapped(payload: Bytes, rest: Bytes)
    requires |payload| < TWO_64
    ensures Split(WrapList(payload) + rest) == Ok(Parts(Sequence, payload, rest))
  {
    hide Header, Split;
    TagOfList(payload, rest);
    SplitAt(WrapList(payload) + rest, Sequence, Header(0xC0, 0xF7, |payload|), payload, rest);
  }

  // ----- and only canonical encodings split

  /** The one encoding whose split has the given kind and content. */
  function Join(kind: Kind, content: Bytes): Bytes {
    if kind.Sequence? then WrapList(content) else EncodeStr(content)
  }

  lemma LongHeadCanonical(kind: Kind, large: byte, buf: Bytes)
    requires |buf| > 0 && large < buf[0] <= large + 8 < 256
    requires LongHead(kind, buf, buf[0] - large).Ok?
    ensures var h := LongHead(kind, buf, buf[0] - large).value;
            && h.tag <= |buf| && 56 <= h.size < TWO_64
            && buf[..h.tag] == Header(0, large, h.size)
  {
    var slen := buf[0] - large;
    var be := buf[1..][..slen];
    assert buf[..slen + 1] == [buf[0]] + be;
    BigEndianBeValue(be);
    BeValueBound(be);
    Pow256At8();
    BigEndianLen(BeValue(be), 8);
  }

  lemma TagCanonical(b: Bytes)
    requires TagHead(b).Ok?
    ensures var h := TagHead(b).value;
            && h.tag <= |b| && h.size < TWO_64
            && (h.kind.Byte? ==> h.size == 1 && b[0] < 0x80)
            && (h.kind.String? && h.size == 1 && |b| > 1 ==> h.tag == 1 && b[1] >= 0x80)
            && b[..h.tag] == match h.kind {
                case Byte => []
                case String => Header(0x80, 0xB7, h.size)
                case Sequence => Header(0xC0, 0xF7, h.size)
              }
  {
    if b[0] < 0xB8 {
    } else if b[0] < 0xC0 {
      LongHeadCanonical(String, 0xB7, b);
    } else if b[0] >= 0xF8 {
      LongHeadCanonical(Sequence, 0xF7, b);
    }
  }

  lemma SplitCanonical(b: Bytes)
    requires Split(b).Ok?
    ensures var p := Split(b).value;
            && b == Join(p.kind, p.content) + p.rest
            && |p.content| < TWO_64
            && (p.kind.Byte? <==> !p.kind.Sequence? && |p.content| == 1 && p.content[0] < 0x80)
  {
    hide TagHead, Header;
    var p, h := Split(b).value, ReadKind(b).value;
    TagCanonical(b);
    assert b == b[..h.tag] + p.content + p.rest;
  }

  // ----- what splitting refuses

  /** The bytes that announce a value of the given kind and size. */
  function Announced(kind: Kind, size: nat): Bytes {
    if kind.Sequence? then Header(0xC0, 0xF7, size) else Header(0x80, 0xB7, size)
  }

  /** b announces more content than it holds. */
  ghost predicate TooShort(b: Bytes) {
    exists kind: Kind, size: nat ::
      !kind.Byte? && 0 < size < TWO_64 && Announced(kind, size) <= b && |b| < |Announced(kind, size)| + size
  }

  /** b ends before the bytes that hold its size do. */
  predicate NoSize(b: Bytes) {
    || b == []
    || (0xB8 <= b[0] < 0xC0 && |b| <= b[0] - 0xB7)
    || (0xF8 <= b[0] && |b| <= b[0] - 0xF7)
  }

  lemma TagOfAnnounced(kind: Kind, size: nat, tail: Bytes)
    requires !kind.Byte? && size < TWO_64
    requires kind.String? && size == 1 && tail != [] ==> tail[0] >= 0x80
    ensures TagHead(Announced(kind, size) + tail) == Ok(Head(kind, |Announced(kind, size)|, size))
  {
    hide BigEndian, LongHead;
    if size >= 56 {
      LongHeadOf(kind, if kind.Sequence? then 0xF7 else 0xB7, size, tail);
    }
  }

  /** Which of the three errors splitting gives; CanonSize is what is left. */
  lemma SplitErrors(b: Bytes)
    ensures Split(b) == Err(UnexpectedEOF) <==> NoSize(b)
    ensures Split(b) == Err(ValueTooLarge) <==> TooShort(b)
    ensures Split(b).Err? ==> Split(b).error in {UnexpectedEOF, ValueTooLarge, CanonSize}
  {
    hide Header, BigEndian;
    if Split(b) == Err(ValueTooLarge) {
      TagCanonical(b);
      var h := TagHead(b).value;
      assert b[..h.tag] == Announced(h.kind, h.size);
    }
    if TooShort(b) {
      var kind: Kind, size: nat :| !kind.Byte? && 0 < size < TWO_64 && Announced(kind, size) <= b &&
        |b| < |Announced(kind, size)| + size;
      var tail := b[|Announced(kind, size)|..];
      assert b == Announced(kind, size) + tail;
      TagOfAnnounced(kind, size, tail);
    }
  }

  /** The typed forms refuse the other kind, whatever it holds, and only it; else they are the split. */
  lemma SplitTyped(b: Bytes)
    ensures SplitString(b) == Err(ExpectedString) <==> Split(b).Ok? && Split(b).value.kind.Sequence?
    ensures SplitList(b) == Err(ExpectedList) <==> Split(b).Ok? && !Split(b).value.kind.Sequence?
    ensures SplitString(b) == Split(b) || SplitString(b) == Err(ExpectedString)
    ensures SplitList(b) == Split(b) || SplitList(b) == Err(ExpectedList)
  {
    hide Split;
    SplitErrors(b);
  }

  // ----- counting

  /** Exactly one value, and nothing after it. */
  predicate OneValue(b: Bytes) {
    Split(b).Ok? && Split(b).value.rest == []
  }

  predicate AllValues(pieces: seq<Bytes>) {
    forall i :: 0 <= i < |pieces| ==> OneValue(pieces[i])
  }

  function Concat(pieces: seq<Bytes>): Bytes {
    if pieces == [] then [] else pieces[0] + Concat(pieces[1..])
  }

  /** b is n values one after the other. */
  ghost predicate HoldsValues(b: Bytes, n: nat) {
    exists pieces: seq<Bytes> :: AllValues(pieces) && |pieces| == n && b == Concat(pieces)
  }

  /** b is some values and then a rest whose first value cannot be split off. */
  ghost predicate StopsWith(b: Bytes, e: Error) {
    exists pieces: seq<Bytes>, rest: Bytes ::
      AllValues(pieces) && b == Concat(pieces) + rest && rest != [] && Split(rest) == Err(e)
  }

  lemma SplitJoin(kind: Kind, content: Bytes, rest: Bytes)
    requires |content| < TWO_64
    requires kind.Byte? <==> !kind.Sequence? && |content| == 1 && content[0] < 0x80
    ensures Split(Join(kind, content) + rest) == Ok(Parts(kind, content, rest))
  {
    hide Header, Split;
    if kind.Sequence? {
      SplitWrapped(content, rest);
    } else {
      SplitStr(content, rest);
    }
  }

  lemma OneValueThen(b: Bytes, rest: Bytes)
    requires OneValue(b)
    ensures Split(b + rest) == Ok(Split(b).value.(rest := rest))
  {
    hide Split, Join;
    SplitCanonical(b);
    var p := Split(b).value;
    assert b == Join(p.kind, p.content);
    SplitJoin(p.kind, p.content, rest);
  }

  lemma FirstValue(b: Bytes) returns (piece: Bytes, rest: Bytes)
    requires Split(b).Ok?
    ensures OneValue(piece) && b == piece + rest && rest == Split(b).value.rest && |rest| < |b|
  {
    hide Join;
    SplitCanonical(b);
    var p := Split(b).value;
    piece, rest := Join(p.kind, p.content), p.rest;
    SplitJoin(p.kind, p.content, []);
    assert piece + [] == piece;
  }

  lemma CountStep(b: Bytes)
    requires b != []
    ensures Count(b) == match Split(b) {
              case Err(e) => Err(e)
              case Ok(p) => match Count(p.rest) case Err(e) => Err(e) case Ok(n) => Ok(n + 1)
            }
  {
    hide TagHead;
  }

  lemma {:induction false} CountPieces(pieces: seq<Bytes>, rest: Bytes)
    requires AllValues(pieces)
    ensures Count(Concat(pieces) + rest) ==
            match Count(rest) case Err(e) => Err(e) case Ok(n) => Ok(n + |pieces|)
    decreases |pieces|
  {
    hide Split, Count;
    if pieces == [] {
      assert Concat(pieces) + rest == rest;
    } else {
      var tail := Concat(pieces[1..]) + rest;
      OneValueThen(pieces[0], tail);
      CountStep(pieces[0] + tail);
      CountPieces(pieces[1..], rest);
      assert Concat(pieces) + rest == pieces[0] + tail;
    }
  }

  /** What counting went over, and where it stopped. */
  lemma {:induction false} Pieces(b: Bytes) returns (pieces: seq<Bytes>, rest: Bytes)
    ensures AllValues(pieces) && b == Concat(pieces) + rest
    ensures rest == [] || Split(rest).Err?
    decreases |b|
  {
    hide Split, OneValue;
    if b == [] || Split(b).Err? {
      pieces, rest := [], b;
    } else {
      var piece, more := FirstValue(b);
      pieces, rest := Pieces(more);
      assert Concat([piece] + pieces) == piece + Concat(pieces) by { assert ([piece] + pieces)[1..] == pieces; }
      pieces := [piece] + pieces;
    }
  }

  /** The count is the number of values, and an error is that of the first piece that is not one. */
  lemma CountMeans(b: Bytes)
    ensures forall n: nat :: Count(b) == Ok(n) <==> HoldsValues(b, n)
    ensures forall e :: Count(b) == Err(e) <==> StopsWith(b, e)
  {
    assert Count([]) == Ok(0);
    hide Split, Count, AllValues, Concat;
    var pieces, rest := Pieces(b);
    CountPieces(pieces, rest);
    if rest != [] {
      CountStep(rest);
    }
    assert Concat(pieces) + [] == Concat(pieces);
    forall n: nat | HoldsValues(b, n) ensures Count(b) == Ok(n) {
      var ps: seq<Bytes> :| AllValues(ps) && |ps| == n && b == Concat(ps);
      CountPieces(ps, []);
      assert Concat(ps) + [] == b;
    }
    forall e | StopsWith(b, e) ensures Count(b) == Err(e) {
      var ps: seq<Bytes>, r: Bytes :| AllValues(ps) && b == Concat(ps) + r && r != [] && Split(r) == Err(e);
      CountPieces(ps, r);
      CountStep(r);
    }
  }

  method CountValues(buf: Bytes) returns (r: Result<nat, Error>)
    ensures r == Count(buf)
    ensures forall n: nat :: r == Ok(n) <==> HoldsValues(buf, n)
    ensures forall e :: r == Err(e) <==> StopsWith(buf, e)
  {
    hide TagHead, HoldsValues, StopsWith;
    CountMeans(buf);
    var i, b := 0, buf;
    while |b| > 0
      invariant Count(buf) == match Count(b) case Err(e) => Err(e) case Ok(n) => Ok(n + i)
    {
      var k := ReadKind(b);
      if k.Err? {
        return Err(k.error);
      }
      b := b[k.value.tag + k.value.size..];
      i := i + 1;
    }
    r := Ok(i);
  }
}
