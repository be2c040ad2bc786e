/** Whole values read by recursive splitting (rlp/raw.go), and the proof that this
    reading and the encoding are inverse to each other. */
module RlpValues {
  import opened Common
  import opened Rlp

  datatype Parsed = Parsed(item: Item, rest: Bytes)

  /** The first value of b and what follows it. */
  function Parse(b: Bytes): (r: Option<Parsed>)
    ensures r.Some? ==> |r.value.rest| < |b|
    decreases |b|, 1
  {
    match Split(b)
    case Err(_) => None
    case Ok(p) =>
      if !p.kind.Sequence? then Some(Parsed(Str(p.content), p.rest))
      else match ParseAll(p.content)
        case None => None
        case Some(items) => Some(Parsed(List(items), p.rest))
  }

  /** All values of b, if b is a concatenation of values. */
  function ParseAll(b: Bytes): Option<seq<Item>>
    decreases |b|, 2
  {
    if b == [] then Some([]) else
    match Parse(b)
    case None => None
    case Some(p) =>
      match ParseAll(p.rest)
      case None => None
      case Some(items) => Some([p.item] + items)
  }

  /** Every encoded value is read back. */
  lemma {:induction false} ParseEncode(v: Item, rest: Bytes)
    requires |Encode(v)| < TWO_64
    ensures Parse(Encode(v) + rest) == Some(Parsed(v, rest))
    decreases v, 1
  {
    hide EncodeStr, WrapList, Split, ParseAll, EncodeAll;
    match v
    case Str(s) =>
      EncodeStrLen(s);
      SplitStr(s, rest);
    case List(items) =>
      WrapLen(EncodeAll(items));
      SplitWrapped(EncodeAll(items), rest);
      ParseEncodeAll(items);
  }

  lemma {:induction false} ParseEncodeAll(items: seq<Item>)
    requires |EncodeAll(items)| < TWO_64
    ensures ParseAll(EncodeAll(items)) == Some(items)
    decreases items, 0
  {
    hide Parse, Encode;
    if items != [] {
      ParseEncode(items[0], EncodeAll(items[1..]));
      ParseEncodeAll(items[1..]);
      assert [items[0]] + items[1..] == items;
    }
  }

  /** Only encoded values are read: what is accepted is the encoding of the result. */
  lemma {:induction false} ParseCanonical(b: Bytes)
    requires Parse(b).Some?
    ensures b == Encode(Parse(b).value.item) + Parse(b).value.rest
    decreases |b|, 1
  {
    hide EncodeStr, WrapList, ParseAll;
    SplitCanonical(b);
    var p := Split(b).value;
    if p.kind.Sequence? {
      ParseAllCanonical(p.content);
    }
  }

  lemma {:induction false} ParseAllCanonical(b: Bytes)
    requires ParseAll(b).Some?
    ensures b == EncodeAll(ParseAll(b).value)
    decreases |b|, 2
  {
    hide Parse, Encode;
    if b != [] {
      var p := Parse(b).value;
      ParseCanonical(b);
      ParseAllCanonical(p.rest);
      assert ParseAll(b).value[1..] == ParseAll(p.rest).value;
    }
  }

  lemma ParseRest(b: Bytes)
    requires Parse(b).Some?
    ensures Parse(b).value.rest == b[|b| - |Parse(b).value.rest|..]
  {
    hide Encode, Parse;
    ParseCanonical(b);
  }

  /** No encoding is a proper prefix of another. */
  lemma EncodePrefixFree(v: Item, x: Bytes, w: Item, y: Bytes)
    requires |Encode(v)| < TWO_64 && |Encode(w)| < TWO_64 && Encode(v) + x == Encode(w) + y
    ensures v == w && x == y
  {
    hide Encode, Parse;
    ParseEncode(v, x);
    ParseEncode(w, y);
  }

  /** Bytes behind a value do not change it. */
  lemma ParseExtend(b: Bytes, t: Bytes)
    requires Parse(b).Some? && |b| < TWO_64
    ensures Parse(b + t) == Some(Parse(b).value.(rest := Parse(b).value.rest + t))
  {
    hide Encode, Parse;
    var p := Parse(b).value;
    ParseCanonical(b);
    Assoc(Encode(p.item), p.rest, t);
    ParseEncode(p.item, p.rest + t);
  }

  /** A value that lies within the first n bytes is read from them alone. */
  lemma ParseWithin(b: Bytes, n: nat)
    requires n <= |b| < TWO_64 && Parse(b).Some? && |b| - |Parse(b).value.rest| <= n
    ensures Parse(b[..n]).Some? && Parse(b[..n]).value.item == Parse(b).value.item
    ensures Parse(b).value.rest == Parse(b[..n]).value.rest + b[n..]
  {
    hide Encode, Parse;
    var p := Parse(b).value;
    ParseCanonical(b);
    var k := |Encode(p.item)|;
    assert b[..k] == Encode(p.item) && b[k..] == p.rest;
    assert b[..n] == Encode(p.item) + b[k..n];
    ParseEncode(p.item, b[k..n]);
    assert b[k..] == b[k..n] + b[n..];
  }

  /** CountValues counts the values of every concatenation of values. */
  lemma {:induction false} CountParsed(b: Bytes)
    requires ParseAll(b).Some?
    ensures Count(b) == Ok(|ParseAll(b).value|)
    decreases |b|
  {
    hide ReadKind;
    if b != [] {
      CountParsed(Parse(b).value.rest);
    }
  }
}
