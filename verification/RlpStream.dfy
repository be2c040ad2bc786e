/** The streaming RLP decoder of rlp/decode.go. A stream remembers the header it has
    already consumed, the open lists, and an optional input limit. */
module RlpStream {
  import opened Common
  import opened Rlp
  import opened RlpValues
  import opened RlpEncoder

  datatype ListPos = ListPos(pos: nat, size: nat)

  /** Open lists stay within their sizes, and each fits what its parent has left. */
  ghost predicate StackOk(stack: seq<ListPos>) {
    && (forall i | 0 <= i < |stack| :: stack[i].pos <= stack[i].size < TWO_64)
    && (forall i | 0 <= i < |stack| - 1 :: stack[i].pos + stack[i + 1].size <= stack[i].size)
  }

  /** The innermost list and the input limit, if there are any, allow n more bytes. */
  ghost predicate Enough(stack: seq<ListPos>, limit: Option<nat>, n: int) {
    && (stack != [] ==> n <= stack[|stack| - 1].size - stack[|stack| - 1].pos)
    && (limit.Some? ==> n <= limit.value)
  }

  /** Why n more bytes may not be read: a list is smaller, or else the limit. */
  ghost function Refused(stack: seq<ListPos>, limit: Option<nat>, n: int): (e: Option<Error>)
    ensures e.None? <==> Enough(stack, limit, n)
    ensures e.Some? ==> e.value.ValueTooLarge? || (e.value.ElemTooLarge? && stack != [])
  {
    if stack != [] && n > stack[|stack| - 1].size - stack[|stack| - 1].pos then Some(ElemTooLarge)
    else if limit.Some? && n > limit.value then Some(ValueTooLarge)
    else None
  }

  ghost function Advance(stack: seq<ListPos>, n: int): seq<ListPos>
    requires stack != [] ==> 0 <= stack[|stack| - 1].pos + n
  {
    if stack == [] then []
    else stack[..|stack| - 1] + [ListPos(stack[|stack| - 1].pos + n, stack[|stack| - 1].size)]
  }

  ghost function Reduce(limit: Option<nat>, n: int): Option<nat>
    requires limit.Some? ==> n <= limit.value
  {
    if limit.Some? then Some(limit.value - n) else None
  }

  lemma AdvanceOk(stack: seq<ListPos>, limit: Option<nat>, a: nat)
    requires StackOk(stack) && Enough(stack, limit, a)
    ensures StackOk(Advance(stack, a))
    ensures forall b: nat :: Enough(Advance(stack, a), Reduce(limit, a), b) <==> Enough(stack, limit, a + b)
    ensures forall b: nat :: Refused(Advance(stack, a), Reduce(limit, a), b) == Refused(stack, limit, a + b)
    ensures forall b: nat {:trigger Advance(Advance(stack, a), b)} ::
              Advance(Advance(stack, a), b) == Advance(stack, a + b)
  {
  }

  /** A header as the stream reads it: a byte below 0x80 is a header of its own. */
  function ParseHead(b: Bytes): (r: Result<Head, Error>)
    ensures r.Ok? ==> 0 < r.value.tag
  {
    if b == [] then Err(UnexpectedEOF)
    else if b[0] < 0x80 then Ok(Head(Byte, 1, 0))
    else if b[0] < 0xB8 then Ok(Head(String, 1, b[0] - 0x80))
    else if b[0] < 0xC0 then LongHead(String, b, b[0] - 0xB7)
    else if b[0] < 0xF8 then Ok(Head(Sequence, 1, b[0] - 0xC0))
    else LongHead(Sequence, b, b[0] - 0xF7)
  }

  /** The bytes of a header. */
  ghost function HeadOf(kind: Kind, byteval: byte, size: nat): Bytes {
    match kind
    case Byte => [byteval]
    case String => Header(0x80, 0xB7, size)
    case Sequence => Header(0xC0, 0xF7, size)
  }

  /** A header read is the canonical header of its kind and size. */
  lemma ParseHeadCanonical(b: Bytes)
    requires ParseHead(b).Ok?
    ensures var h := ParseHead(b).value;
            && h.tag <= |b| && h.size < TWO_64 && (h.kind.Byte? ==> h.size == 0 && b[0] < 0x80)
            && b[..h.tag] == HeadOf(h.kind, b[0], h.size)
  {
    if 0xB8 <= b[0] < 0xC0 {
      LongHeadCanonical(String, 0xB7, b);
    } else if b[0] >= 0xF8 {
      LongHeadCanonical(Sequence, 0xF7, b);
    }
  }

  /** And every canonical header is read. */
  lemma ParseHeadOf(kind: Kind, byteval: byte, size: nat, rest: Bytes)
    requires size < TWO_64 && (kind.Byte? ==> size == 0 && byteval < 0x80)
    ensures var h := HeadOf(kind, byteval, size);
            ParseHead(h + rest) == Ok(Head(kind, |h|, size))
  {
    if size < 56 || kind.Byte? {
      ShortHeadOf(kind, byteval, size, rest);
    } else if kind.String? {
      LongHeadIs(String, 0x80, 0xB7, size, rest);
    } else {
      LongHeadIs(Sequence, 0xC0, 0xF7, size, rest);
    }
  }

  lemma ShortHeadOf(kind: Kind, byteval: byte, size: nat, rest: Bytes)
    requires size < 56 && (kind.Byte? ==> size == 0 && byteval < 0x80)
    ensures var h := HeadOf(kind, byteval, size);
            ParseHead(h + rest) == Ok(Head(kind, |h|, size))
  {
    hide LongHead, BigEndian;
    var h := HeadOf(kind, byteval, size);
    assert |h| == 1 && (h + rest)[0] == h[0];
  }

  lemma LongHeadIs(kind: Kind, small: byte, large: byte, size: nat, rest: Bytes)
    requires 56 <= size < TWO_64 && !kind.Byte? && large == (if kind.String? then 0xB7 else 0xF7)
    ensures var h := Header(small, large, size);
            ParseHead(h + rest) == Ok(Head(kind, |h|, size))
  {
    hide LongHead, BigEndian;
    LongHeadOf(kind, large, size, rest);
    var h := Header(small, large, size);
    assert (h + rest)[0] == large + |BigEndian(size)|;
  }

  /** What Parse makes of a header and the bytes behind it. */
  ghost function ParseBody(h: Head, b: Bytes): Option<Parsed>
    requires h.tag <= |b| && (h.kind.Byte? ==> h.size == 0 && 0 < |b|)
  {
    if h.tag + h.size > |b| then None else
    var content, rest := b[h.tag..h.tag + h.size], b[h.tag + h.size..];
    match h.kind
    case Byte => Some(Parsed(Str([b[0]]), rest))
    case String => if h.size == 1 && content[0] < 0x80 then None else Some(Parsed(Str(content), rest))
    case Sequence =>
      if ParseAll(content).None? then None else Some(Parsed(List(ParseAll(content).value), rest))
  }

  lemma ParseByHead(b: Bytes)
    ensures ParseHead(b).Err? ==> Parse(b).None?
    ensures ParseHead(b).Ok? ==>
              && ParseHead(b).value.tag <= |b|
              && (ParseHead(b).value.kind.Byte? ==> ParseHead(b).value.size == 0 && 0 < |b|)
              && Parse(b) == ParseBody(ParseHead(b).value, b)
  {
    hide ParseAll, ParseHead, Split;
    SplitByHead(b);
    if ParseHead(b).Ok? {
      HeadTag(b);
      var h := ParseHead(b).value;
      if h.tag + h.size <= |b| && h.size == 1 && h.kind.String? {
        assert b[h.tag..h.tag + h.size][0] == b[1];
      }
      if h.kind.Byte? {
        assert b[..1] == [b[0]];
      }
    }
  }

  lemma HeadTag(b: Bytes)
    requires ParseHead(b).Ok?
    ensures var h := ParseHead(b).value;
            && h.tag <= |b| && (h.kind.Byte? ==> h.tag == 1 && h.size == 0)
            && (h.kind.String? && h.size == 1 ==> h.tag == 1)
  {
    hide BeValue;
  }

  /** The splitter and the stream agree on headers, but for the short form of a one-byte string. */
  lemma SplitByHead(b: Bytes)
    ensures ParseHead(b).Err? ==> Split(b).Err?
    ensures ParseHead(b).Ok? ==>
              var h := ParseHead(b).value;
              var end := h.tag + h.size;
              && (Split(b).Ok? <==> end <= |b| && !(h.kind.String? && h.tag == 1 && h.size == 1 && b[1] < 0x80))
              && (Split(b).Ok? ==>
                    Split(b) == Ok(Parts(h.kind, if h.kind.Byte? then b[..1] else b[h.tag..end], b[end..])))
  {
    hide LongHead;
    if b != [] && 0xB8 <= b[0] < 0xC0 {
      LongTag(String, b, b[0] - 0xB7);
    } else if b != [] && 0xF8 <= b[0] {
      LongTag(Sequence, b, b[0] - 0xF7);
    }
  }

  lemma LongTag(kind: Kind, b: Bytes, slen: nat)
    requires |b| > 0 && slen > 0
    ensures LongHead(kind, b, slen).Ok? ==>
              LongHead(kind, b, slen).value.kind == kind && LongHead(kind, b, slen).value.size >= 56
  {
  }

  /** How far a stream has come, whether or not the next header is already consumed:
      the data ahead, the open lists and the limit as before that header. */
  datatype Point = Point(ahead: Bytes, stack: seq<ListPos>, limit: Option<nat>)

  /** n more bytes may be read and are there. */
  ghost predicate Allows(p: Point, n: int) {
    Enough(p.stack, p.limit, n) && n <= |p.ahead|
  }

  ghost function Skip(p: Point, n: nat): Point
    requires Allows(p, n)
  {
    Point(p.ahead[n..], Advance(p.stack, n), Reduce(p.limit, n))
  }

  /** The value at p, if there is one within the allowed bytes. */
  ghost function ValueAt(p: Point): Option<Item> {
    var v := Parse(p.ahead);
    if v.Some? && Allows(p, |p.ahead| - |v.value.rest|) then Some(v.value.item) else None
  }

  /** Its length. */
  ghost function LengthAt(p: Point): (n: nat)
    requires ValueAt(p).Some?
    ensures 0 < n && Allows(p, n)
  {
    |p.ahead| - |Parse(p.ahead).value.rest|
  }

  /** The last bytes of the item are a string of its own, which the decoder reads in bulk. */
  ghost predicate Bulk(v: Item)
    decreases v
  {
    match v
    case Str(s) => s != [] && !(|s| == 1 && s[0] < 0x80)
    case List(items) => items != [] && Bulk(items[|items| - 1])
  }

  /** The value at p is the last of the input and ends with a bulk read. */
  ghost predicate Cut(p: Point) {
    ValueAt(p).Some? && LengthAt(p) == |p.ahead| && Bulk(ValueAt(p).value)
  }

  /** The input ends within the header: behind a size of two or more bytes. */
  ghost predicate CutHead(b: Bytes) {
    ParseHead(b).Ok? && 3 <= ParseHead(b).value.tag == |b|
  }

  /** The header at p, if the value it announces is allowed. */
  ghost predicate HeadAt(p: Point, h: Head) {
    ParseHead(p.ahead) == Ok(h) && Enough(p.stack, p.limit, h.tag + h.size)
  }

  // ----- errors

  /** How many bytes of size follow the first byte of a header. */
  function SizeBytes(b: byte): nat {
    if 0xB8 <= b < 0xC0 then b - 0xB7 else if 0xF8 <= b then b - 0xF7 else 0
  }

  /** Why n bytes cannot be read at offset `from`, if they cannot. */
  ghost function ReadError(p: Point, from: nat, n: nat, cut: bool): (e: Option<Error>)
    ensures e.Some? ==> e.value.UnexpectedEOF? || e.value.ElemTooLarge? || e.value.ValueTooLarge?
  {
    if Refused(p.stack, p.limit, from + n).Some? then Refused(p.stack, p.limit, from + n)
    else if |p.ahead| < from + n || (cut && |p.ahead| == from + n) then Some(UnexpectedEOF)
    else None
  }

  /** Why the size of a header cannot be read: its bytes cannot, or it is not canonical. */
  ghost function SizeError(p: Point, n: nat, eager: bool): Option<Error> {
    if n == 0 then None
    else if ReadError(p, 0, n, eager && n >= 2).Some? then ReadError(p, 0, n, eager && n >= 2)
    else if ReadSize(p.ahead, n).Err? then Some(CanonSize)
    else None
  }

  function TagKind(b: byte): Kind {
    if b < 0x80 then Byte else if b < 0xC0 then String else Sequence
  }

  /** The size that the first byte of a header holds itself. */
  function TagSize(b: byte): nat {
    if 0x80 <= b < 0xB8 then b - 0x80 else if 0xC0 <= b < 0xF8 then b - 0xC0 else 0
  }

  /** Why no header can be read at p. At the top level the end of the input is a normal end. */
  ghost function HeaderError(p: Point, eager: bool): Option<Error> {
    if ReadError(p, 0, 1, false).Some? then if p.stack == [] then Some(EOF) else ReadError(p, 0, 1, false)
    else
      var n := SizeBytes(p.ahead[0]);
      if n == 0 then None
      else if ReadError(p, 1, n, eager && n >= 2).Some? then ReadError(p, 1, n, eager && n >= 2)
      else if ReadSize(p.ahead[1..], n).Err? then Some(CanonSize)
      else None
  }

  /** Why the header at p is not accepted: it cannot be read, or announces more than its list or the limit allows. */
  ghost function HeadError(p: Point, eager: bool): Option<Error> {
    if HeaderError(p, eager).Some? then HeaderError(p, eager)
    else if ParseHead(p.ahead).Err? then None
    else Refused(p.stack, if p.stack == [] then p.limit else None,
                 ParseHead(p.ahead).value.tag + ParseHead(p.ahead).value.size)
  }

  /** Why the value whose header is at p cannot be read as a string. */
  ghost function StringError(p: Point, eager: bool): (e: Option<Error>)
    ensures e != Some(EOF) && e != Some(EndOfList)
  {
    if ParseHead(p.ahead).Err? || ParseHead(p.ahead).value.kind.Byte? then None else
    var h := ParseHead(p.ahead).value;
    if h.kind.Sequence? then Some(ExpectedString)
    else if ReadError(p, h.tag, h.size, eager && h.size > 0).Some? then ReadError(p, h.tag, h.size, eager && h.size > 0)
    else if h.size == 1 && p.ahead[h.tag] < 0x80 then Some(CanonSize)
    else None
  }

  /** Why it cannot be read as an unsigned integer. A single byte is not read in bulk. */
  ghost function UintError(p: Point, eager: bool): (e: Option<Error>)
    ensures e != Some(EOF) && e != Some(EndOfList)
  {
    if ParseHead(p.ahead).Err? then None else
    var h := ParseHead(p.ahead).value;
    if h.kind.Byte? then if p.ahead != [] && p.ahead[0] == 0 then Some(CanonInt) else None
    else if h.kind.Sequence? then Some(ExpectedString)
    else if h.size > 8 then Some(UintOverflow)
    else if ReadError(p, h.tag, h.size, eager && h.size >= 2).Some? then
      ReadError(p, h.tag, h.size, eager && h.size >= 2)
    else if h.size >= 2 && p.ahead[h.tag] == 0 then Some(CanonInt)
    else if h.size == 1 && p.ahead[h.tag] < 0x80 then Some(CanonSize)
    else None
  }

  lemma HeaderErrorFirst(p: Point, eager: bool)
    ensures ReadError(p, 0, 1, false).Some? ==>
              HeaderError(p, eager) == if p.stack == [] then Some(EOF) else ReadError(p, 0, 1, false)
    ensures p.stack == [] && ReadError(p, 0, 1, false).Some? ==> !ReadError(p, 0, 1, false).value.ElemTooLarge?
  {
  }

  /** Behind the first byte of a header its size is read, and makes the rest of it. */
  lemma HeadParts(p: Point, eager: bool)
    requires StackOk(p.stack) && p.ahead != [] && Enough(p.stack, p.limit, 1)
    ensures var q, n := Point(p.ahead[1..], Advance(p.stack, 1), Reduce(p.limit, 1)), SizeBytes(p.ahead[0]);
            && HeaderError(p, eager) == SizeError(q, n, eager)
            && (HeaderError(p, eager).None? ==>
                  ParseHead(p.ahead) == Ok(Head(TagKind(p.ahead[0]), 1 + n,
                                                if n > 0 then ReadSize(q.ahead, n).value else TagSize(p.ahead[0]))))
  {
    hide BeValue, Refused, Advance, Enough;
    AdvanceOk(p.stack, p.limit, 1);
  }

  lemma HeaderErrorNone(p: Point, eager: bool)
    ensures HeaderError(p, eager).None? <==>
            && ParseHead(p.ahead).Ok? && Enough(p.stack, p.limit, ParseHead(p.ahead).value.tag)
            && !(eager && CutHead(p.ahead))
  {
    hide Enough, Refused, BeValue;
    if Enough(p.stack, p.limit, 1) && p.ahead != [] && SizeBytes(p.ahead[0]) > 0 {
      assert p.ahead[1..][0..] == p.ahead[1..];
    } else if ParseHead(p.ahead).Ok? && Enough(p.stack, p.limit, ParseHead(p.ahead).value.tag) {
      EnoughMono(p.stack, p.limit, 1, ParseHead(p.ahead).value.tag);
    }
  }

  /** Running out of input is a normal end at the top level and nowhere else. */
  lemma HeaderErrorEOF(p: Point, eager: bool)
    ensures HeaderError(p, eager) == Some(EOF) <==> p.stack == [] && (p.ahead == [] || p.limit == Some(0))
  {
    hide ReadSize;
  }

  lemma HeadErrorEOF(p: Point, eager: bool)
    ensures HeadError(p, eager) == Some(EOF) <==> p.stack == [] && (p.ahead == [] || p.limit == Some(0))
    ensures HeadError(p, eager) != Some(EndOfList)
  {
    hide ReadSize, ParseHead;
    HeaderErrorEOF(p, eager);
  }

  lemma EnoughMono(stack: seq<ListPos>, limit: Option<nat>, a: int, b: int)
    requires a <= b && Enough(stack, limit, b)
    ensures Enough(stack, limit, a)
  {
  }

  lemma Rewind(stack: seq<ListPos>, limit: Option<nat>, n: nat)
    requires StackOk(stack) && (stack != [] ==> n <= stack[|stack| - 1].pos)
    ensures Advance(Advance(stack, 0 - n), n) == stack && StackOk(Advance(stack, 0 - n))
    ensures Reduce(limit, 0 - n).Some? == limit.Some? && Reduce(Reduce(limit, 0 - n), n) == limit
    ensures Enough(Advance(stack, 0 - n), Reduce(limit, 0 - n), n)
  {
  }

  lemma {:induction false} BeValueZeros(k: nat, b: Bytes)
    ensures BeValue(seq(k, _ => 0) + b) == BeValue(b)
    decreases |b|
  {
    var all: Bytes := seq(k, _ => 0) + b;
    if b == [] {
      assert all == seq(k, _ => 0);
      BeValueNone(k);
    } else {
      BeValueZeros(k, b[..|b| - 1]);
      assert all[..|all| - 1] == seq(k, _ => 0) + b[..|b| - 1];
    }
  }

  lemma {:induction false} BeValueNone(k: nat)
    ensures BeValue(seq(k, _ => 0)) == 0
  {
    if k > 0 {
      BeValueNone(k - 1);
      assert seq(k, _ => 0)[..k - 1] == seq(k - 1, _ => 0);
    }
  }

  lemma BeValueOne(b: byte)
    ensures BeValue([b]) == b
  {
    assert [b][..0] == [];
  }

  class Stream {
    /** The bytes the reader has not delivered yet. */
    var input: Bytes
    /** Whether the reader, which has ReadByte, reports the end of the input together with its last bytes. A reader
        without ReadByte is buffered first, and the buffer is the reader here. */
    const eager: bool
    /** What may still be read in total, if the stream is limited. */
    var limit: Option<nat>
    /** The header ahead, if it has been consumed. */
    var kind: Option<Kind>
    var size: nat
    var byteval: byte
    var kinderr: Option<Error>
    var stack: seq<ListPos>

    ghost predicate Valid()
      reads this
    {
      && |input| < TWO_64 && StackOk(stack) && kinderr != Some(EndOfList)
      && (Held() ==>
            && size < TWO_64 && (kind.value.Byte? ==> size == 0 && byteval < 0x80)
            && Enough(stack, if stack == [] then limit else None, size)
            && (stack != [] ==> |Lead()| <= stack[|stack| - 1].pos))
    }

    /** A header has been consumed and its value not yet. */
    ghost predicate Held()
      reads this
    {
      kind.Some? && kinderr.None?
    }

    /** No error is pending. */
    ghost predicate Sound()
      reads this
    {
      kind.Some? ==> kinderr.None?
    }

    /** What stands before the next value: a pending error, the end of the list, or a header that is not accepted. */
    ghost function HeadErr(): Option<Error>
      requires Valid()
      reads this
    {
      if kind.Some? then kinderr
      else if AtEnd() then Some(EndOfList)
      else HeadError(Here(), eager)
    }

    /** Nothing is held, no list is open, and no byte may or can be read. */
    ghost predicate OutOfInput()
      reads this
    {
      kind.None? && stack == [] && (input == [] || limit == Some(0))
    }

    /** The header bytes consumed ahead of the value. */
    ghost function Lead(): Bytes
      reads this
    {
      if Held() then HeadOf(kind.value, byteval, size) else []
    }

    ghost function Here(): Point
      requires Valid()
      reads this
    {
      Point(Lead() + input, Advance(stack, 0 - |Lead()|), Reduce(limit, 0 - |Lead()|))
    }

    ghost predicate AtEnd()
      reads this
    {
      kind.None? && stack != [] && stack[|stack| - 1].pos == stack[|stack| - 1].size
    }

    ghost function Measure(): nat
      reads this
    {
      |input| + if kind.Some? then 1 else 0
    }

    /** n bytes of the input have been consumed since the old state. */
    twostate predicate Consumed(n: nat)
      reads this
    {
      && n <= |old(input)| && input == old(input)[n..]
      && Enough(old(stack), old(limit), n)
      && stack == Advance(old(stack), n) && limit == Reduce(old(limit), n)
    }

    constructor (input: Bytes, limit: Option<nat>, eager: bool)
      requires |input| < TWO_64
      ensures Valid() && Sound() && Here() == Point(input, [], limit) && this.eager == eager
      ensures OutOfInput() <==> input == [] || limit == Some(0)
    {
      this.input, this.limit, this.eager := input, limit, eager;
      kind, size, byteval, kinderr, stack := None, 0, 0, None, [];
    }

    /** Accounts for n bytes about to be read. */
    method WillRead(n: nat) returns (err: Option<Error>)
      requires StackOk(stack)
      modifies this`kind, this`stack, this`limit
      ensures kind.None? && StackOk(stack) && |stack| == |old(stack)|
      ensures err.None? <==> Enough(old(stack), old(limit), n)
      ensures err.None? ==> stack == Advance(old(stack), n) && limit == Reduce(old(limit), n)
      ensures err == Refused(old(stack), old(limit), n)
    {
      kind := None;
      if |stack| > 0 {
        var tos := stack[|stack| - 1];
        if n > tos.size - tos.pos {
          return Some(ElemTooLarge);
        }
        stack := stack[|stack| - 1 := ListPos(tos.pos + n, tos.size)];
      }
      if limit.Some? {
        if n > limit.value {
          return Some(ValueTooLarge);
        }
        limit := Some(limit.value - n);
      }
      return None;
    }

    method ReadByte() returns (r: Result<byte, Error>)
      requires StackOk(stack)
      modifies this`kind, this`stack, this`limit, this`input
      ensures kind.None? && StackOk(stack) && |stack| == |old(stack)| && |input| <= |old(input)|
      ensures r.Ok? <==> Enough(old(stack), old(limit), 1) && old(input) != []
      ensures r.Ok? ==> Consumed(1) && r.value == old(input)[0]
      ensures r.Err? ==> Some(r.error) == ReadError(Point(old(input), old(stack), old(limit)), 0, 1, false)
    {
      hide StackOk, Enough, Advance, Refused;
      var err := WillRead(1);
      if err.Some? {
        return Err(err.value);
      }
      if input == [] {
        return Err(UnexpectedEOF);
      }
      r := Ok(input[0]);
      input := input[1..];
    }

    /** Reads n bytes; the reader may deliver them in chunks of any size. The end of the input
        is an error even when the last bytes asked for came with it. */
    method ReadFull(n: nat) returns (r: Result<Bytes, Error>)
      requires StackOk(stack)
      modifies this`kind, this`stack, this`limit, this`input
      ensures kind.None? && StackOk(stack) && |input| <= |old(input)|
      ensures r.Ok? <==>
              Enough(old(stack), old(limit), n) && n <= |old(input)| && !(eager && 0 < n == |old(input)|)
      ensures r.Ok? ==> Consumed(n) && r.value == old(input)[..n]
      ensures r.Err? ==> Some(r.error) == ReadError(Point(old(input), old(stack), old(limit)), 0, n, eager && n > 0)
    {
      hide StackOk, Enough, Advance, Refused;
      var err := WillRead(n);
      if err.Some? {
        return Err(err.value);
      }
      var buf: Bytes, eof := [], false;
      while |buf| < n && !eof
        invariant |buf| <= n && |buf| <= |old(input)|
        invariant buf == old(input)[..|buf|] && input == old(input)[|buf|..]
        invariant eof ==> input == [] && 0 < n && (eager || |buf| < n)
        invariant eager && !eof && buf != [] ==> input != []
        decreases !eof, |input|
        modifies this`input
      {
        if input == [] {
          eof := true;
        } else {
          assert 0 < 1 <= n - |buf| && 1 <= |input|;
          var nn: nat :| 0 < nn <= n - |buf| && nn <= |input|;
          buf := buf + input[..nn];
          input := input[nn..];
          eof := eager && input == [];
        }
      }
      return if eof then Err(UnexpectedEOF) else Ok(buf);
    }

    /** A big-endian integer of n bytes; two and more must not start with a zero. */
    method ReadUint(n: nat) returns (r: Result<nat, Error>)
      requires StackOk(stack) && n <= 8
      modifies this`kind, this`stack, this`limit, this`input
      ensures kind.None? && StackOk(stack) && |input| <= |old(input)|
      ensures r.Ok? <==>
              && Enough(old(stack), old(limit), n) && n <= |old(input)| && (n >= 2 ==> old(input)[0] != 0)
              && !(eager && 2 <= n == |old(input)|)
      ensures r.Ok? ==> Consumed(n) && r.value == BeValue(old(input)[..n])
      ensures r.Err? ==>
                var e := ReadError(Point(old(input), old(stack), old(limit)), 0, n, eager && n >= 2);
                Some(r.error) == if e.Some? then e else Some(CanonSize)
    {
      hide StackOk, Enough, Advance, BeValue, Refused;
      if n == 0 {
        kind := None;
        ReadNone(input, stack, limit);
        return Ok(0);
      }
      if n == 1 {
        var b := ReadByte();
        if b.Err? {
          return Err(b.error);
        }
        BeValueOne(b.value);
        assert old(input)[..1] == [b.value];
        return Ok(b.value);
      }
      var zeros: Bytes := seq(8 - n, _ => 0);
      var buf := ReadFull(n);
      if buf.Err? {
        return Err(buf.error);
      }
      if buf.value[0] == 0 {
        return Err(CanonSize);
      }
      BeValueZeros(8 - n, buf.value);
      return Ok(BeValue(zeros + buf.value));
    }

    /** A size of slen bytes: canonical sizes only. */
    method ReadLong(slen: nat) returns (n: nat, err: Option<Error>)
      requires StackOk(stack) && 1 <= slen <= 8
      modifies this`kind, this`stack, this`limit, this`input
      ensures StackOk(stack) && |input| <= |old(input)|
      ensures err.None? <==>
              && Enough(old(stack), old(limit), slen) && ReadSize(old(input), slen).Ok?
              && !(eager && 2 <= slen == |old(input)|)
      ensures err.None? ==> Consumed(slen) && n == ReadSize(old(input), slen).value
      ensures err.Some? ==>
                var e := ReadError(Point(old(input), old(stack), old(limit)), 0, slen, eager && slen >= 2);
                err == if e.Some? then e else Some(CanonSize)
    {
      hide StackOk, Enough, Advance, BeValue, Refused;
      var v := ReadUint(slen);
      if v.Err? {
        return 0, Some(v.error);
      }
      if slen == 1 {
        BeValueOne(old(input)[0]);
        assert old(input)[..1] == [old(input)[0]];
      }
      n := v.value;
      err := if n < 56 then Some(CanonSize) else None;
    }

    /** Reads the rest of a header that starts with v. */
    method ReadTag(v: byte) returns (k: Kind, n: nat, err: Option<Error>)
      requires StackOk(stack)
      modifies this`kind, this`stack, this`limit, this`input, this`byteval
      ensures StackOk(stack) && |input| <= |old(input)|
      ensures err == SizeError(Point(old(input), old(stack), old(limit)), SizeBytes(v), eager)
      ensures err.None? ==>
                && Consumed(SizeBytes(v)) && k == TagKind(v) && (k.Byte? ==> byteval == v)
                && n == if SizeBytes(v) > 0 then ReadSize(old(input), SizeBytes(v)).value else TagSize(v)
    {
      hide StackOk, Enough, Advance, BeValue, ReadSize, Refused;
      ReadNone(input, stack, limit);
      byteval := 0;
      k, n, err := Byte, 0, None;
      if v < 0x80 {
        byteval := v;
      } else if v < 0xB8 {
        k, n := String, v - 0x80;
      } else if v < 0xC0 {
        k := String;
        n, err := ReadLong(v - 0xB7);
      } else if v < 0xF8 {
        k, n := Sequence, v - 0xC0;
      } else {
        k := Sequence;
        n, err := ReadLong(v - 0xF7);
      }
    }

    /** Reads a header. */
    method ReadKind() returns (k: Kind, n: nat, err: Option<Error>)
      requires StackOk(stack)
      modifies this`kind, this`stack, this`limit, this`input, this`byteval
      ensures StackOk(stack) && |input| <= |old(input)|
      ensures err.None? <==>
              && ParseHead(old(input)).Ok? && Enough(old(stack), old(limit), ParseHead(old(input)).value.tag)
              && !(eager && CutHead(old(input)))
      ensures err.None? ==>
                var h := ParseHead(old(input)).value;
                k == h.kind && n == h.size && Consumed(h.tag) && (k.Byte? ==> byteval == old(input)[0])
      ensures err == HeaderError(Point(old(input), old(stack), old(limit)), eager)
      ensures err == Some(EOF) <==> old(stack) == [] && (old(input) == [] || old(limit) == Some(0))
    {
      hide StackOk, Enough, Advance, ParseHead, ReadSize, Refused, CutHead, ReadError, SizeError, TagSize, HeaderError;
      ghost var p := Point(input, stack, limit);
      HeaderErrorEOF(p, eager);
      HeaderErrorNone(p, eager);
      HeaderErrorFirst(p, eager);
      var b := ReadByte();
      if b.Err? {
        var e := if |stack| == 0 && (b.error.UnexpectedEOF? || b.error.ValueTooLarge?) then EOF else b.error;
        return Byte, 0, Some(e);
      }
      AdvanceOk(p.stack, p.limit, 1);
      HeadParts(p, eager);
      k, n, err := ReadTag(b.value);
    }

    /** A top-level value must fit the limit, an element its list. */
    method TooLarge(n: nat) returns (err: Option<Error>)
      ensures err == Refused(stack, if stack == [] then limit else None, n)
    {
      if |stack| == 0 {
        return if limit.Some? && n > limit.value then Some(ValueTooLarge) else None;
      }
      return if n > stack[|stack| - 1].size - stack[|stack| - 1].pos then Some(ElemTooLarge) else None;
    }

    /** Consumes the next header; one that announces too much is an error that stays. */
    method FreshKind()
      requires Valid() && kind.None?
      modifies this
      ensures Valid() && kind.Some? && |input| <= |old(input)| && (kinderr.None? ==> |input| < |old(input)|)
      ensures kinderr.None? ==> Here() == old(Here())
      ensures kinderr == HeadError(old(Here()), eager)
      ensures kinderr.Some? ==> (eager && CutHead(old(Here()).ahead)) || forall h :: !HeadAt(old(Here()), h)
    {
      hide StackOk, Advance, Enough, HeadOf, ParseHead, CutHead, Reduce, Stream.Here, Refused, HeaderError;
      Unheld();
      ghost var p := Here();
      HeadErrorEOF(p, eager);
      var k, n, err := ReadKind();
      if err.None? {
        ParseHeadCanonical(p.ahead);
        HeadOfSame(k, byteval, p.ahead[0], n);
        HeldPoint(p, HeadOf(k, byteval, n), n, input, stack, limit);
        err := TooLarge(n);
      } else if !(eager && CutHead(p.ahead)) {
        NoHead(p);
      }
      kind, size, kinderr := Some(k), n, err;
      if err.None? {
        HereIs();
      }
    }

    lemma HereIs()
      requires Valid()
      ensures Here() == Point(Lead() + input, Advance(stack, 0 - |Lead()|), Reduce(limit, 0 - |Lead()|))
    {
    }

    /** The kind and size of the next value; its header is consumed once. */
    method KindAhead() returns (r: Result<(Kind, nat), Error>)
      requires Valid()
      modifies this
      ensures Valid() && (r.Ok? ==> Measure() <= old(Measure()))
      ensures r.Ok? ==> Held() && old(Sound()) && Here() == old(Here())
      ensures r.Ok? ==> r.value == (kind.value, size) && ParseHead(Here().ahead) == Ok(Head(kind.value, |Lead()|, size))
      ensures r.Err? && old(Sound()) ==>
                (eager && CutHead(old(Here()).ahead)) || forall h :: !HeadAt(old(Here()), h)
      ensures r == Err(EndOfList) <==> old(AtEnd())
      ensures r == Err(EndOfList) ==> kind.None? && Here() == old(Here())
      ensures old(HeadErr()) == if r.Err? then Some(r.error) else None
      ensures old(Sound()) ==> (r == Err(EOF) <==> old(OutOfInput()))
    {
      hide StackOk, Advance, Enough, HeadOf, ParseHead, CutHead, HeadError;
      if kind.None? {
        kinderr := None;
        if |stack| > 0 && stack[|stack| - 1].pos == stack[|stack| - 1].size {
          NoLead(input, stack, limit);
          EndHasNone(Here());
          return Err(EndOfList);
        }
        assert Here() == old(Here());
        Unheld();
        HeadErrorEOF(Here(), eager);
        FreshKind();
      }
      if kinderr.Some? {
        return Err(kinderr.value);
      }
      ParseHeadOf(kind.value, byteval, size, input);
      return Ok((kind.value, size));
    }

    /** Reads a string. */
    method ReadString() returns (r: Result<Bytes, Error>)
      requires Valid()
      modifies this
      ensures Valid()
      ensures r.Ok? <==>
              && old(Sound()) && ValueAt(old(Here())).Some? && ValueAt(old(Here())).value.Str?
              && !(eager && Cut(old(Here())))
      ensures r.Ok? ==>
                && ValueAt(old(Here())) == Some(Str(r.value))
                && kind.None? && Here() == Skip(old(Here()), LengthAt(old(Here())))
      ensures r == Err(EndOfList) <==> old(AtEnd())
      ensures old(Sound()) ==> (r == Err(EOF) <==> old(OutOfInput()))
      ensures r.Err? ==>
                Some(r.error) == if old(HeadErr()).Some? then old(HeadErr()) else StringError(old(Here()), eager)
    {
      hide *;
      ghost var p := Here();
      HeadFirst(p);
      var h := KindAhead();
      if h.Err? {
        return Err(h.error);
      }
      r := StringHeld();
    }

    /** Reads the string whose header has been consumed. */
    method StringHeld() returns (r: Result<Bytes, Error>)
      requires Valid() && Held() && ParseHead(Here().ahead) == Ok(Head(kind.value, |Lead()|, size))
      modifies this
      ensures Valid()
      ensures r.Ok? <==>
              ValueAt(old(Here())).Some? && ValueAt(old(Here())).value.Str? && !(eager && Cut(old(Here())))
      ensures r.Ok? ==>
                && ValueAt(old(Here())) == Some(Str(r.value))
                && kind.None? && Here() == Skip(old(Here()), LengthAt(old(Here())))
      ensures r.Err? ==> Some(r.error) == StringError(old(Here()), eager)
    {
      hide StackOk, Advance, Enough, HeadOf, ParseHead, ValueAt, LengthAt, Allows, Skip, Reduce, ParseAll, Cut;
      hide Stream.Here, Stream.Lead;
      if kind.value.Byte? {
        var b := ByteHeld();
        return Ok([b]);
      }
      ghost var p := Here();
      HereIs();
      ValueByHead(p, Lead(), input, kind.value, size);
      CutByHead(p, Lead(), input, kind.value, size);
      if kind.value.Sequence? {
        return Err(ExpectedString);
      }
      var n := size;
      r := ContentHeld();
      if r.Ok? && n == 1 && r.value[0] < 128 {
        return Err(CanonSize);
      }
    }

    /** Reads the content of the value whose header has been consumed. */
    method ContentHeld() returns (r: Result<Bytes, Error>)
      requires Valid() && Held()
      modifies this
      ensures Valid()
      ensures r.Ok? <==>
              && old(size) <= |old(input)| && Enough(old(Here()).stack, old(Here()).limit, |old(Lead())| + old(size))
              && !(eager && 0 < old(size) == |old(input)|)
      ensures r.Ok? ==>
                && r.value == old(input)[..old(size)] && Allows(old(Here()), |old(Lead())| + old(size))
                && kind.None? && Here() == Skip(old(Here()), |old(Lead())| + old(size))
      ensures r.Err? ==>
                Some(r.error) == ReadError(old(Here()), |old(Lead())|, old(size), eager && old(size) > 0)
    {
      hide StackOk, Advance, Enough, Refused, ReadError, Allows, Skip, Reduce, Stream.Here, Stream.Lead;
      HeldAll();
      ghost var p, lead, inp, st, lim := Here(), Lead(), input, stack, limit;
      var n := size;
      HeldError(n, eager && n > 0);
      r := ReadFull(n);
      if r.Ok? {
        HeldSkip(p, lead, inp, st, lim, n);
        Unheld();
      }
    }

    /** Takes the single byte that was its own header. */
    method ByteHeld() returns (b: byte)
      requires Valid() && Held() && kind.value.Byte? && ParseHead(Here().ahead) == Ok(Head(kind.value, |Lead()|, size))
      modifies this`kind
      ensures Valid() && kind.None?
      ensures ValueAt(old(Here())) == Some(Str([b])) && Here() == Skip(old(Here()), LengthAt(old(Here())))
      ensures b < 0x80 && !Cut(old(Here()))
    {
      hide StackOk, Advance, Enough, ParseHead, ValueAt, LengthAt, Allows, Skip, Cut;
      ghost var p := Here();
      HeldAll();
      ValueByHead(p, Lead(), input, kind.value, size);
      CutByHead(p, Lead(), input, kind.value, size);
      HeldSkip(p, Lead(), input, stack, limit, 0);
      kind := None;
      Unheld();
      b := byteval;
    }

    /** Enters a list. */
    method OpenList() returns (r: Result<nat, Error>)
      requires Valid()
      modifies this
      ensures Valid()
      ensures r.Ok? ==> old(Sound()) && ListHeadAt(old(Here()), r.value) && kind.None? && |input| < old(Measure())
      ensures r.Ok? ==> Here() == Opened(old(Here()), r.value)
      ensures r.Err? && old(Sound()) && ValueAt(old(Here())).Some? ==> ValueAt(old(Here())).value.Str?
      ensures r == Err(EndOfList) <==> old(AtEnd())
      ensures old(Sound()) ==> (r == Err(EOF) <==> old(OutOfInput()))
      ensures r.Ok? ==> old(HeadErr()).None?
      ensures r.Err? ==> Some(r.error) == if old(HeadErr()).Some? then old(HeadErr()) else Some(ExpectedList)
    {
      hide StackOk, Advance, Enough, HeadOf, ParseHead, ValueAt, LengthAt, Reduce, Stream.Here, Stream.Lead;
      ghost var p := Here();
      HeadFirst(p);
      var h := KindAhead();
      if h.Err? {
        return Err(h.error);
      }
      HeldAll();
      ValueByHead(p, Lead(), input, kind.value, size);
      if !h.value.0.Sequence? {
        return Err(ExpectedList);
      }
      HeldSkip(p, Lead(), input, stack, limit, 0);
      HeldList(p, Lead(), input, stack, limit, size);
      PushOk(stack, limit, size);
      stack := stack + [ListPos(0, size)];
      kind, size := None, 0;
      Unheld();
      return Ok(h.value.1);
    }

    /** Leaves a list that has been read to its end. */
    method CloseList() returns (err: Option<Error>)
      requires Valid()
      modifies this
      ensures Valid()
      ensures err.None? <==> old(stack) != [] && old(stack)[|old(stack)| - 1].pos == old(stack)[|old(stack)| - 1].size
      ensures err.None? ==>
                kind.None? && Here() == Point(input, stack, limit) && input == old(input) && limit == old(limit)
      ensures err.None? ==>
                var n := |old(stack)| - 1;
                stack == Advance(old(stack)[..n], old(stack)[n].size)
      ensures err.Some? ==> !err.value.EndOfList?
    {
      hide StackOk;
      if |stack| == 0 {
        return Some(NotInList);
      }
      var tos := stack[|stack| - 1];
      if tos.pos != tos.size {
        return Some(NotAtEOL);
      }
      PopOk(stack);
      stack := stack[..|stack| - 1];
      if |stack| > 0 {
        var top := stack[|stack| - 1];
        stack := stack[..|stack| - 1] + [ListPos(top.pos + tos.size, top.size)];
      }
      kind, size := None, 0;
      NoLead(input, stack, limit);
      return None;
    }

    /** Decodes the next value into an interface: a byte string, or a list of such values. */
    method DecodeInterface() returns (r: Result<Item, Error>)
      requires Valid()
      modifies this
      ensures Valid()
      ensures r.Ok? <==> old(Sound()) && ValueAt(old(Here())).Some? && !(eager && Cut(old(Here())))
      ensures r.Ok? ==>
                && ValueAt(old(Here())) == Some(r.value)
                && kind.None? && Here() == Skip(old(Here()), LengthAt(old(Here())))
      ensures r == Err(EndOfList) <==> old(AtEnd())
      ensures old(Sound()) ==> (r == Err(EOF) <==> old(OutOfInput()))
      ensures r.Err? && old(HeadErr()).Some? ==> Some(r.error) == old(HeadErr())
      ensures r == Err(EndOfList) ==> kind.None? && Here() == old(Here())
      decreases Measure(), 1
    {
      hide StackOk, Advance, Enough, HeadOf, ParseHead, ValueAt, LengthAt, Skip, Cut, CutHead, Stream.Here, Stream.Lead;
      ghost var p := Here();
      HeadFirst(p);
      var h := KindAhead();
      if h.Err? {
        return Err(h.error);
      }
      HeldAll();
      ValueByHead(p, Lead(), input, kind.value, size);
      if h.value.0.Sequence? {
        var items := DecodeList();
        r := if items.Ok? then Ok(List(items.value)) else Err(items.error);
      } else {
        var b := ReadString();
        r := if b.Ok? then Ok(Str(b.value)) else Err(b.error);
      }
    }

    method DecodeList() returns (r: Result<seq<Item>, Error>)
      requires Valid()
      modifies this
      ensures Valid()
      ensures r.Ok? <==>
              && old(Sound()) && ValueAt(old(Here())).Some? && ValueAt(old(Here())).value.List?
              && !(eager && Cut(old(Here())))
      ensures r.Ok? ==>
                && ValueAt(old(Here())) == Some(List(r.value))
                && kind.None? && Here() == Skip(old(Here()), LengthAt(old(Here())))
      ensures r == Err(EndOfList) <==> old(AtEnd())
      ensures old(Sound()) ==> (r == Err(EOF) <==> old(OutOfInput()))
      ensures r.Err? && old(HeadErr()).Some? ==> Some(r.error) == old(HeadErr())
      decreases Measure(), 0
    {
      hide StackOk, Advance, Enough, HeadOf, ParseHead, ValueAt, LengthAt, Skip, Allows, Cut, BulkAll;
      hide Stream.Here, Stream.Lead;
      ghost var p := Here();
      var size := OpenList();
      if size.Err? {
        return Err(size.error);
      }
      ghost var q := Here();
      ListValue(p, size.value);
      Unheld();
      var items: seq<Item> := [];
      if size.value > 0 {
        var es := Elements(size.value);
        if es.Err? {
          return Err(es.error);
        }
        items := es.value;
        Unheld();
      } else {
        NoElements(p);
      }
      Closing(p, size.value);
      var err := CloseList();
      return Ok(items);
    }

    /** The element loop: values up to the end of the list. */
    method Elements(size: nat) returns (r: Result<seq<Item>, Error>)
      requires Valid() && kind.None? && stack != [] && stack[|stack| - 1] == ListPos(0, size)
      modifies this
      ensures Valid()
      ensures r.Ok? <==>
              && Allows(old(Here()), size) && ParseAll(old(Here()).ahead[..size]).Some?
              && !(eager && size == |old(Here()).ahead| && BulkAll(ParseAll(old(Here()).ahead[..size]).value))
      ensures r.Ok? ==>
                && ParseAll(old(Here()).ahead[..size]) == Some(r.value)
                && kind.None? && Here() == Skip(old(Here()), size)
      ensures r.Err? ==> !r.error.EndOfList? && !r.error.EOF?
      decreases Measure(), 2
    {
      hide StackOk, Advance, Enough, HeadOf, ParseAll, ValueAt, LengthAt, Skip, Allows, ListRest, Cut, Bulk;
      hide Stream.Here, Stream.Lead;
      ghost var q, p: nat := Here(), 0;
      var items: seq<Item> := [];
      Unheld();
      FirstElement(q, size);
      while true
        invariant Valid() && kind.None? && p <= size && Allows(q, p) && Here() == Skip(q, p)
        invariant ListRest(q, size, items, p)
        invariant |input| <= |q.ahead| && !(eager && p == |q.ahead| && BulkAll(items))
        decreases |input|
      {
        Unheld();
        AtPoint(q, p, size);
        assert Sound() && !OutOfInput();
        ghost var here := Here();
        var x := DecodeInterface();
        if x.Err? && x.error.EndOfList? {
          LastElement(q, size, items);
          return Ok(items);
        }
        if x.Err? {
          NoElement(q, size, items, p, eager);
          return Err(x.error);
        }
        NextElement(q, size, items, p);
        CutElement(q, p, items);
        p := p + LengthAt(here);
        items := items + [x.value];
        Unheld();
        AtPoint(q, p, size);
      }
    }

    /** Reads the next value without decoding it: exactly the bytes it occupies. */
    method Raw() returns (r: Result<Bytes, Error>)
      requires Valid()
      modifies this
      ensures Valid()
      ensures r.Ok? <==> old(Sound()) && RawAt(old(Here())) && !(eager && RawCut(old(Here())))
      ensures r.Ok? ==>
                && r.value == old(Here()).ahead[..RawLength(old(Here()))]
                && kind.None? && Here() == Skip(old(Here()), RawLength(old(Here())))
      ensures old(Sound()) ==> (r == Err(EOF) <==> old(OutOfInput()))
      ensures r.Err? && old(HeadErr()).Some? ==> Some(r.error) == old(HeadErr())
      ensures r.Err? && old(HeadErr()).None? ==>
                && ParseHead(old(Here()).ahead).Ok?
                && var h := ParseHead(old(Here()).ahead).value;
                   Some(r.error) == ReadError(old(Here()), h.tag, h.size, eager && h.size > 0)
    {
      hide StackOk, Advance, Enough, HeadOf, ParseHead, ValueAt, LengthAt, Skip, Reduce, Stream.Here, Stream.Lead;
      ghost var p := Here();
      var h := KindAhead();
      if h.Err? {
        if RawAt(p) {
          RawHeadAt(p);
          assert HeadAt(p, ParseHead(p.ahead).value);
        }
        return Err(h.error);
      }
      HereIs();
      if h.value.0.Byte? {
        var b := ByteHeld();
        RawByte(p, b);
        return Ok([b]);
      }
      var n := size;
      ghost var lead, inp := Lead(), input;
      LeadIs();
      r := ContentHeld();
      if r.Ok? {
        var head := RawHead(h.value.0, n);
        assert p.ahead[..|lead| + n] == lead + inp[..n];
        r := Ok(head + r.value);
      }
    }

    lemma LeadIs()
      requires Held()
      ensures Lead() == HeadOf(kind.value, byteval, size)
    {
    }

    /** Reads an unsigned 64-bit integer: a string without leading zeros of at most eight bytes. */
    method Uint() returns (r: Result<nat, Error>)
      requires Valid()
      modifies this
      ensures Valid()
      ensures r.Ok? <==> old(Sound()) && UintAt(old(Here())) && !(eager && UintCut(old(Here())))
      ensures r.Ok? ==>
                && r.value == BeValue(ValueAt(old(Here())).value.bytes)
                && kind.None? && Here() == Skip(old(Here()), LengthAt(old(Here())))
      ensures old(Sound()) ==> (r == Err(EOF) <==> old(OutOfInput()))
      ensures r.Err? ==>
                Some(r.error) == if old(HeadErr()).Some? then old(HeadErr()) else UintError(old(Here()), eager)
    {
      hide StackOk, Advance, Enough, HeadOf, ParseHead, ValueAt, LengthAt, Skip, Reduce, BeValue;
      hide Stream.Here, Stream.Lead;
      ghost var p := Here();
      HeadFirst(p);
      var h := KindAhead();
      if h.Err? {
        return Err(h.error);
      }
      HeldAll();
      ValueByHead(p, Lead(), input, kind.value, size);
      if h.value.0.Byte? {
        ByteAhead();
        if byteval == 0 {
          return Err(CanonInt);
        }
        BeValueOne(byteval);
        var b := ByteHeld();
        return Ok(b);
      }
      if h.value.0.Sequence? {
        return Err(ExpectedString);
      }
      if size > 8 {
        return Err(UintOverflow);
      }
      r := UintHeld();
    }

    lemma ByteAhead()
      requires Valid() && Held() && kind.value.Byte?
      ensures Here().ahead != [] && Here().ahead[0] == byteval
    {
    }

    method UintHeld() returns (r: Result<nat, Error>)
      requires Valid() && Held() && kind.value.String? && size <= 8
      requires ParseHead(Here().ahead) == Ok(Head(kind.value, |Lead()|, size))
      modifies this
      ensures Valid()
      ensures r.Ok? <==> UintAt(old(Here())) && !(eager && UintCut(old(Here())))
      ensures r.Ok? ==>
                && r.value == BeValue(ValueAt(old(Here())).value.bytes)
                && kind.None? && Here() == Skip(old(Here()), LengthAt(old(Here())))
      ensures r.Err? ==> Some(r.error) == UintError(old(Here()), eager)
    {
      hide StackOk, Advance, Enough, HeadOf, ParseHead, ValueAt, LengthAt, Skip, Reduce, BeValue;
      hide Stream.Here, Stream.Lead;
      ghost var p, inp := Here(), input;
      HereIs();
      ValueByHead(p, Lead(), input, kind.value, size);
      var n := size;
      r := IntHeld();
      SmallInt(inp, n);
      if r.Ok? && n > 0 && r.value < 128 {
        r := Err(CanonSize);
      }
    }

    /** Reads the content as an integer. */
    method IntHeld() returns (r: Result<nat, Error>)
      requires Valid() && Held() && size <= 8
      modifies this
      ensures Valid()
      ensures r.Ok? <==>
              && old(size) <= |old(input)| && Enough(old(Here()).stack, old(Here()).limit, |old(Lead())| + old(size))
              && (old(size) >= 2 ==> old(input)[0] != 0) && !(eager && 2 <= old(size) == |old(input)|)
      ensures r.Ok? ==>
                && r.value == BeValue(old(input)[..old(size)]) && Allows(old(Here()), |old(Lead())| + old(size))
                && kind.None? && Here() == Skip(old(Here()), |old(Lead())| + old(size))
      ensures r.Err? ==>
                var e := ReadError(old(Here()), |old(Lead())|, old(size), eager && old(size) >= 2);
                Some(r.error) == if e.Some? then e else Some(CanonInt)
    {
      hide Refused, ReadError, StackOk, Advance, Enough, Allows, Skip, Reduce, BeValue, Stream.Here, Stream.Lead;
      HeldAll();
      ghost var p, lead, inp, st, lim := Here(), Lead(), input, stack, limit;
      var n := size;
      HeldError(n, eager && n >= 2);
      r := ReadUint(n);
      if r.Ok? {
        HeldSkip(p, lead, inp, st, lim, n);
        Unheld();
      } else if r.error.CanonSize? {
        r := Err(CanonInt);
      }
    }

    lemma HeldAll()
      requires Valid() && Held()
      ensures (stack != [] ==> |Lead()| <= stack[|stack| - 1].pos) && StackOk(stack)
      ensures Here() == Point(Lead() + input, Advance(stack, 0 - |Lead()|), Reduce(limit, 0 - |Lead()|))
      ensures forall n: nat :: Enough(stack, limit, n) <==> Enough(Here().stack, Here().limit, |Lead()| + n)
    {
      HeldParts(Here(), Lead(), input, stack, limit);
    }

    lemma HeldError(n: nat, cut: bool)
      requires Valid() && Held()
      ensures ReadError(Point(input, stack, limit), 0, n, cut) == ReadError(Here(), |Lead()|, n, cut)
    {
      hide StackOk, Advance, Enough, Refused, ReadError, Reduce, Stream.Here, Stream.Lead;
      HeldAll();
      HeldParts(Here(), Lead(), input, stack, limit);
    }

    lemma Unheld()
      requires kind.None? && |input| < TWO_64 && StackOk(stack) && kinderr != Some(EndOfList)
      ensures Valid() && Here() == Point(input, stack, limit)
    {
      NoLead(input, stack, limit);
    }
  }

  lemma HeldSkip(p: Point, lead: Bytes, input: Bytes, stack: seq<ListPos>, limit: Option<nat>, n: nat)
    requires StackOk(stack) && (stack != [] ==> |lead| <= stack[|stack| - 1].pos)
    requires p == Point(lead + input, Advance(stack, 0 - |lead|), Reduce(limit, 0 - |lead|))
    requires n <= |input| && (n == 0 || Enough(stack, limit, n))
    ensures Enough(stack, limit, n) && Enough(p.stack, p.limit, |lead| + n) && Allows(p, |lead| + n)
    ensures Skip(p, |lead| + n) == Point(input[n..], Advance(stack, n), Reduce(limit, n))
    ensures n == 0 ==> Point(input[n..], Advance(stack, n), Reduce(limit, n)) == Point(input, stack, limit)
  {
    HeldParts(p, lead, input, stack, limit);
    NoLead(input, stack, limit);
  }

  // ----- raw values and integers

  /** A header at p whose value is allowed and there. */
  ghost predicate RawAt(p: Point) {
    && ParseHead(p.ahead).Ok?
    && Enough(p.stack, p.limit, ParseHead(p.ahead).value.tag + ParseHead(p.ahead).value.size)
    && ParseHead(p.ahead).value.tag + ParseHead(p.ahead).value.size <= |p.ahead|
  }

  /** Its content is not empty and ends the input. */
  ghost predicate RawCut(p: Point) {
    RawAt(p) && ParseHead(p.ahead).value.size > 0 && RawLength(p) == |p.ahead|
  }

  lemma RawHeadAt(p: Point)
    requires RawAt(p)
    ensures !CutHead(p.ahead)
  {
    hide BeValue;
  }

  ghost function RawLength(p: Point): (n: nat)
    requires RawAt(p)
    ensures Allows(p, n)
  {
    ParseHead(p.ahead).value.tag + ParseHead(p.ahead).value.size
  }

  lemma RawByte(p: Point, b: byte)
    requires ValueAt(p) == Some(Str([b])) && ParseHead(p.ahead).Ok? && ParseHead(p.ahead).value.kind.Byte?
    ensures RawAt(p) && RawLength(p) == LengthAt(p) && p.ahead[..RawLength(p)] == [b]
  {
    hide ParseHead, Parse;
    HeadFirst(p);
    ParseByHead(p.ahead);
    HeadTag(p.ahead);
  }

  /** The header Raw puts in front of the content it has read. */
  method RawHead(kind: Kind, size: nat) returns (head: Bytes)
    requires !kind.Byte? && size < TWO_64
    ensures forall x :: head == HeadOf(kind, x, size)
  {
    hide Header;
    var start := HeadSize(size);
    var buf := new byte[start](_ => 0);
    if kind.String? {
      SameLength(0x80, 0xB7, size);
      start := PutHead(buf, 0, 0x80, 0xB7, size);
    } else {
      SameLength(0xC0, 0xF7, size);
      start := PutHead(buf, 0, 0xC0, 0xF7, size);
    }
    head := buf[..];
  }

  lemma SameLength(small: byte, large: byte, size: nat)
    ensures |Header(small, large, size)| == |Header(0, 0, size)|
  {
  }

  /** headsize. */
  method HeadSize(size: nat) returns (n: nat)
    ensures n == |Header(0, 0, size)|
  {
    if size < 56 {
      return 1;
    }
    n := IntSize(size);
    n := n + 1;
  }

  ghost predicate UintAt(p: Point) {
    ValueAt(p).Some? && ValueAt(p).value.Str? && CanonUint(ValueAt(p).value.bytes)
  }

  /** It has two bytes or more and ends the input; a single byte is not read in bulk. */
  ghost predicate UintCut(p: Point) {
    UintAt(p) && |ValueAt(p).value.bytes| >= 2 && LengthAt(p) == |p.ahead|
  }

  ghost predicate CanonUint(s: Bytes) {
    |s| <= 8 && (s != [] ==> s[0] != 0)
  }

  lemma SmallUint(s: Bytes)
    ensures s == [] ==> BeValue(s) == 0
    ensures |s| == 1 ==> BeValue(s) == s[0]
    ensures |s| >= 2 && s[0] != 0 ==> BeValue(s) >= 256
  {
    if |s| == 1 {
      BeValueOne(s[0]);
      assert s == [s[0]];
    } else if |s| >= 2 && s[0] != 0 {
      BigEndianBeValue(s);
      assert BeValue(s) < 256 ==> |BigEndian(BeValue(s))| == 1;
    }
  }

  lemma SmallInt(input: Bytes, n: nat)
    ensures n <= |input| ==>
              && (n == 1 ==> BeValue(input[..n]) == input[0])
              && (n >= 2 && input[0] != 0 ==> BeValue(input[..n]) >= 256)
  {
    hide BeValue;
    if n <= |input| {
      SmallUint(input[..n]);
    }
  }

  /** The integers the encoder writes are the ones Uint accepts, with the same value. */
  lemma UintRoundTrip(i: nat)
    requires i < TWO_64
    ensures var s := if i == 0 then [] else BigEndian(i);
            CanonUint(s) && BeValue(s) == i
  {
    BeValueBigEndian(i);
    Pow256At8();
    BigEndianLen(i, 8);
  }

  /** And every accepted form is the one the encoder writes. */
  lemma UintCanonical(s: Bytes)
    requires CanonUint(s)
    ensures var i := BeValue(s);
            i < TWO_64 && s == if i == 0 then [] else BigEndian(i)
  {
    if s != [] {
      BigEndianBeValue(s);
      BeValueBound(s);
      Pow256At8();
      BigEndianLen(BeValue(s), 8);
    }
  }

  // ----- lists

  /** A list header at p that fits the enclosing list, or the limit at top level. */
  ghost predicate ListHeadAt(p: Point, size: nat) {
    && ParseHead(p.ahead).Ok? && ParseHead(p.ahead).value.kind.Sequence? && ParseHead(p.ahead).value.size == size
    && Allows(p, ParseHead(p.ahead).value.tag)
    && StackOk(p.stack)
    && Enough(p.stack, if p.stack == [] then p.limit else None, ParseHead(p.ahead).value.tag + size)
  }

  /** The point behind a list header, with the list open. */
  ghost function Opened(p: Point, size: nat): Point
    requires ListHeadAt(p, size)
  {
    var q := Skip(p, ParseHead(p.ahead).value.tag);
    q.(stack := q.stack + [ListPos(0, size)])
  }

  lemma HeldList(p: Point, lead: Bytes, input: Bytes, stack: seq<ListPos>, limit: Option<nat>, size: nat)
    requires StackOk(stack) && (stack != [] ==> |lead| <= stack[|stack| - 1].pos)
    requires p == Point(lead + input, Advance(stack, 0 - |lead|), Reduce(limit, 0 - |lead|))
    requires ParseHead(p.ahead) == Ok(Head(Sequence, |lead|, size))
    requires Enough(stack, if stack == [] then limit else None, size)
    ensures ListHeadAt(p, size)
  {
    hide ParseHead;
    Rewind(stack, limit, |lead|);
  }

  lemma PopOk(stack: seq<ListPos>)
    requires StackOk(stack) && stack != []
    ensures StackOk(Advance(stack[..|stack| - 1], stack[|stack| - 1].size))
  {
  }

  lemma PushOk(stack: seq<ListPos>, limit: Option<nat>, size: nat)
    requires StackOk(stack) && size < TWO_64 && Enough(stack, if stack == [] then limit else None, size)
    ensures StackOk(stack + [ListPos(0, size)])
  {
  }

  /** items are the values of the list before offset p. */
  ghost predicate ListRest(q: Point, size: nat, items: seq<Item>, p: nat)
    requires p <= size
  {
    size <= |q.ahead| ==>
      ParseAll(q.ahead[..size]) ==
      if ParseAll(q.ahead[p..size]).None? then None else Some(items + ParseAll(q.ahead[p..size]).value)
  }

  lemma FirstElement(q: Point, size: nat)
    requires q.stack != [] && q.stack[|q.stack| - 1] == ListPos(0, size)
    ensures Allows(q, 0) && q == Skip(q, 0) && ListRest(q, size, [], 0)
  {
    hide ParseAll;
    NoLead(q.ahead, q.stack, q.limit);
    if size <= |q.ahead| {
      assert q.ahead[0..size] == q.ahead[..size];
      if ParseAll(q.ahead[..size]).Some? {
        assert [] + ParseAll(q.ahead[..size]).value == ParseAll(q.ahead[..size]).value;
      }
    }
  }

  /** The list is at its end exactly at offset size. */
  lemma AtPoint(q: Point, p: nat, size: nat)
    requires q.stack != [] && q.stack[|q.stack| - 1] == ListPos(0, size) && Allows(q, p)
    ensures Skip(q, p).stack != [] && Skip(q, p).stack[|q.stack| - 1] == ListPos(p, size)
    ensures |Skip(q, p).stack| == |q.stack| && |Skip(q, p).ahead| == |q.ahead| - p
  {
  }

  lemma LastElement(q: Point, size: nat, items: seq<Item>)
    requires Allows(q, size) && ListRest(q, size, items, size)
    ensures ParseAll(q.ahead[..size]) == Some(items)
  {
    assert q.ahead[size..size] == [] && items + [] == items;
  }

  lemma NextElement(q: Point, size: nat, items: seq<Item>, p: nat)
    requires q.stack != [] && q.stack[|q.stack| - 1] == ListPos(0, size) && Allows(q, p) && p <= size
    requires |q.ahead| < TWO_64 && ListRest(q, size, items, p) && ValueAt(Skip(q, p)).Some?
    ensures var n := LengthAt(Skip(q, p));
            && p + n <= size && Allows(q, p + n) && Skip(Skip(q, p), n) == Skip(q, p + n)
            && ListRest(q, size, items + [ValueAt(Skip(q, p)).value], p + n)
  {
    hide Parse;
    var here, n := Skip(q, p), LengthAt(Skip(q, p));
    assert here.ahead[n..] == q.ahead[p + n..];
    if size <= |q.ahead| {
      var part := q.ahead[p..size];
      ParseWithin(here.ahead, size - p);
      assert here.ahead[..size - p] == part;
      ParseRest(part);
      assert Parse(part).value.rest == part[n..] == q.ahead[p + n..size];
      if ParseAll(q.ahead[p + n..size]).Some? {
        var x, t := ValueAt(here).value, ParseAll(q.ahead[p + n..size]).value;
        assert items + ([x] + t) == (items + [x]) + t;
      }
    }
  }

  /** An element that fails makes the list fail: it is no value, or the input is cut off at its end. */
  lemma NoElement(q: Point, size: nat, items: seq<Item>, p: nat, eager: bool)
    requires q.stack != [] && q.stack[|q.stack| - 1] == ListPos(0, size) && Allows(q, p) && p < size
    requires |q.ahead| < TWO_64 && ListRest(q, size, items, p)
    requires ValueAt(Skip(q, p)).None? || (eager && Cut(Skip(q, p)))
    ensures !(Allows(q, size) && ParseAll(q.ahead[..size]).Some?) ||
            (eager && size == |q.ahead| && BulkAll(ParseAll(q.ahead[..size]).value))
  {
    hide Parse, Bulk;
    if Allows(q, size) && ParseAll(q.ahead[p..size]).Some? {
      var part := q.ahead[p..size];
      assert Skip(q, p).ahead == part + q.ahead[size..];
      ParseExtend(part, q.ahead[size..]);
      if eager && Cut(Skip(q, p)) {
        assert q.ahead[size..] == [] && part == Skip(q, p).ahead;
        var x := ValueAt(Skip(q, p)).value;
        OnlyOne(part, x);
        LastOne(items, x);
      }
    }
  }

  lemma OnlyOne(b: Bytes, x: Item)
    requires |b| < TWO_64 && b != [] && Parse(b) == Some(Parsed(x, []))
    ensures ParseAll(b) == Some([x])
  {
    hide Parse;
    assert [x] + [] == [x];
  }

  /** The last item ends with a bulk read. */
  ghost predicate BulkAll(items: seq<Item>) {
    items != [] && Bulk(items[|items| - 1])
  }

  lemma LastOne(items: seq<Item>, x: Item)
    ensures BulkAll(items + [x]) <==> Bulk(x)
  {
  }

  lemma CutElement(q: Point, p: nat, items: seq<Item>)
    requires Allows(q, p) && ValueAt(Skip(q, p)).Some?
    ensures p + LengthAt(Skip(q, p)) == |q.ahead| && BulkAll(items + [ValueAt(Skip(q, p)).value]) ==> Cut(Skip(q, p))
  {
    hide Bulk;
    LastOne(items, ValueAt(Skip(q, p)).value);
  }

  /** The value at a list header is the list of the values within its size. */
  lemma ListValue(p: Point, size: nat)
    requires ListHeadAt(p, size)
    ensures var q := Opened(p, size);
            && q.stack != [] && q.stack[|q.stack| - 1] == ListPos(0, size)
            && (ValueAt(p).Some? <==> Allows(q, size) && ParseAll(q.ahead[..size]).Some?)
            && (ValueAt(p).Some? ==> ValueAt(p) == Some(List(ParseAll(q.ahead[..size]).value)))
            && (ValueAt(p).Some? ==> (Cut(p) <==> size == |q.ahead| && BulkAll(ParseAll(q.ahead[..size]).value)))
  {
    hide ParseAll;
    var h := ParseHead(p.ahead).value;
    assert p.ahead == p.ahead[..h.tag] + p.ahead[h.tag..];
    ValueByHead(p, p.ahead[..h.tag], p.ahead[h.tag..], h.kind, h.size);
  }

  lemma NoElements(p: Point)
    requires ListHeadAt(p, 0)
    ensures var q := Opened(p, 0);
            && Allows(q, 0) && Skip(q, 0) == q && ParseAll(q.ahead[..0]) == Some([])
            && ValueAt(p) == Some(List([])) && !Cut(p)
  {
    hide ParseAll;
    var q := Opened(p, 0);
    ListValue(p, 0);
    NoLead(q.ahead, q.stack, q.limit);
    assert q.ahead[..0] == [] && ParseAll([]) == Some([]) by { ParseNone(); }
  }

  lemma ParseNone()
    ensures ParseAll([]) == Some([])
  {
  }

  /** Closing a list that was read to its end leaves the point behind the value. */
  lemma Closing(p: Point, size: nat)
    requires ListHeadAt(p, size) && Allows(Opened(p, size), size) && ValueAt(p).Some?
    ensures var q := Skip(Opened(p, size), size);
            && |q.stack| == |p.stack| + 1 && q.stack[|p.stack|] == ListPos(size, size)
            && Point(q.ahead, Advance(q.stack[..|p.stack|], size), q.limit) == Skip(p, LengthAt(p))
  {
    hide ParseAll;
    var h := ParseHead(p.ahead).value;
    HeadFirst(p);
    assert p.ahead[h.tag..][size..] == p.ahead[h.tag + size..];
  }

  /** What the header and the bytes behind it say about the value. */
  lemma ValueByHead(p: Point, lead: Bytes, input: Bytes, kind: Kind, size: nat)
    requires p.ahead == lead + input && ParseHead(p.ahead) == Ok(Head(kind, |lead|, size))
    ensures ValueAt(p).Some? <==>
            && size <= |input| && Enough(p.stack, p.limit, |lead| + size)
            && (kind.String? ==> !(size == 1 && input[0] < 0x80))
            && (kind.Sequence? ==> ParseAll(input[..size]).Some?)
    ensures ValueAt(p).Some? ==> Allows(p, |lead| + size) && LengthAt(p) == |lead| + size
    ensures ValueAt(p).Some? ==>
              ValueAt(p).value == match kind {
                case Byte => Str([p.ahead[0]])
                case String => Str(input[..size])
                case Sequence => List(ParseAll(input[..size]).value)
              }
  {
    hide ParseHead, Parse, ParseAll, Enough;
    ParseByHead(p.ahead);
    if size <= |input| {
      assert p.ahead[|lead|..|lead| + size] == input[..size];
    }
  }

  /** When the value is cut off, by its header. */
  lemma CutByHead(p: Point, lead: Bytes, input: Bytes, kind: Kind, size: nat)
    requires p.ahead == lead + input && ParseHead(p.ahead) == Ok(Head(kind, |lead|, size))
    ensures ValueAt(p).Some? && kind.Byte? ==> p.ahead[0] < 0x80 && !Cut(p)
    ensures ValueAt(p).Some? && kind.String? ==> (Cut(p) <==> 0 < size == |input|)
  {
    hide ValueAt, LengthAt, Enough, ParseAll;
    ValueByHead(p, lead, input, kind, size);
    if kind.Byte? {
      ByteHead(p.ahead);
    }
  }

  lemma ByteHead(b: Bytes)
    requires ParseHead(b).Ok? && ParseHead(b).value.kind.Byte?
    ensures b[0] < 0x80
  {
    hide BeValue;
  }

  lemma HeadOfSame(kind: Kind, x: byte, y: byte, size: nat)
    requires kind.Byte? ==> x == y
    ensures HeadOf(kind, x, size) == HeadOf(kind, y, size)
  {
  }

  lemma ReadNone(input: Bytes, stack: seq<ListPos>, limit: Option<nat>)
    requires StackOk(stack)
    ensures Enough(stack, limit, 0) && Advance(stack, 0) == stack && Reduce(limit, 0) == limit
    ensures input[0..] == input && input[..0] == [] && BeValue([]) == 0
  {
  }

  lemma NoLead(input: Bytes, stack: seq<ListPos>, limit: Option<nat>)
    ensures Point([] + input, Advance(stack, 0), Reduce(limit, 0)) == Point(input, stack, limit)
  {
  }

  /** Nothing is allowed at the end of a list. */
  lemma EndHasNone(p: Point)
    requires p.stack != [] && p.stack[|p.stack| - 1].pos == p.stack[|p.stack| - 1].size
    ensures forall h :: !HeadAt(p, h)
  {
    hide ParseHead;
  }

  lemma NoHead(p: Point)
    requires !(ParseHead(p.ahead).Ok? && Enough(p.stack, p.limit, ParseHead(p.ahead).value.tag))
    ensures forall h :: !HeadAt(p, h)
  {
    hide ParseHead;
  }

  /** The state of a stream that has consumed the header at p. */
  lemma HeldPoint(p: Point, lead: Bytes, size: nat, input: Bytes, stack: seq<ListPos>, limit: Option<nat>)
    requires StackOk(p.stack) && |lead| <= |p.ahead| && lead == p.ahead[..|lead|] && input == p.ahead[|lead|..]
    requires Enough(p.stack, p.limit, |lead|) && stack == Advance(p.stack, |lead|) && limit == Reduce(p.limit, |lead|)
    ensures (stack == [] <==> p.stack == []) && (stack != [] ==> |lead| <= stack[|stack| - 1].pos)
    ensures Point(lead + input, Advance(stack, 0 - |lead|), Reduce(limit, 0 - |lead|)) == p
    ensures Enough(p.stack, p.limit, |lead| + size) ==> Enough(stack, if stack == [] then limit else None, size)
    ensures Refused(p.stack, if p.stack == [] then p.limit else None, |lead| + size) ==
            Refused(stack, if stack == [] then limit else None, size)
  {
  }

  /** And back: what such a stream still has and may still read. */
  lemma HeldParts(p: Point, lead: Bytes, input: Bytes, stack: seq<ListPos>, limit: Option<nat>)
    requires StackOk(stack) && (stack != [] ==> |lead| <= stack[|stack| - 1].pos)
    requires p == Point(lead + input, Advance(stack, 0 - |lead|), Reduce(limit, 0 - |lead|))
    ensures Enough(stack, limit, 0)
    ensures forall n: nat :: Enough(stack, limit, n) <==> Enough(p.stack, p.limit, |lead| + n)
    ensures forall n: nat, cut :: ReadError(Point(input, stack, limit), 0, n, cut) == ReadError(p, |lead|, n, cut)
    ensures forall n: nat :: n <= |input| && Enough(stack, limit, n) ==>
              Allows(p, |lead| + n) && Skip(p, |lead| + n) == Point(input[n..], Advance(stack, n), Reduce(limit, n))
    ensures forall n: nat :: n <= |input| ==> p.ahead[|lead|..|lead| + n] == input[..n]
  {
  }

  /** A value starts with an allowed header, which tells its length. */
  lemma HeadFirst(p: Point)
    ensures ValueAt(p).Some? ==>
              && ParseHead(p.ahead).Ok? && HeadAt(p, ParseHead(p.ahead).value) && !CutHead(p.ahead)
              && LengthAt(p) == ParseHead(p.ahead).value.tag + ParseHead(p.ahead).value.size
  {
    hide ParseHead, Parse, ParseAll;
    ParseByHead(p.ahead);
    if ValueAt(p).Some? {
      RawHeadAt(p);
    }
  }

  // ----- the end of the input

  /** Over the encoding of any value, a reader that reports the end with its last bytes makes
      decoding fail exactly when the value ends with a bulk read; any other reader never does. */
  lemma EagerExact(v: Item)
    requires |Encode(v)| < TWO_64
    ensures var p := Point(Encode(v), [], None);
            ValueAt(p) == Some(v) && (Cut(p) <==> Bulk(v))
  {
    hide Encode, Parse, Bulk;
    ParseEncode(v, []);
    assert Encode(v) + [] == Encode(v);
  }

  /** A failing input: the two-byte string 0x01 0x02. */
  lemma EagerFails()
    ensures Encode(Str([1, 2])) == [0x82, 1, 2] && Cut(Point([0x82, 1, 2], [], None))
  {
    assert Encode(Str([1, 2])) == [0x82, 1, 2];
    EagerExact(Str([1, 2]));
  }

  /** A Read that returns data together with the end: the reader over an encoding buffer, read in one piece. (It has
      no ReadByte, so a stream would buffer it.) */
  method EncReaderIsEager(eb: EncBuf, b: array<byte>) returns (n: nat, eof: bool)
    requires eb.Closed() && b.Length == |eb.Output()| > 0
    modifies b
    ensures n == b.Length && eof
  {
    hide EncBuf.Closed, Merge, Ordered;
    var r := new EncReader(eb);
    n, eof := r.Read(b);
  }

  /** Decodes exactly one value: the accepted inputs are the encodings, each read as the value it encodes. */
  method DecodeBytes(b: Bytes) returns (r: Result<Item, Error>)
    requires |b| < TWO_64
    ensures r.Ok? ==> Encode(r.value) == b
    ensures forall v :: Encode(v) == b ==> r == Ok(v)
    ensures r.Ok? <==> Parse(b).Some? && Parse(b).value.rest == []
    ensures Parse(b).Some? && Parse(b).value.rest != [] ==> r == Err(MoreThanOneValue)
    ensures r == Err(EOF) <==> b == []
  {
    hide Encode, Parse, Advance, Reduce;
    ghost var p := Point(b, [], Some(|b|));
    var s := new Stream(b, Some(|b|), false);
    r := s.DecodeInterface();
    WholeValue(p);
    forall v | Encode(v) == b ensures Parse(b) == Some(Parsed(v, [])) {
      ParseEncode(v, []);
      assert Encode(v) + [] == b;
    }
    if r.Ok? {
      s.Unheld();
      if |s.input| > 0 {
        r := Err(MoreThanOneValue);
      }
    }
  }

  lemma WholeValue(p: Point)
    requires p.stack == [] && p.limit == Some(|p.ahead|)
    ensures ValueAt(p).Some? <==> Parse(p.ahead).Some?
    ensures Parse(p.ahead).Some? ==>
              && ValueAt(p) == Some(Parse(p.ahead).value.item)
              && Skip(p, LengthAt(p)).ahead == Parse(p.ahead).value.rest
              && p.ahead == Encode(Parse(p.ahead).value.item) + Parse(p.ahead).value.rest
  {
    hide Encode, Parse;
    if Parse(p.ahead).Some? {
      ParseCanonical(p.ahead);
      ParseRest(p.ahead);
    }
  }
}
