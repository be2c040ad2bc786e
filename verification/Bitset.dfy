/** Sparse bitset compression (common/bitutil/compress.go). */
module Bitset {
  import opened Common
  import opened Bits

  type Block = seq<bv8>

  datatype Error = MissingData | UnreferencedData | ExceededTarget | ZeroContent

  datatype Decoded = Decoded(out: Block, size: nat)

  // ----- the format

  predicate AllZero(d: Block) {
    forall i | 0 <= i < |d| :: d[i] == 0
  }

  function NonZero(d: Block): Block {
    if d == [] then [] else NonZero(d[..|d| - 1]) + if d[|d| - 1] != 0 then [d[|d| - 1]] else []
  }

  /** One bit per byte of d, set for the bytes that are not zero. */
  ghost predicate IsBitset(d: Block, bs: Block) {
    |bs| == (|d| + 7) / 8 && forall i | 0 <= i < 8 * |bs| :: BitAt(bs, i) <==> i < |d| && d[i] != 0
  }

  /** The contribution of byte i to its byte of the bitset. */
  function Flag(d: Block, i: nat, k: nat): bv8
    requires k < 8
  {
    if i + k < |d| && d[i + k] != 0 then Mask(k) else 0
  }

  function BitsetByte(d: Block, i: nat): bv8 {
    Flag(d, i, 0) | Flag(d, i, 1) | Flag(d, i, 2) | Flag(d, i, 3) |
    Flag(d, i, 4) | Flag(d, i, 5) | Flag(d, i, 6) | Flag(d, i, 7)
  }

  function BitsetOf(d: Block): (bs: Block)
    ensures |bs| == (|d| + 7) / 8
  {
    seq((|d| + 7) / 8, j requires 0 <= j => BitsetByte(d, 8 * j))
  }

  /** The compressed form: nothing for zeros, else the compressed bitset and the non-zero bytes. */
  function Encoded(d: Block): Block
    decreases |d|
  {
    if AllZero(d) then []
    else if |d| == 1 then d
    else Encoded(BitsetOf(d)) + NonZero(d)
  }

  lemma FlagBit(d: Block, i: nat, k: nat, j: nat)
    requires k < 8 && j < 8
    ensures Bit(Flag(d, i, k), j) <==> j == k && i + k < |d| && d[i + k] != 0
  {
    NoBits(j);
    SetBit(0, k, j);
    assert 0 | Mask(k) == Mask(k);
  }

  lemma BitsetByteBit(d: Block, i: nat, j: nat)
    requires j < 8
    ensures Bit(BitsetByte(d, i), j) <==> i + j < |d| && d[i + j] != 0
  {
    hide Flag;
    var f0, f1, f2, f3, f4 := Flag(d, i, 0), Flag(d, i, 1), Flag(d, i, 2), Flag(d, i, 3), Flag(d, i, 4);
    var f5, f6, f7 := Flag(d, i, 5), Flag(d, i, 6), Flag(d, i, 7);
    SetBit0(f0, f1, j);
    SetBit0(f0 | f1, f2, j);
    SetBit0(f0 | f1 | f2, f3, j);
    SetBit0(f0 | f1 | f2 | f3, f4, j);
    SetBit0(f0 | f1 | f2 | f3 | f4, f5, j);
    SetBit0(f0 | f1 | f2 | f3 | f4 | f5, f6, j);
    SetBit0(f0 | f1 | f2 | f3 | f4 | f5 | f6, f7, j);
    forall k | 0 <= k < 8 ensures Bit(Flag(d, i, k), j) <==> j == k && i + k < |d| && d[i + k] != 0 {
      FlagBit(d, i, k, j);
    }
  }

  lemma BitsetIs(d: Block)
    ensures IsBitset(d, BitsetOf(d))
  {
    hide BitsetByte;
    var bs := BitsetOf(d);
    forall i | 0 <= i < 8 * |bs| ensures BitAt(bs, i) <==> i < |d| && d[i] != 0 {
      BitsetByteBit(d, 8 * (i / 8), i % 8);
    }
  }

  lemma BitsetUnique(d: Block, bs: Block)
    requires IsBitset(d, bs)
    ensures bs == BitsetOf(d)
  {
    hide BitsetOf;
    BitsetIs(d);
    SameVector(bs, BitsetOf(d));
  }

  lemma BitsetZero(d: Block)
    ensures AllZero(BitsetOf(d)) <==> AllZero(d)
  {
    hide BitsetOf, Bit;
    var bs := BitsetOf(d);
    BitsetIs(d);
    if AllZero(bs) {
      forall i | 0 <= i < |d| ensures d[i] == 0 {
        NoBits(i % 8);
        assert !BitAt(bs, i);
      }
    }
    if AllZero(d) {
      forall j | 0 <= j < |bs| ensures bs[j] == 0 {
        forall k | 0 <= k < 8 ensures Bit(bs[j], k) == Bit(0, k) {
          assert !BitAt(bs, 8 * j + k);
          NoBits(k);
        }
        SameBits(bs[j], 0);
      }
    }
  }

  lemma {:induction false} NonZeroNone(d: Block)
    ensures NonZero(d) == [] <==> AllZero(d)
  {
    if d != [] {
      NonZeroNone(d[..|d| - 1]);
    }
  }

  // ----- encoding

  /** bitsetEncodeBytes. */
  method EncodeBytes(data: Block) returns (out: Block)
    ensures out == Encoded(data)
    decreases |data|
  {
    hide BitsetOf, Bit;
    if |data| == 0 {
      return [];
    }
    if |data| == 1 {
      return if data[0] == 0 then [] else data;
    }
    var bitset, bytes := Collect(data);
    BitsetUnique(data, bitset);
    NonZeroNone(data);
    if |bytes| == 0 {
      return [];
    }
    var head := EncodeBytes(bitset);
    out := head + bytes;
  }

  /** The loop over the data: the bitset in place, the non-zero bytes appended. */
  method Collect(data: Block) returns (bitset: Block, bytes: Block)
    ensures IsBitset(data, bitset) && bytes == NonZero(data)
  {
    hide BitAt, Mask, NonZero;
    var bits := new bv8[(|data| + 7) / 8](_ => 0);
    bytes := [];
    var i := 0;
    EmptyVector(bits[..]);
    NonZeroNone([]);
    assert data[..0] == [];
    while i < |data|
      invariant 0 <= i <= |data| && bytes == NonZero(data[..i])
      invariant forall x | 0 <= x < 8 * bits.Length :: BitAt(bits[..], x) <==> x < i && data[x] != 0
    {
      NonZeroSnoc(data, i);
      if data[i] != 0 {
        bytes := bytes + [data[i]];
        ghost var mid := bits[..];
        SetAt(mid, i);
        bits[i / 8] := bits[i / 8] | Mask(i % 8);
        assert bits[..] == mid[i / 8 := mid[i / 8] | Mask(i % 8)];
      }
      i := i + 1;
    }
    assert data[..i] == data;
    bitset := bits[..];
  }

  lemma EmptyVector(bs: Block)
    requires AllZero(bs)
    ensures forall x | 0 <= x < 8 * |bs| :: !BitAt(bs, x)
  {
    forall x | 0 <= x < 8 * |bs| ensures !BitAt(bs, x) {
      NoBits(x % 8);
    }
  }

  /** Setting one bit of a vector. */
  lemma SetAt(bs: Block, i: nat)
    requires i < 8 * |bs|
    ensures var bs' := bs[i / 8 := bs[i / 8] | Mask(i % 8)];
            forall x | 0 <= x < 8 * |bs| :: BitAt(bs', x) <==> x == i || BitAt(bs, x)
  {
    hide Bit, Mask;
    var bs' := bs[i / 8 := bs[i / 8] | Mask(i % 8)];
    forall x | 0 <= x < 8 * |bs| ensures BitAt(bs', x) <==> x == i || BitAt(bs, x) {
      if x / 8 == i / 8 {
        SetBit(bs[i / 8], i % 8, x % 8);
      }
    }
  }

  /** CompressBytes: compression only where it helps. */
  method CompressBytes(data: Block) returns (out: Block)
    ensures out == Compressed(data)
  {
    out := EncodeBytes(data);
    if |out| >= |data| {
      out := data;
    }
  }

  ghost function Compressed(d: Block): Block {
    if |Encoded(d)| < |d| then Encoded(d) else d
  }

  // ----- decoding

  /** The bytes of the output from position i on, taken from data where the bitset says so. */
  function Spread(bs: Block, data: Block, ptr: nat, target: nat, i: nat): (r: Result<Decoded, Error>)
    requires i <= 8 * |bs|
    ensures r.Ok? && target <= 8 * |bs| ==> |r.value.out| == if i < target then target - i else 0
    decreases 8 * |bs| - i
  {
    if i == 8 * |bs| then Ok(Decoded([], ptr))
    else if BitAt(bs, i) then
      if ptr >= |data| then Err(MissingData)
      else if i >= target then Err(ExceededTarget)
      else if data[ptr] == 0 then Err(ZeroContent)
      else Prefixed([data[ptr]], Spread(bs, data, ptr + 1, target, i + 1))
    else Prefixed(if i < target then [0] else [], Spread(bs, data, ptr, target, i + 1))
  }

  function Prefixed(front: Block, r: Result<Decoded, Error>): Result<Decoded, Error> {
    match r
    case Err(e) => Err(e)
    case Ok(d) => Ok(Decoded(front + d.out, d.size))
  }

  function Zeros(n: nat): (z: Block)
    ensures |z| == n && AllZero(z)
  {
    seq(n, _ => 0)
  }

  /** The output of the given size and how much of data it took. */
  function Decode(data: Block, target: nat): (r: Result<Decoded, Error>)
    ensures r.Ok? ==> |r.value.out| == target
    decreases target
  {
    if target == 0 then Ok(Decoded([], 0))
    else if data == [] then Ok(Decoded(Zeros(target), 0))
    else if target == 1 then Ok(Decoded([data[0]], if data[0] != 0 then 1 else 0))
    else match Decode(data, (target + 7) / 8)
      case Err(e) => Err(e)
      case Ok(b) => Spread(b.out, data, b.size, target, 0)
  }

  /** bitsetDecodePartialBytes. */
  method DecodePartial(data: Block, target: nat) returns (r: Result<Decoded, Error>)
    ensures r == Decode(data, target)
    decreases target
  {
    if target == 0 {
      return Ok(Decoded([], 0));
    }
    if |data| == 0 {
      return Ok(Decoded(Zeros(target), 0));
    }
    if target == 1 {
      return Ok(Decoded([data[0]], if data[0] != 0 then 1 else 0));
    }
    var b := DecodePartial(data, (target + 7) / 8);
    if b.Err? {
      return b;
    }
    r := Distribute(b.value.out, data, b.value.size, target);
  }

  /** The loop over the bits. */
  method Distribute(bs: Block, data: Block, start: nat, target: nat) returns (r: Result<Decoded, Error>)
    requires target <= 8 * |bs|
    ensures r == Spread(bs, data, start, target, 0)
  {
    hide Bit, BitAt;
    var decomp := new bv8[target](_ => 0);
    var ptr: nat, i := start, 0;
    ghost var done: Block := [];
    PrefixNone(Spread(bs, data, ptr, target, 0));
    while i < 8 * |bs|
      invariant 0 <= i <= 8 * |bs| && |done| == if i < target then i else target
      invariant decomp[..|done|] == done && forall x | |done| <= x < target :: decomp[x] == 0
      invariant Spread(bs, data, start, target, 0) == Prefixed(done, Spread(bs, data, ptr, target, i))
    {
      ghost var rest := Spread(bs, data, ptr, target, i);
      if BitAt(bs, i) {
        if ptr >= |data| {
          return Err(MissingData);
        }
        if i >= target {
          return Err(ExceededTarget);
        }
        if data[ptr] == 0 {
          return Err(ZeroContent);
        }
        PrefixTwice(done, [data[ptr]], Spread(bs, data, ptr + 1, target, i + 1));
        decomp[i] := data[ptr];
        done := done + [data[ptr]];
        ptr := ptr + 1;
      } else {
        ghost var zero: Block := if i < target then [0] else [];
        PrefixTwice(done, zero, Spread(bs, data, ptr, target, i + 1));
        done := done + zero;
      }
      i := i + 1;
    }
    assert done + [] == done && decomp[..] == done;
    return Ok(Decoded(decomp[..], ptr));
  }

  lemma PrefixNone(r: Result<Decoded, Error>)
    ensures Prefixed([], r) == r
  {
    if r.Ok? {
      assert [] + r.value.out == r.value.out;
    }
  }

  lemma PrefixTwice(a: Block, b: Block, r: Result<Decoded, Error>)
    ensures Prefixed(a, Prefixed(b, r)) == Prefixed(a + b, r)
  {
    if r.Ok? {
      assert a + (b + r.value.out) == a + b + r.value.out;
    }
  }

  /** bitsetDecodeBytes: all of the input must be used. */
  method DecodeBytes(data: Block, target: nat) returns (r: Result<Block, Error>)
    ensures r == DecodedAll(data, target)
  {
    var d := DecodePartial(data, target);
    if d.Err? {
      return Err(d.error);
    }
    return if d.value.size != |data| then Err(UnreferencedData) else Ok(d.value.out);
  }

  ghost function DecodedAll(data: Block, target: nat): Result<Block, Error> {
    match Decode(data, target)
    case Err(e) => Err(e)
    case Ok(d) => if d.size != |data| then Err(UnreferencedData) else Ok(d.out)
  }

  /** DecompressBytes: input of the target size is not compressed. */
  method DecompressBytes(data: Block, target: nat) returns (r: Result<Block, Error>)
    ensures r == Decompressed(data, target)
  {
    if |data| > target {
      return Err(ExceededTarget);
    }
    if |data| == target {
      return Ok(data);
    }
    r := DecodeBytes(data, target);
  }

  ghost function Decompressed(data: Block, target: nat): Result<Block, Error> {
    if |data| > target then Err(ExceededTarget) else if |data| == target then Ok(data) else DecodedAll(data, target)
  }

  // ----- decoding inverts encoding

  /** The non-zero bytes of d from position i on. */
  function NonZeroFrom(d: Block, i: nat): Block
    requires i <= |d|
    decreases |d| - i
  {
    if i == |d| then [] else (if d[i] != 0 then [d[i]] else []) + NonZeroFrom(d, i + 1)
  }

  lemma {:induction false} NonZeroSplit(d: Block, i: nat)
    requires i <= |d|
    ensures NonZero(d) == NonZero(d[..i]) + NonZeroFrom(d, i)
    decreases |d| - i
  {
    hide NonZero;
    if i == |d| {
      assert d[..i] == d;
    } else {
      NonZeroSplit(d, i + 1);
      NonZeroSnoc(d, i);
      Regroup(NonZero(d[..i]), if d[i] != 0 then [d[i]] else [], NonZeroFrom(d, i + 1));
    }
  }

  lemma NonZeroSnoc(d: Block, i: nat)
    requires i < |d|
    ensures NonZero(d[..i + 1]) == NonZero(d[..i]) + if d[i] != 0 then [d[i]] else []
  {
    assert d[..i + 1][..i] == d[..i];
  }

  lemma Regroup(a: Block, b: Block, c: Block)
    ensures (a + b) + c == a + (b + c)
  {
  }

  lemma {:induction false} SpreadNonZero(d: Block, bs: Block, data: Block, ptr: nat, i: nat)
    requires IsBitset(d, bs) && i <= 8 * |bs| && ptr <= |data|
    requires i <= |d| ==> NonZeroFrom(d, i) <= data[ptr..]
    ensures Spread(bs, data, ptr, |d|, i) ==
            if i < |d| then Ok(Decoded(d[i..], ptr + |NonZeroFrom(d, i)|)) else Ok(Decoded([], ptr))
    decreases 8 * |bs| - i
  {
    hide BitAt;
    if i < 8 * |bs| {
      if i < |d| && d[i] != 0 {
        var rest := NonZeroFrom(d, i + 1);
        assert data[ptr..][0] == d[i] && data[ptr..][1..] == data[ptr + 1..];
        assert ([d[i]] + rest)[1..] == rest && rest <= data[ptr + 1..];
        SpreadNonZero(d, bs, data, ptr + 1, i + 1);
      } else {
        SpreadNonZero(d, bs, data, ptr, i + 1);
      }
      if i < |d| {
        assert d[i..] == [d[i]] + d[i + 1..];
      }
    }
  }

  /** A block that is not all zero is decoded from its encoding, whatever follows. */
  lemma {:induction false} DecodeEncoded(d: Block, rest: Block)
    requires !AllZero(d)
    ensures Decode(Encoded(d) + rest, |d|) == Ok(Decoded(d, |Encoded(d)|))
    decreases |d|
  {
    hide BitsetOf, Spread, NonZero;
    if |d| > 1 {
      BitsetZero(d);
      DecodeEncoded(BitsetOf(d), NonZero(d) + rest);
      DecodeStep(d, rest);
    } else {
      assert d == [d[0]];
    }
  }

  lemma DecodeStep(d: Block, rest: Block)
    requires !AllZero(d) && |d| > 1
    requires var bs := BitsetOf(d);
             Decode(Encoded(bs) + (NonZero(d) + rest), |bs|) == Ok(Decoded(bs, |Encoded(bs)|))
    ensures Decode(Encoded(d) + rest, |d|) == Ok(Decoded(d, |Encoded(d)|))
  {
    hide BitsetOf, Spread, NonZero, NonZeroFrom, IsBitset, AllZero;
    var bs, nz := BitsetOf(d), NonZero(d);
    var head := Encoded(bs);
    Regroup(head, nz, rest);
    var data := head + (nz + rest);
    assert data[|head|..] == nz + rest;
    assert nz == NonZeroFrom(d, 0) && nz != [] by { NonZeroAll(d); }
    BitsetIs(d);
    SpreadNonZero(d, bs, data, |head|, 0);
    assert d[0..] == d;
  }

  lemma NonZeroAll(d: Block)
    ensures NonZero(d) == NonZeroFrom(d, 0) && (NonZero(d) == [] <==> AllZero(d))
  {
    hide NonZeroFrom;
    NonZeroNone(d);
    NonZeroSplit(d, 0);
    assert d[..0] == [] && NonZero([]) == [];
    assert [] + NonZeroFrom(d, 0) == NonZeroFrom(d, 0);
  }

  /** Decoding inverts encoding on every block. */
  lemma RoundTrip(d: Block)
    ensures DecodedAll(Encoded(d), |d|) == Ok(d)
  {
    hide BitsetOf, Spread;
    if AllZero(d) {
      assert Zeros(|d|) == d;
    } else {
      DecodeEncoded(d, []);
      assert Encoded(d) + [] == Encoded(d);
    }
  }

  /** Decompression inverts compression on every block. */
  lemma DecompressCompressed(d: Block)
    ensures Decompressed(Compressed(d), |d|) == Ok(d)
  {
    hide Encoded, Decode;
    RoundTrip(d);
  }

  // ----- what decoding refuses

  /** The number of set bits before position i. */
  ghost function Rank(bs: Block, i: nat): nat
    requires i <= 8 * |bs|
  {
    if i == 0 then 0 else Rank(bs, i - 1) + if BitAt(bs, i - 1) then 1 else 0
  }

  /** What is wrong with the byte for bit x: it is not there, has no place in the output, or is zero. */
  ghost function Fault(bs: Block, data: Block, start: nat, target: nat, x: nat): Option<Error>
    requires x < 8 * |bs|
  {
    if !BitAt(bs, x) then None
    else if start + Rank(bs, x) >= |data| then Some(MissingData)
    else if x >= target then Some(ExceededTarget)
    else if data[start + Rank(bs, x)] == 0 then Some(ZeroContent)
    else None
  }

  /** e is the first fault from bit i on. */
  ghost predicate FirstFault(bs: Block, data: Block, start: nat, target: nat, i: nat, e: Error) {
    exists x :: i <= x < 8 * |bs| && Fault(bs, data, start, target, x) == Some(e) &&
      forall y | i <= y < x :: Fault(bs, data, start, target, y).None?
  }

  /** Distributing the bytes fails with the first fault. */
  lemma {:induction false} SpreadFault(bs: Block, data: Block, start: nat, target: nat, i: nat, e: Error)
    requires i <= 8 * |bs|
    ensures Spread(bs, data, start + Rank(bs, i), target, i) == Err(e) <==> FirstFault(bs, data, start, target, i, e)
    decreases 8 * |bs| - i
  {
    hide BitAt, FirstFault;
    if i == 8 * |bs| {
      NoFaults(bs, data, start, target, e);
    } else {
      FaultStep(bs, data, start, target, i, e);
      SpreadFault(bs, data, start, target, i + 1, e);
    }
  }

  lemma NoFaults(bs: Block, data: Block, start: nat, target: nat, e: Error)
    ensures !FirstFault(bs, data, start, target, 8 * |bs|, e)
  {
  }

  lemma FaultStep(bs: Block, data: Block, start: nat, target: nat, i: nat, e: Error)
    requires i < 8 * |bs|
    ensures FirstFault(bs, data, start, target, i, e) <==>
            var f := Fault(bs, data, start, target, i);
            if f.Some? then f == Some(e) else FirstFault(bs, data, start, target, i + 1, e)
  {
    hide Fault;
    if Fault(bs, data, start, target, i).None? && FirstFault(bs, data, start, target, i + 1, e) {
      var x :| i + 1 <= x < 8 * |bs| && Fault(bs, data, start, target, x) == Some(e) &&
        forall y | i + 1 <= y < x :: Fault(bs, data, start, target, y).None?;
      assert forall y | i <= y < x :: Fault(bs, data, start, target, y).None?;
    }
  }

  lemma SpreadFails(bs: Block, data: Block, start: nat, target: nat, e: Error)
    ensures Spread(bs, data, start, target, 0) == Err(e) <==> FirstFault(bs, data, start, target, 0, e)
  {
    hide BitAt, FirstFault, Spread;
    SpreadFault(bs, data, start, target, 0, e);
  }

  lemma DecodeUnfold(data: Block, target: nat)
    ensures data == [] || target < 2 ==> Decode(data, target).Ok?
    ensures data != [] && target >= 2 ==>
              var b := Decode(data, (target + 7) / 8);
              Decode(data, target) == if b.Err? then b else Spread(b.value.out, data, b.value.size, target, 0)
  {
    hide Spread;
  }

  /** Decoding fails with the error of the bitset or, if that decodes, with the first fault of the bytes. */
  lemma DecodeErrors(data: Block, target: nat, e: Error)
    ensures Decode(data, target) == Err(e) <==>
            && data != [] && target >= 2
            && var b := Decode(data, (target + 7) / 8);
               if b.Err? then b.error == e else FirstFault(b.value.out, data, b.value.size, target, 0, e)
  {
    hide *;
    DecodeUnfold(data, target);
    var b := Decode(data, (target + 7) / 8);
    if b.Ok? {
      SpreadFails(b.value.out, data, b.value.size, target, e);
    }
  }

  // ----- and only encodings are decoded

  /** The output matches the bits from position i on. */
  ghost predicate Matches(bs: Block, i: nat, out: Block) {
    forall x | i <= x < 8 * |bs| :: BitAt(bs, x) <==> x - i < |out| && out[x - i] != 0
  }

  lemma {:induction false} SpreadInverse(bs: Block, data: Block, ptr: nat, target: nat, i: nat)
    requires i <= 8 * |bs| && target <= 8 * |bs| && ptr <= |data| && Spread(bs, data, ptr, target, i).Ok?
    ensures var r := Spread(bs, data, ptr, target, i).value;
            ptr <= r.size <= |data| && data[ptr..r.size] == NonZero(r.out) && Matches(bs, i, r.out)
    decreases 8 * |bs| - i
  {
    hide BitAt, Matches, NonZero;
    if i == 8 * |bs| {
      MatchesNone(bs);
      NonZeroNone([]);
    } else {
      var here := BitAt(bs, i);
      var next := if here then ptr + 1 else ptr;
      SpreadInverse(bs, data, next, target, i + 1);
      var t := Spread(bs, data, next, target, i + 1).value;
      if i < target {
        var b := if here then data[ptr] else 0;
        NonZeroFront([b] + t.out);
        assert ([b] + t.out)[1..] == t.out;
        MatchesStep(bs, i, b, t.out);
        if here {
          assert data[ptr..t.size] == [data[ptr]] + data[next..t.size];
        }
      } else {
        assert [] + t.out == t.out == [];
        MatchesPast(bs, i);
      }
    }
  }

  lemma MatchesNone(bs: Block)
    ensures Matches(bs, 8 * |bs|, [])
  {
  }

  lemma MatchesStep(bs: Block, i: nat, b: bv8, out: Block)
    requires i < 8 * |bs| && Matches(bs, i + 1, out) && (BitAt(bs, i) <==> b != 0)
    ensures Matches(bs, i, [b] + out)
  {
    hide BitAt;
    var all := [b] + out;
    forall x | i <= x < 8 * |bs| ensures BitAt(bs, x) <==> x - i < |all| && all[x - i] != 0 {
      assert x > i && x - i < |all| ==> all[x - i] == out[x - (i + 1)];
    }
  }

  lemma MatchesPast(bs: Block, i: nat)
    requires i < 8 * |bs| && Matches(bs, i + 1, []) && !BitAt(bs, i)
    ensures Matches(bs, i, [])
  {
    hide BitAt;
  }

  lemma {:induction false} NonZeroFront(d: Block)
    requires d != []
    ensures NonZero(d) == (if d[0] != 0 then [d[0]] else []) + NonZero(d[1..])
    decreases |d|
  {
    if |d| > 1 {
      NonZeroFront(d[..|d| - 1]);
      assert d[1..][..|d| - 2] == d[..|d| - 1][1..];
    }
  }

  /** What is decoded encodes to the input it took. */
  lemma {:induction false} EncodeDecoded(data: Block, target: nat)
    requires Decode(data, target).Ok?
    ensures var r := Decode(data, target).value;
            r.size <= |data| && Encoded(r.out) == data[..r.size]
    decreases target
  {
    hide Spread, BitsetOf, NonZero;
    if target > 1 && data != [] {
      EncodeDecoded(data, (target + 7) / 8);
      var b := Decode(data, (target + 7) / 8).value;
      SpreadInverse(b.out, data, b.size, target, 0);
      var r := Decode(data, target).value;
      assert IsBitset(r.out, b.out);
      BitsetUnique(r.out, b.out);
      BitsetZero(r.out);
      NonZeroNone(r.out);
      assert data[..r.size] == data[..b.size] + data[b.size..r.size];
    } else if target == 1 && data != [] {
      assert data[..1] == [data[0]];
    }
  }

  /** Every accepted input is the encoding of its output. */
  lemma OnlyEncodings(data: Block, target: nat)
    requires DecodedAll(data, target).Ok?
    ensures |DecodedAll(data, target).value| == target && Encoded(DecodedAll(data, target).value) == data
  {
    hide Encoded, Decode;
    EncodeDecoded(data, target);
    assert data[..|data|] == data;
  }

  /** Accepted input is the compressed form of its output, unless it was kept as it is although it compresses. */
  lemma OnlyCompressed(data: Block, target: nat)
    requires Decompressed(data, target).Ok?
    ensures |Decompressed(data, target).value| == target
    ensures Compressed(Decompressed(data, target).value) == data <==> |data| < target || |Encoded(data)| >= |data|
  {
    hide Encoded, Decode;
    if |data| < target {
      OnlyEncodings(data, target);
    }
  }
}
