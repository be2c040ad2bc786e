/** Jump destination analysis (core/vm/analysis.go): a bit per code byte that is push data. */
module JumpAnalysis {
  import opened Common
  import opened Bits

  const PUSH1: byte := 0x60
  const PUSH32: byte := 0x7f
  const JUMPDEST: byte := 0x5b

  // ----- the specification: section 9.4.3 of the Yellow Paper

  /** The number of data bytes behind an opcode. */
  function Args(op: byte): nat {
    if PUSH1 <= op <= PUSH32 then op - PUSH1 + 1 else 0
  }

  function Next(code: Bytes, pc: nat): nat
    requires pc < |code|
  {
    pc + 1 + Args(code[pc])
  }

  /** The sequential scan from pc comes to i as an instruction. */
  ghost predicate Opcode(code: Bytes, pc: nat, i: nat)
    decreases |code| - pc
  {
    pc < |code| && (i == pc || Opcode(code, Next(code, pc), i))
  }

  ghost predicate ValidDest(code: Bytes, dest: nat) {
    dest < |code| && code[dest] == JUMPDEST && Opcode(code, 0, dest)
  }

  /** The scan from pc passes over x as push data. */
  ghost predicate Argument(code: Bytes, pc: nat, x: nat)
    decreases |code| - pc
  {
    pc < |code| && (pc < x < Next(code, pc) || Argument(code, Next(code, pc), x))
  }

  /** The scan from the start comes to pc, as an instruction or as its end. */
  ghost predicate Reach(code: Bytes, start: nat, pc: nat)
    decreases |code| - start
  {
    start == pc || (start < |code| && Reach(code, Next(code, start), pc))
  }

  lemma {:induction false} ArgumentAfter(code: Bytes, start: nat, x: nat)
    requires Argument(code, start, x)
    ensures start < x
    decreases |code| - start
  {
    if !(start < x < Next(code, start)) {
      ArgumentAfter(code, Next(code, start), x);
    }
  }

  lemma {:induction false} OpcodeAfter(code: Bytes, start: nat, x: nat)
    requires Opcode(code, start, x)
    ensures start <= x < |code|
    decreases |code| - start
  {
    if start != x {
      OpcodeAfter(code, Next(code, start), x);
    }
  }

  lemma {:induction false} ReachAfter(code: Bytes, start: nat, pc: nat)
    requires Reach(code, start, pc)
    ensures start <= pc
    decreases |code| - start
  {
    if start != pc {
      ReachAfter(code, Next(code, start), pc);
    }
  }

  /** Every byte of the code is an instruction or push data, not both. */
  lemma {:induction false} Partition(code: Bytes, start: nat, x: nat)
    requires start <= x < |code|
    ensures Argument(code, start, x) <==> !Opcode(code, start, x)
    decreases |code| - start
  {
    if start < x {
      if x < Next(code, start) {
        if Opcode(code, Next(code, start), x) {
          OpcodeAfter(code, Next(code, start), x);
        }
      } else {
        Partition(code, Next(code, start), x);
      }
    } else if Argument(code, start, x) {
      ArgumentAfter(code, start, x);
    }
  }

  /** The bytes behind the instruction at pc are its data, and pc itself is not data. */
  lemma {:induction false} ReachArgs(code: Bytes, start: nat, pc: nat, x: nat)
    requires Reach(code, start, pc)
    ensures pc < |code| && pc < x < Next(code, pc) ==> Argument(code, start, x)
    ensures !Argument(code, start, pc)
    decreases |code| - start
  {
    if start == pc {
      if Argument(code, start, pc) {
        ArgumentAfter(code, start, pc);
      }
    } else {
      ReachArgs(code, Next(code, start), pc, x);
      ReachAfter(code, Next(code, start), pc);
    }
  }

  lemma {:induction false} ReachNext(code: Bytes, start: nat, pc: nat)
    requires Reach(code, start, pc) && pc < |code|
    ensures Reach(code, start, Next(code, pc))
    decreases |code| - start
  {
    if start != pc {
      ReachNext(code, Next(code, start), pc);
    }
  }

  /** All data lies before the end of the scan. */
  lemma {:induction false} ReachEnd(code: Bytes, start: nat, pc: nat, x: nat)
    requires Reach(code, start, pc) && pc >= |code| && Argument(code, start, x)
    ensures x < pc
    decreases |code| - start
  {
    ReachAfter(code, Next(code, start), pc);
    if !(start < x < Next(code, start)) {
      ReachEnd(code, Next(code, start), pc, x);
    }
  }

  // ----- bit vectors

  /** 0xFF >> k. */
  function Tail(k: nat): bv8
    requires k < 8
  {
    if k == 0 then 0xFF else if k == 1 then 0x7F else if k == 2 then 0x3F else if k == 3 then 0x1F
    else if k == 4 then 0x0F else if k == 5 then 0x07 else if k == 6 then 0x03 else 0x01
  }

  lemma TailBit(k: nat, j: nat)
    requires k < 8 && j < 8
    ensures Bit(Tail(k), j) <==> j >= k
    ensures Bit(Not(Tail(k)), j) <==> j < k
  {
  }

  /** The bits of a vector are exactly the data positions before pc. */
  ghost predicate Marked(code: Bytes, bs: seq<bv8>, pc: nat) {
    forall x | 0 <= x < 8 * |bs| :: BitAt(bs, x) <==> Argument(code, 0, x) && x < pc
  }

  method Set(bits: array<bv8>, pos: nat)
    requires pos / 8 < bits.Length
    modifies bits
    ensures forall x | 0 <= x < 8 * bits.Length :: BitAt(bits[..], x) <==> x == pos || BitAt(old(bits[..]), x)
  {
    hide Bit, Mask;
    ghost var bs := bits[..];
    bits[pos / 8] := bits[pos / 8] | Mask(pos % 8);
    forall x | 0 <= x < 8 * bits.Length ensures BitAt(bits[..], x) <==> x == pos || BitAt(bs, x) {
      if x / 8 == pos / 8 {
        SetBit(bs[pos / 8], pos % 8, x % 8);
      }
    }
  }

  /** Eight bits at once, in general across two bytes. */
  method Set8(bits: array<bv8>, pos: nat)
    requires pos / 8 + 1 < bits.Length
    modifies bits
    ensures forall x | 0 <= x < 8 * bits.Length :: BitAt(bits[..], x) <==> pos <= x < pos + 8 || BitAt(old(bits[..]), x)
  {
    hide Bit, Tail, Or, Not;
    ghost var bs := bits[..];
    var i, k := pos / 8, pos % 8;
    var front, back := Tail(k), Not(Tail(k));
    bits[i] := Or(bits[i], front);
    bits[i + 1] := Or(bits[i + 1], back);
    TailBits(k);
    Set8At(bs, bits[..], i, k, front, back);
  }

  lemma TailBits(k: nat)
    requires k < 8
    ensures forall j | 0 <= j < 8 :: Bit(Tail(k), j) <==> j >= k
    ensures forall j | 0 <= j < 8 :: Bit(Not(Tail(k)), j) <==> j < k
  {
    hide Bit, Tail, Not;
    forall j | 0 <= j < 8 ensures (Bit(Tail(k), j) <==> j >= k) && (Bit(Not(Tail(k)), j) <==> j < k) {
      TailBit(k, j);
    }
  }

  lemma Set8At(bs: seq<bv8>, bs': seq<bv8>, i: nat, k: nat, front: bv8, back: bv8)
    requires i + 1 < |bs| && |bs'| == |bs| && k < 8
    requires bs' == bs[i := Or(bs[i], front)][i + 1 := Or(bs[i + 1], back)]
    requires forall j | 0 <= j < 8 :: Bit(front, j) <==> j >= k
    requires forall j | 0 <= j < 8 :: Bit(back, j) <==> j < k
    ensures forall x | 0 <= x < 8 * |bs| :: BitAt(bs', x) <==> 8 * i + k <= x < 8 * i + k + 8 || BitAt(bs, x)
  {
    hide Bit, Or;
    forall x | 0 <= x < 8 * |bs| ensures BitAt(bs', x) <==> 8 * i + k <= x < 8 * i + k + 8 || BitAt(bs, x) {
      OrBit(bs[i], front, x % 8);
      OrBit(bs[i + 1], back, x % 8);
    }
  }

  /** The vector of a whole code. Its five extra bytes take the data that a last push announces beyond the code. */
  ghost predicate IsBitmap(code: Bytes, bs: seq<bv8>) {
    |bs| == |code| / 8 + 5 && forall x | 0 <= x < 8 * |bs| :: BitAt(bs, x) <==> Argument(code, 0, x)
  }

  method CodeBitmap(code: Bytes) returns (bs: seq<bv8>)
    ensures IsBitmap(code, bs)
  {
    hide Bit, Argument, Reach, BitAt;
    var bits := new bv8[|code| / 8 + 1 + 4](_ => 0);
    MarkedNone(code, bits[..]);
    var pc: nat := 0;
    assert Reach(code, 0, 0) by { ReachSelf(code); }
    while pc < |code|
      invariant Reach(code, 0, pc) && Marked(code, bits[..], pc)
    {
      ReachNext(code, 0, pc);
      ghost var end := Next(code, pc);
      MarkArgs(code, pc);
      var op := code[pc];
      MarkedStep(code, bits[..], pc);
      pc := pc + 1;
      if PUSH1 <= op <= PUSH32 {
        var numbits: nat := op - PUSH1 + 1;
        while numbits >= 8
          invariant pc + numbits == end && Marked(code, bits[..], pc)
        {
          ghost var was := bits[..];
          Set8(bits, pc);
          MarkedMore(code, was, bits[..], pc, pc + 8);
          pc := pc + 8;
          numbits := numbits - 8;
        }
        while numbits > 0
          invariant pc + numbits == end && Marked(code, bits[..], pc)
        {
          ghost var was := bits[..];
          Set(bits, pc);
          MarkedMore(code, was, bits[..], pc, pc + 1);
          pc := pc + 1;
          numbits := numbits - 1;
        }
      }
    }
    MarkedAll(code, bits[..], pc);
    bs := bits[..];
  }

  lemma ReachSelf(code: Bytes)
    ensures Reach(code, 0, 0)
  {
  }

  lemma MarkedNone(code: Bytes, bs: seq<bv8>)
    requires forall i | 0 <= i < |bs| :: bs[i] == 0
    ensures Marked(code, bs, 0)
  {
    hide Argument;
    forall x | 0 <= x < 8 * |bs| ensures !BitAt(bs, x) {
      NoBits(x % 8);
    }
  }

  lemma MarkArgs(code: Bytes, pc: nat)
    requires Reach(code, 0, pc) && pc < |code|
    ensures forall x | pc < x < Next(code, pc) :: Argument(code, 0, x)
    ensures !Argument(code, 0, pc)
  {
    hide Reach, Argument;
    ReachArgs(code, 0, pc, pc);
    forall x | pc < x < Next(code, pc) ensures Argument(code, 0, x) {
      ReachArgs(code, 0, pc, x);
    }
  }

  lemma MarkedStep(code: Bytes, bs: seq<bv8>, pc: nat)
    requires Marked(code, bs, pc) && !Argument(code, 0, pc)
    ensures Marked(code, bs, pc + 1)
  {
    hide Argument, BitAt;
  }

  lemma MarkedMore(code: Bytes, was: seq<bv8>, bs: seq<bv8>, pc: nat, end: nat)
    requires Marked(code, was, pc) && |bs| == |was| && pc <= end && forall x | pc <= x < end :: Argument(code, 0, x)
    requires forall x | 0 <= x < 8 * |bs| :: BitAt(bs, x) <==> pc <= x < end || BitAt(was, x)
    ensures Marked(code, bs, end)
  {
    hide Argument, BitAt;
  }

  lemma MarkedAll(code: Bytes, bs: seq<bv8>, pc: nat)
    requires Marked(code, bs, pc) && Reach(code, 0, pc) && pc >= |code|
    ensures forall x | 0 <= x < 8 * |bs| :: BitAt(bs, x) <==> Argument(code, 0, x)
  {
    hide Argument, BitAt, Reach;
    forall x | 0 <= x < 8 * |bs| ensures BitAt(bs, x) <==> Argument(code, 0, x) {
      if Argument(code, 0, x) {
        ReachEnd(code, 0, pc, x);
      }
    }
  }

  /** Whether pos is not data. None stands for a panic: the bound lets the byte just past the bits through. */
  method CodeSegment(bs: seq<bv8>, pos: nat) returns (r: Option<bool>)
    ensures r.None? <==> pos / 8 == |bs|
    ensures r.Some? ==> (r.value <==> pos / 8 < |bs| && !BitAt(bs, pos))
  {
    if pos / 8 > |bs| {
      return Some(false);
    }
    return if pos / 8 == |bs| then None else Some(bs[pos / 8] & Mask(pos % 8) == 0);
  }

  /** destinations: analysed codes by their hash. */
  class Destinations {
    var maps: map<Hash, seq<bv8>>

    constructor ()
      ensures maps == map[]
    {
      maps := map[];
    }

    /** Whether dest is a jump destination of code; a cached analysis must be one of the same code. */
    method Has(codehash: Hash, code: Bytes, dest: nat) returns (r: bool)
      requires |code| < 0x4000_0000_0000_0000
      requires codehash in maps ==> IsBitmap(code, maps[codehash])
      modifies this
      ensures r <==> ValidDest(code, dest)
      ensures maps == old(maps) ||
              (codehash in maps && IsBitmap(code, maps[codehash]) && maps == old(maps)[codehash := maps[codehash]])
    {
      hide Opcode, Argument, BitAt;
      var udest := dest % TWO_64;
      if dest >= 0x4000_0000_0000_0000 || udest >= |code| {
        return false;
      }
      if codehash !in maps {
        var m := CodeBitmap(code);
        maps := maps[codehash := m];
      }
      Partition(code, 0, dest);
      var segment := CodeSegment(maps[codehash], udest);
      r := code[udest] == JUMPDEST && segment.value;
    }
  }
}
