/** Machine words, and the memory of the EVM with its expansion fees (core/vm/memory.go,
    core/vm/gas_table.go, core/vm/common.go, common/math/integer.go). */
module EvmMemory {
  import opened Common

  const MAX_UINT64 := TWO_64 - 1

  type uint64 = x: int | 0 <= x < TWO_64

  /** Sum modulo 2^64, and whether it overflowed. */
  function SafeAdd(x: uint64, y: uint64): (r: (uint64, bool))
    ensures r.1 <==> x + y >= TWO_64
    ensures !r.1 ==> r.0 == x + y
  {
    ((x + y) % TWO_64, y > MAX_UINT64 - x)
  }

  /** Product modulo 2^64, and whether it overflowed. */
  function SafeMul(x: uint64, y: uint64): (r: (uint64, bool))
    ensures r.1 <==> x * y >= TWO_64
    ensures !r.1 ==> r.0 == x * y
  {
    MulBound(x, y);
    if x == 0 || y == 0 then (0, false) else ((x * y) % TWO_64, y > MAX_UINT64 / x)
  }

  lemma MulBound(x: uint64, y: uint64)
    ensures x > 0 ==> (y > MAX_UINT64 / x <==> x * y >= TWO_64)
    ensures 0 <= x * y
  {
    if x > 0 {
      var q := MAX_UINT64 / x;
      DivBounds(MAX_UINT64, x, q);
      if y > q {
        MulMono(x, q + 1, y);
      } else {
        MulMono(x, y, q);
      }
    }
  }

  lemma DivBounds(m: nat, x: nat, q: nat)
    requires x > 0 && q == m / x
    ensures x * q <= m < x * (q + 1)
  {
    assert m == x * q + m % x;
    Distribute(x, q);
  }

  lemma Distribute(x: nat, q: nat)
    ensures x * (q + 1) == x * q + x
  {
  }

  lemma MulMono(x: nat, a: nat, b: nat)
    requires a <= b
    ensures x * a <= x * b
  {
  }

  function ToWordSize(size: uint64): (w: uint64)
    ensures 32 * (w - 1) < size <= 32 * w
  {
    if size > MAX_UINT64 - 31 then MAX_UINT64 / 32 + 1 else (size + 31) / 32
  }

  // ----- fees

  const MEMORY_GAS: uint64 := 3
  const QUAD_COEFF_DIV: uint64 := 512

  function Square(w: nat): nat {
    w * w
  }

  /** The price of w words of memory (Appendix H of the Yellow Paper). */
  function Fee(w: nat): nat {
    3 * w + Square(w) / 512
  }

  /** The price as computed, in 64-bit arithmetic. */
  function MachineFee(w: uint64): uint64 {
    (w * MEMORY_GAS % TWO_64 + Square(w) % TWO_64 / QUAD_COEFF_DIV) % TWO_64
  }

  /** The largest size whose price is computed without wrapping: 2^32 - 1 words. */
  const EXACT_LIMIT := 0x1f_ffff_ffe0

  /** The largest size the code lets through. */
  const GUARD_LIMIT := 0xff_ffff_ffe0

  lemma SquareMono(a: nat, b: nat)
    requires a <= b
    ensures Square(a) <= Square(b)
  {
    MulMono(a, a, b);
    MulMono(b, a, b);
  }

  lemma SquareBound(w: nat)
    ensures w < 0x1_0000_0000 <==> Square(w) < TWO_64
  {
    hide Square;
    assert Square(0xffff_ffff) < TWO_64 && Square(0x1_0000_0000) == TWO_64 by { SquareValues(); }
    if w < 0x1_0000_0000 {
      SquareMono(w, 0xffff_ffff);
    } else {
      SquareMono(0x1_0000_0000, w);
    }
  }

  lemma SquareValues()
    ensures Square(0xffff_ffff) < TWO_64 && Square(0x1_0000_0000) == TWO_64
    ensures Square(0x7_ffff_ffff) < 64 * TWO_64
  {
  }

  /** Below the guard, the computed price is the true one exactly up to the smaller limit. */
  lemma FeeExact(size: uint64)
    requires size <= GUARD_LIMIT
    ensures var w := ToWordSize(size);
            MachineFee(w) == Fee(w) <==> size <= EXACT_LIMIT
  {
    hide Fee, MachineFee;
    FeeExactWords(ToWordSize(size));
  }

  lemma FeeExactWords(w: uint64)
    requires w <= 0x7_ffff_ffff
    ensures MachineFee(w) == Fee(w) <==> w < 0x1_0000_0000
  {
    hide Square;
    SquareBound(w);
    SquareMono(w, 0x7_ffff_ffff);
    SquareValues();
    WrappedFee(w, Square(w));
  }

  lemma WrappedFee(w: nat, sq: nat)
    requires w <= 0x7_ffff_ffff && sq < 64 * TWO_64
    ensures (w * 3 % TWO_64 + sq % TWO_64 / 512) % TWO_64 == 3 * w + sq / 512 <==> sq < TWO_64
  {
    var quad := sq % TWO_64 / 512;
    assert quad <= 0x80_0000_0000_0000;
    SmallSum(w, quad);
    if sq >= TWO_64 {
      WrappedLess(sq);
    }
  }

  lemma SmallSum(w: nat, quad: nat)
    requires w <= 0x7_ffff_ffff && quad <= 0x80_0000_0000_0000
    ensures (w * 3 % TWO_64 + quad) % TWO_64 == 3 * w + quad
  {
  }

  lemma WrappedLess(sq: nat)
    requires TWO_64 <= sq
    ensures (sq % TWO_64) / 512 < sq / 512
  {
    assert sq % TWO_64 <= sq - TWO_64;
    assert (sq - TWO_64) / 512 == sq / 512 - TWO_64 / 512;
  }

  /** One word over the limit: the square wraps to zero and the price is that of the linear part alone. */
  lemma GuardTooLoose()
    ensures EXACT_LIMIT < 0x20_0000_0000 <= GUARD_LIMIT
    ensures MachineFee(ToWordSize(0x20_0000_0000)) == WRAP_GAS < Fee(ToWordSize(EXACT_LIMIT))
  {
    assert ToWordSize(0x20_0000_0000) == 0x1_0000_0000;
    assert 0x1_0000_0000 * 0x1_0000_0000 == TWO_64;
    assert ToWordSize(EXACT_LIMIT) == 0xffff_ffff;
  }

  /** The gas below which no size whose price wraps can be paid for: the linear part alone of 2^32 words. */
  const WRAP_GAS := 0x3_0000_0000

  lemma WrappedLinear(w: uint64)
    requires 0x1_0000_0000 <= w <= 0x7_ffff_ffff
    ensures MachineFee(w) >= WRAP_GAS
  {
    hide Square;
    var quad := Square(w) % TWO_64 / 512;
    assert quad <= 0x80_0000_0000_0000;
    SmallSum(w, quad);
  }

  lemma FeeMono(a: nat, b: nat)
    requires a <= b
    ensures Fee(a) <= Fee(b)
  {
    hide Square;
    SquareMono(a, b);
    DivMono(Square(a), Square(b));
  }

  lemma DivMono(x: nat, y: nat)
    requires x <= y
    ensures x / 512 <= y / 512
  {
  }

  datatype Error = GasOverflow

  class Memory {
    var store: Bytes
    var lastGasCost: uint64

    constructor ()
      ensures store == [] && lastGasCost == 0
    {
      store, lastGasCost := [], 0;
    }

    /** Whole words, paid for exactly. */
    ghost predicate Paid()
      reads this
    {
      |store| % 32 == 0 && lastGasCost == Fee(|store| / 32) && |store| <= EXACT_LIMIT
    }

    /** The fee for growing to newMemSize, in 64-bit arithmetic throughout. */
    method MemoryGasCost(newMemSize: uint64) returns (r: Result<uint64, Error>)
      modifies this`lastGasCost
      ensures newMemSize == 0 ==> r == Ok(0) && lastGasCost == old(lastGasCost)
      ensures newMemSize > GUARD_LIMIT ==> r.Err? && lastGasCost == old(lastGasCost)
      ensures 0 < newMemSize <= GUARD_LIMIT ==>
                var w := ToWordSize(newMemSize);
                if w * 32 > |store|
                then r == Ok((MachineFee(w) - old(lastGasCost)) % TWO_64) && lastGasCost == MachineFee(w)
                else r == Ok(0) && lastGasCost == old(lastGasCost)
    {
      if newMemSize == 0 {
        return Ok(0);
      }
      if newMemSize > GUARD_LIMIT {
        return Err(GasOverflow);
      }
      var newMemSizeWords := ToWordSize(newMemSize);
      if newMemSizeWords * 32 > |store| {
        var square := Square(newMemSizeWords) % TWO_64;
        var linCoef := newMemSizeWords * MEMORY_GAS % TWO_64;
        var quadCoef := square / QUAD_COEFF_DIV;
        var newTotalFee := (linCoef + quadCoef) % TWO_64;
        var fee := (newTotalFee - lastGasCost) % TWO_64;
        lastGasCost := newTotalFee;
        return Ok(fee);
      }
      return Ok(0);
    }

    /** The fee asked of paid memory by someone whose gas, with what the memory cost, is below the bound: the true
        difference of two prices, or more than that gas. */
    method ExactFee(memorySize: uint64, ghost gas: uint64) returns (r: Result<uint64, Error>)
      requires memorySize % 32 == 0
      modifies this`lastGasCost
      ensures old(Paid()) && gas + old(lastGasCost) < WRAP_GAS && r.Ok? && r.value <= gas ==>
                && memorySize <= EXACT_LIMIT
                && r.value == Fee(MaxWords(|store| / 32, memorySize)) - Fee(|store| / 32)
                && lastGasCost == Fee(MaxWords(|store| / 32, memorySize))
      ensures memorySize == 0 ==> r == Ok(0)
      ensures r.Ok? <==> memorySize <= GUARD_LIMIT
      ensures r.Err? ==> lastGasCost == old(lastGasCost)
    {
      hide Fee, MachineFee;
      ghost var last := lastGasCost;
      r := MemoryGasCost(memorySize);
      if 0 < memorySize <= GUARD_LIMIT {
        var w := ToWordSize(memorySize);
        FeeExact(memorySize);
        FeeMono(|store| / 32, MaxWords(|store| / 32, memorySize));
        if memorySize > EXACT_LIMIT {
          WrappedLinear(w);
        }
      }
    }

    method Resize(size: uint64)
      modifies this`store
      ensures |store| == (if size > |old(store)| then size else |old(store)|) && old(store) <= store
      ensures forall i | |old(store)| <= i < |store| :: store[i] == 0
    {
      if |store| < size {
        store := store + seq(size - |store|, _ => 0);
      }
    }

    /** One paid expansion, as the interpreter does it: the fee, then the growth, in whole words. */
    method Expand(memSize: uint64) returns (fee: uint64)
      requires Paid() && memSize <= EXACT_LIMIT
      modifies this
      ensures Paid() && |store| / 32 == MaxWords(|old(store)| / 32, memSize)
      ensures fee == Fee(|store| / 32) - Fee(|old(store)| / 32)
    {
      hide Fee, MachineFee;
      var memorySize := SafeMul(ToWordSize(memSize), 32).0;
      var r := MemoryGasCost(memorySize);
      FeeExact(memorySize);
      FeeMono(|store| / 32, MaxWords(|store| / 32, memSize));
      fee := r.value;
      if memorySize > 0 {
        Resize(memorySize);
      }
    }
  }

  function MaxWords(w: nat, memSize: uint64): nat {
    if ToWordSize(memSize) > w then ToWordSize(memSize) else w
  }

  // ----- runs of expansions

  /** The word count after a run of requested sizes. */
  function WordsAfter(w: nat, sizes: seq<uint64>): nat
    decreases |sizes|
  {
    if sizes == [] then w else WordsAfter(MaxWords(w, sizes[0]), sizes[1..])
  }

  /** Over any run of expansions the fees add up to the difference of two prices:
      the total depends only on where the memory started and ended. */
  method ExpandAll(mem: Memory, sizes: seq<uint64>) returns (total: nat)
    requires mem.Paid() && forall i | 0 <= i < |sizes| :: sizes[i] <= EXACT_LIMIT
    modifies mem
    ensures mem.Paid() && |mem.store| / 32 == WordsAfter(|old(mem.store)| / 32, sizes)
    ensures total == Fee(|mem.store| / 32) - Fee(|old(mem.store)| / 32)
  {
    hide Fee;
    total := 0;
    var i := 0;
    ghost var w0 := |mem.store| / 32;
    assert sizes[0..] == sizes;
    while i < |sizes|
      invariant 0 <= i <= |sizes| && mem.Paid()
      invariant WordsAfter(|mem.store| / 32, sizes[i..]) == WordsAfter(w0, sizes)
      invariant total == Fee(|mem.store| / 32) - Fee(w0)
    {
      assert sizes[i..][1..] == sizes[i + 1..];
      var fee := mem.Expand(sizes[i]);
      total := total + fee;
      i := i + 1;
    }
  }

  /** The end of a run is the largest request. */
  lemma {:induction false} WordsAfterMax(w: nat, sizes: seq<uint64>)
    ensures WordsAfter(w, sizes) >= w
    ensures forall i | 0 <= i < |sizes| :: ToWordSize(sizes[i]) <= WordsAfter(w, sizes)
    ensures WordsAfter(w, sizes) == w || exists i :: 0 <= i < |sizes| && ToWordSize(sizes[i]) == WordsAfter(w, sizes)
    decreases |sizes|
  {
    hide ToWordSize;
    if sizes != [] {
      WordsAfterMax(MaxWords(w, sizes[0]), sizes[1..]);
      forall i | 0 <= i < |sizes| ensures ToWordSize(sizes[i]) <= WordsAfter(w, sizes) {
        assert i > 0 ==> sizes[i] == sizes[1..][i - 1];
      }
      var end := WordsAfter(w, sizes);
      if exists i :: 0 <= i < |sizes[1..]| && ToWordSize(sizes[1..][i]) == end {
        var i :| 0 <= i < |sizes[1..]| && ToWordSize(sizes[1..][i]) == end;
        assert ToWordSize(sizes[i + 1]) == end;
      } else {
        assert end == MaxWords(w, sizes[0]);
        assert end == w || ToWordSize(sizes[0]) == end;
      }
    }
  }
}
