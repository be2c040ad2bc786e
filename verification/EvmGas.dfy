/** Gas prices of the EVM instructions (core/vm/gas_table.go, core/vm/gas.go,
    core/vm/jump_table.go, params). */
module EvmGas {
  import opened Common
  import opened EvmMemory

  const CALL_VALUE_TRANSFER_GAS: uint64 := 9000
  const CALL_NEW_ACCOUNT_GAS: uint64 := 25000
  const CALL_STIPEND: uint64 := 2300
  const CREATE_GAS: uint64 := 32000

  /** GasTable. A zero createBySuicide stands for the pricing before EIP-150. */
  datatype GasTable = GasTable(extcodeSize: uint64, extcodeCopy: uint64, balance: uint64, sload: uint64,
                               calls: uint64, suicide: uint64, expByte: uint64, createBySuicide: uint64)

  const GAS_TABLE_HOMESTEAD := GasTable(20, 20, 20, 50, 40, 0, 10, 0)
  const GAS_TABLE_EIP150 := GasTable(700, 700, 400, 200, 700, 5000, 10, 25000)
  const GAS_TABLE_EIP158 := GasTable(700, 700, 400, 200, 700, 5000, 50, 25000)

  predicate KnownTable(gt: GasTable) {
    gt == GAS_TABLE_HOMESTEAD || gt == GAS_TABLE_EIP150 || gt == GAS_TABLE_EIP158
  }

  datatype CallKind = Call | CallCode | DelegateCall | StaticCall

  /** An instruction with what its price depends on: sizes and requests are stack values of
      any magnitude, the rest is read from the state. */
  datatype Instruction =
    | Step(price: uint64)
    | Balance
    | ExtCodeSize
    | SLoad
    | Exp(exponentBytes: uint64)
    | SStore(wasZero: bool, isZero: bool)
    | MemoryAccess
    | Copy(size: nat)
    | ExtCodeCopy(size: nat)
    | Sha3(size: nat)
    | Log(topics: uint64, size: nat)
    | CreateContract
    | CallContract(kind: CallKind, request: nat, value: bool, newAccount: bool)
    | Stop
    | ReturnData
    | RevertData
    | SelfDestruct(eip150: bool, newAccount: bool)

  /** The instructions that end their frame. */
  predicate Halts(op: Instruction) {
    op.Stop? || op.ReturnData? || op.RevertData? || op.SelfDestruct?
  }

  /** The instructions whose price includes the memory fee. */
  predicate UsesMemory(op: Instruction) {
    op.MemoryAccess? || op.Copy? || op.ExtCodeCopy? || op.Sha3? || op.Log? || op.CreateContract? ||
    op.CallContract? || op.ReturnData? || op.RevertData?
  }

  /** What the instruction set allows: constant prices of the tiers, at most four topics,
      exponents of at most 32 bytes, and value only where it is passed. */
  predicate Valid(op: Instruction) {
    && (op.Step? ==> op.price in {1, 2, 3, 5, 8, 10, 20})
    && (op.Exp? ==> op.exponentBytes <= 32)
    && (op.Log? ==> op.topics <= 4)
    && (op.CallContract? && (op.kind.DelegateCall? || op.kind.StaticCall?) ==> !op.value)
    && (op.CallContract? && !op.kind.Call? ==> !op.newAccount)
  }

  // ----- checked sums

  function Add(r: Result<uint64, Error>, y: uint64): (s: Result<uint64, Error>)
    ensures s.Ok? <==> r.Ok? && r.value + y < TWO_64
    ensures s.Ok? ==> s.value == r.value + y
  {
    if r.Err? then r else
    var sum := SafeAdd(r.value, y);
    if sum.1 then Err(GasOverflow) else Ok(sum.0)
  }

  function AddAll(r: Result<uint64, Error>, y: Result<uint64, Error>): (s: Result<uint64, Error>)
    ensures s.Ok? <==> r.Ok? && y.Ok? && r.value + y.value < TWO_64
    ensures s.Ok? ==> s.value == r.value + y.value
  {
    if y.Err? then y else Add(r, y.value)
  }

  /** A price per word of size bytes. */
  function PerWord(size: nat, price: uint64): (r: Result<uint64, Error>)
    ensures r.Ok? ==> size < TWO_64 && r.value == price * ToWordSize(size)
  {
    if size >= TWO_64 then Err(GasOverflow) else
    var p := SafeMul(ToWordSize(size), price);
    if p.1 then Err(GasOverflow) else Ok(p.0)
  }

  function PerByte(size: nat, price: uint64): (r: Result<uint64, Error>)
    ensures r.Ok? ==> size < TWO_64 && r.value == price * size
  {
    if size >= TWO_64 then Err(GasOverflow) else
    var p := SafeMul(size, price);
    if p.1 then Err(GasOverflow) else Ok(p.0)
  }

  // ----- calls

  /** The part of a call's price that the callee does not get. */
  function CallBase(gt: GasTable, op: Instruction): uint64
    requires KnownTable(gt) && op.CallContract?
  {
    gt.calls + (if op.newAccount then CALL_NEW_ACCOUNT_GAS else 0) + if op.value then CALL_VALUE_TRANSFER_GAS else 0
  }

  /** callGas: what the callee gets. The subtraction wraps. */
  function CallGas(gt: GasTable, availableGas: uint64, base: uint64, callCost: nat): Result<uint64, Error> {
    var left := (availableGas - base) % TWO_64;
    var gas := left - left / 64;
    if gt.createBySuicide > 0 && (callCost >= TWO_64 || gas < callCost) then Ok(gas)
    else if callCost >= TWO_64 then Err(GasOverflow)
    else Ok(callCost)
  }

  /** With the base price covered, the callee gets what was asked for, and after EIP-150 never
      more than all but one 64th of what is left; without it, asking is enough to run out of gas. */
  lemma CallGasBounds(gt: GasTable, availableGas: uint64, base: uint64, callCost: nat)
    ensures var r := CallGas(gt, availableGas, base, callCost);
            && (r.Ok? ==> r.value <= callCost)
            && (base <= availableGas && gt.createBySuicide > 0 ==>
                  var left := availableGas - base;
                  r == Ok(if callCost <= left - left / 64 then callCost else left - left / 64))
            && (base > availableGas && r.Ok? && base + r.value < TWO_64 ==> base + r.value > availableGas)
  {
  }

  /** A priced instruction: what it costs, and for a call what the callee gets. */
  datatype Price = Price(cost: uint64, callGas: uint64)

  /** The gas functions of the jump table, given the memory fee. */
  function PriceOf(gt: GasTable, op: Instruction, available: uint64, memoryFee: Result<uint64, Error>)
      : Result<Price, Error>
    requires KnownTable(gt) && Valid(op)
  {
    match op
    case Step(price) => Ok(Price(price, 0))
    case Balance => Ok(Price(gt.balance, 0))
    case ExtCodeSize => Ok(Price(gt.extcodeSize, 0))
    case SLoad => Ok(Price(gt.sload, 0))
    case Exp(bytes) => Plain(Add(Ok(bytes * gt.expByte), 10))
    case SStore(wasZero, isZero) => Ok(Price(if wasZero && !isZero then 20000 else 5000, 0))
    case MemoryAccess => Plain(Add(memoryFee, 3))
    case Copy(size) => Plain(AddAll(Add(memoryFee, 3), PerWord(size, 3)))
    case ExtCodeCopy(size) => Plain(AddAll(Add(memoryFee, gt.extcodeCopy), PerWord(size, 3)))
    case Sha3(size) => Plain(AddAll(Add(memoryFee, 30), PerWord(size, 6)))
    case Log(topics, size) => Plain(AddAll(Add(Add(memoryFee, 375), topics * 375), PerByte(size, 8)))
    case CreateContract => Plain(Add(memoryFee, CREATE_GAS))
    case CallContract(_, request, _, _) =>
      var base := Add(memoryFee, CallBase(gt, op));
      if base.Err? then Err(GasOverflow) else
      var callee := CallGas(gt, available, base.value, request);
      if callee.Err? then Err(GasOverflow) else
      var total := Add(base, callee.value);
      if total.Err? then Err(GasOverflow) else Ok(Price(total.value, callee.value))
    case Stop => Ok(Price(0, 0))
    case ReturnData => Plain(memoryFee)
    case RevertData => Plain(memoryFee)
    case SelfDestruct(eip150, newAccount) =>
      Ok(Price(if eip150 then gt.suicide + (if newAccount then gt.createBySuicide else 0) else 0, 0))
  }

  function Plain(r: Result<uint64, Error>): Result<Price, Error> {
    if r.Err? then Err(r.error) else Ok(Price(r.value, 0))
  }

  // ----- the price list

  datatype Fork = Frontier | TangerineWhistle | SpuriousDragon

  /** GasTable of core/vm and params: the prices in force after each fork. */
  function TableOf(fork: Fork): GasTable {
    match fork
    case Frontier => GAS_TABLE_HOMESTEAD
    case TangerineWhistle => GAS_TABLE_EIP150
    case SpuriousDragon => GAS_TABLE_EIP158
  }

  /** What an instruction costs whatever its sizes and the memory are, in gas. */
  function FlatPrice(fork: Fork, op: Instruction): nat {
    match op
    case Step(price) => price
    case Balance => if fork.Frontier? then 20 else 400
    case ExtCodeSize => if fork.Frontier? then 20 else 700
    case SLoad => if fork.Frontier? then 50 else 200
    case Exp(bytes) => 10 + bytes * if fork.SpuriousDragon? then 50 else 10
    case SStore(wasZero, isZero) => if wasZero && !isZero then 20000 else 5000
    case MemoryAccess => 3
    case Copy(_) => 3
    case ExtCodeCopy(_) => if fork.Frontier? then 20 else 700
    case Sha3(_) => 30
    case Log(topics, _) => 375 * (topics + 1)
    case CreateContract => 32000
    case CallContract(_, _, value, newAccount) =>
      (if fork.Frontier? then 40 else 700) + (if value then 9000 else 0) + if newAccount then 25000 else 0
    case Stop => 0
    case ReturnData => 0
    case RevertData => 0
    case SelfDestruct(eip150, newAccount) =>
      if fork.Frontier? || !eip150 then 0 else 5000 + if newAccount then 25000 else 0
  }

  /** What it costs for its size in bytes. */
  function SizePrice(op: Instruction): nat {
    match op
    case Copy(size) => 3 * ((size + 31) / 32)
    case ExtCodeCopy(size) => 3 * ((size + 31) / 32)
    case Sha3(size) => 6 * ((size + 31) / 32)
    case Log(_, size) => 8 * size
    case _ => 0
  }

  predicate HugeSize(op: Instruction) {
    (op.Copy? || op.ExtCodeCopy? || op.Sha3? || op.Log?) && op.size >= TWO_64
  }

  /** The checked sums of the gas functions are the sums of the price list, and an error exactly when the sum or the
      size does not fit in 64 bits. The memory fee counts for the instructions that use memory and for no other. */
  lemma PriceList(fork: Fork, op: Instruction, available: uint64, fee: uint64)
    requires Valid(op) && !op.CallContract?
    ensures var sum := FlatPrice(fork, op) + SizePrice(op) + if UsesMemory(op) then fee else 0;
            PriceOf(TableOf(fork), op, available, Ok(fee)) ==
            if HugeSize(op) || sum >= TWO_64 then Err(GasOverflow) else Ok(Price(sum, 0))
  {
    if op.Copy? || op.ExtCodeCopy? || op.Sha3? {
      SizedPrice(fork, op, available, fee);
    }
  }

  lemma SizedPrice(fork: Fork, op: Instruction, available: uint64, fee: uint64)
    requires op.Copy? || op.ExtCodeCopy? || op.Sha3?
    ensures var sum := FlatPrice(fork, op) + SizePrice(op) + fee;
            PriceOf(TableOf(fork), op, available, Ok(fee)) ==
            if HugeSize(op) || sum >= TWO_64 then Err(GasOverflow) else Ok(Price(sum, 0))
  {
    hide PerWord, SafeMul, SafeAdd, ToWordSize;
    var price := if op.Sha3? then 6 else 3;
    assert PerWord(op.size, price) ==
           if op.size >= TWO_64 || price * ((op.size + 31) / 32) >= TWO_64 then Err(GasOverflow)
           else Ok(price * ((op.size + 31) / 32)) by { PerWordExact(op.size, price); }
  }

  lemma PerWordExact(size: nat, price: uint64)
    requires price <= 6
    ensures PerWord(size, price) ==
            if size >= TWO_64 || price * ((size + 31) / 32) >= TWO_64 then Err(GasOverflow)
            else Ok(price * ((size + 31) / 32))
  {
    hide SafeMul;
    if size < TWO_64 {
      assert ToWordSize(size) == (size + 31) / 32;
    }
  }

  /** A call costs its flat price, the memory fee and what the callee gets. */
  lemma CallPrice(fork: Fork, op: Instruction, available: uint64, fee: uint64)
    requires Valid(op) && op.CallContract?
    ensures var p := PriceOf(TableOf(fork), op, available, Ok(fee));
            && (p.Ok? ==> p.value.cost == FlatPrice(fork, op) + fee + p.value.callGas)
            && (fork.Frontier? ==> (p.Ok? <==> FlatPrice(fork, op) + fee + op.request < TWO_64) &&
                                   (p.Ok? ==> p.value.callGas == op.request))
  {
  }

  /** The memory fee is part of the price. Beyond it only instructions that end their frame can be free, and a call
      keeps more for itself than the stipend it adds. */
  lemma PricePositive(gt: GasTable, op: Instruction, available: uint64, fee: uint64)
    requires KnownTable(gt) && Valid(op) && PriceOf(gt, op, available, Ok(fee)).Ok? && (UsesMemory(op) || fee == 0)
    ensures var p := PriceOf(gt, op, available, Ok(fee)).value;
            && p.cost >= fee && (!Halts(op) ==> p.cost > fee)
            && (op.CreateContract? ==> p.cost >= fee + CREATE_GAS)
            && (op.CallContract? ==> p.cost > fee + p.callGas + if op.value then CALL_STIPEND else 0)
  {
  }

  /** A call whose base price is not covered is never affordable, although the gas for the callee
      is computed from a wrapped difference. */
  lemma CallUnaffordable(gt: GasTable, op: Instruction, available: uint64, memoryFee: Result<uint64, Error>)
    requires KnownTable(gt) && Valid(op) && op.CallContract?
    requires memoryFee.Ok? && memoryFee.value + CallBase(gt, op) > available
    ensures var p := PriceOf(gt, op, available, memoryFee);
            p.Err? || p.value.cost > available
  {
  }

  /** The gas of an affordable call after EIP-150 leaves at least one 64th with the caller. */
  lemma CallLeaves64th(gt: GasTable, op: Instruction, available: uint64, memoryFee: Result<uint64, Error>)
    requires KnownTable(gt) && Valid(op) && op.CallContract? && gt.createBySuicide > 0
    requires PriceOf(gt, op, available, memoryFee).Ok? && PriceOf(gt, op, available, memoryFee).value.cost <= available
    ensures var base := memoryFee.value + CallBase(gt, op);
            && base <= available
            && var rest := available - base;
               PriceOf(gt, op, available, memoryFee).value.callGas <= rest - rest / 64
  {
    CallGasBounds(gt, available, memoryFee.value + CallBase(gt, op), op.request);
  }
}
