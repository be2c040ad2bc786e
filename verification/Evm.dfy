/** Frames of the EVM and the gas that moves between them (core/vm/evm.go, core/vm/interpreter.go,
    core/vm/instructions.go, core/vm/contract.go). Code, stack and state are left open: every choice
    they could make is a free choice here, so the contracts hold of all programs and all states. */
module Evm {
  import opened Common
  import opened EvmMemory
  import opened EvmGas

  const CALL_CREATE_DEPTH := 1024
  const CREATE_DATA_GAS: uint64 := 200

  /** How a frame ended. */
  datatype Status = Fine | Reverted | CodeStoreOutOfGas | Failed

  /** Whether a frame was entered, and if so how it ended and with how much gas. */
  datatype Outcome = NotRun | Ran(end: Status, gas: uint64)

  /** A precompiled contract on its input: what it costs, and whether it fails. */
  datatype Precompiled = Precompiled(required: uint64, fails: bool)

  /** What a frame depends on besides its code: the balance of the caller, the account that is called, whether it has
      no code, the value, whether the address of a new contract is taken, and the length of what the frame returns. */
  datatype World =
    World(canTransfer: bool, present: bool, precompiled: Option<Precompiled>, empty: bool, zeroValue: bool, taken: bool,
          returned: uint64)

  /** What the code and the stack come to in one round: an instruction, whether its checks refuse it, the memory it
      needs, and whether executing it fails. */
  datatype Turn = Turn(op: Instruction, refused: bool, memSize: nat, fails: bool)

  /** The account of one round of the interpreter: what was priced, and what executing it gave away and got back. */
  datatype Round = Round(fee: uint64, price: Price, given: uint64, back: uint64)

  class Contract {
    var gas: uint64

    constructor (gas: uint64)
      ensures this.gas == gas
    {
      this.gas := gas;
    }

    method UseGas(amount: uint64) returns (ok: bool)
      modifies this
      ensures ok <==> amount <= old(gas)
      ensures gas == if ok then old(gas) - amount else old(gas)
    {
      if gas < amount {
        return false;
      }
      gas := gas - amount;
      return true;
    }
  }

  /** The memory has been paid for out of the budget, of which gas is left. */
  ghost predicate PaidFrom(words: nat, gas: uint64, budget: nat) {
    words * 32 <= EXACT_LIMIT && Fee(words) + gas <= budget
  }

  class EVM {
    var depth: nat
    var callGasTemp: uint64
    const gasTable: GasTable
    const eip150: bool
    const eip158: bool
    const homestead: bool
    const noRecursion: bool

    constructor (gasTable: GasTable, eip150: bool, eip158: bool, homestead: bool, noRecursion: bool)
      requires KnownTable(gasTable)
      ensures Ready() && depth == 0 && this.gasTable == gasTable && this.noRecursion == noRecursion
      ensures this.eip150 == eip150 && this.eip158 == eip158 && this.homestead == homestead
    {
      depth, callGasTemp := 0, 0;
      this.gasTable, this.eip150, this.eip158, this.homestead := gasTable, eip150, eip158, homestead;
      this.noRecursion := noRecursion;
    }

    ghost predicate Ready()
      reads this
    {
      KnownTable(gasTable) && depth <= CALL_CREATE_DEPTH + 1
    }

    /** Call, CallCode, DelegateCall and StaticCall. The frame is entered exactly when the checks before it pass. What
        it ended with comes back after a normal end and after a revert; every other end takes it. */
    method CallFrame(kind: CallKind, gas: uint64, world: World)
        returns (left: uint64, status: Status, ghost ran: Outcome)
      requires Ready()
      modifies this
      ensures Ready() && depth == old(depth)
      ensures left <= gas
      ensures ran.Ran? <==>
                && !(noRecursion && old(depth) > 0) && old(depth) <= 1024
                && (kind.Call? || kind.CallCode? ==> world.canTransfer)
                && (kind.Call? ==> world.present || world.precompiled.Some? || !eip158 || !world.zeroValue)
      ensures ran.Ran? ==> status == ran.end && ran.gas <= gas
      ensures ran.Ran? ==> left == if status.Fine? || status.Reverted? then ran.gas else 0
      ensures ran.Ran? && world.precompiled.None? && world.empty ==> status.Fine? && left == gas
      ensures ran.NotRun? ==> left == gas && (status.Fine? || status.Failed?)
      ensures ran.NotRun? && status.Failed? <==>
                && !(noRecursion && old(depth) > 0)
                && (old(depth) > 1024 || ((kind.Call? || kind.CallCode?) && !world.canTransfer))
      decreases CALL_CREATE_DEPTH + 2 - depth, 3
    {
      ran := NotRun;
      if noRecursion && depth > 0 {
        return gas, Fine, ran;
      }
      if depth > CALL_CREATE_DEPTH {
        return gas, Failed, ran;
      }
      if (kind.Call? || kind.CallCode?) && !world.canTransfer {
        return gas, Failed, ran;
      }
      if kind.Call? && !world.present && world.precompiled.None? && eip158 && world.zeroValue {
        return gas, Fine, ran;
      }
      var contract := new Contract(gas);
      status, ran := RunContract(contract, world);
      if !status.Fine? && !status.Reverted? {
        var ok := contract.UseGas(contract.gas);
      }
      left := contract.gas;
    }

    /** Create: the same for deployment code, which also pays for the code it leaves. */
    method CreateFrame(gas: uint64, world: World)
        returns (left: uint64, status: Status, ghost ran: Outcome)
      requires Ready()
      modifies this
      ensures Ready() && depth == old(depth)
      ensures left <= gas
      ensures ran.Ran? <==>
                && !(noRecursion && old(depth) > 0) && old(depth) <= 1024
                && world.canTransfer && !world.taken
      ensures ran.NotRun? ==> left == if old(depth) <= 1024 && world.canTransfer && world.taken then 0 else gas
      ensures ran.NotRun? ==> status == if old(depth) <= 1024 && world.canTransfer && !world.taken then Fine else Failed
      ensures ran.Ran? ==> ran.gas <= gas && !ran.end.CodeStoreOutOfGas?
      ensures ran.Ran? && ran.end.Reverted? ==> status.Reverted? && left == ran.gas
      ensures ran.Ran? && ran.end.Failed? ==> status.Failed? && left == 0
      ensures ran.Ran? && ran.end.Fine? && eip158 && world.returned > 24576 ==> status.Failed? && left == 0
      ensures ran.Ran? && ran.end.Fine? && !(eip158 && world.returned > 24576) ==>
                var price := world.returned * 200 % TWO_64;
                if price <= ran.gas then status.Fine? && left == ran.gas - price
                else status.CodeStoreOutOfGas? && left == if homestead then 0 else ran.gas
      decreases CALL_CREATE_DEPTH + 2 - depth, 3
    {
      ran := NotRun;
      if depth > CALL_CREATE_DEPTH {
        return gas, Failed, ran;
      }
      if !world.canTransfer {
        return gas, Failed, ran;
      }
      if world.taken {
        return 0, Failed, ran;
      }
      if noRecursion && depth > 0 {
        return gas, Fine, ran;
      }
      var contract := new Contract(gas);
      status, ran := RunContract(contract, world);
      var exceeded := eip158 && world.returned > 24576;
      if status.Fine? && !exceeded {
        var ok := contract.UseGas(world.returned * CREATE_DATA_GAS % TWO_64);
        if !ok {
          status := CodeStoreOutOfGas;
        }
      }
      if exceeded || (!status.Fine? && (homestead || !status.CodeStoreOutOfGas?)) {
        if !status.Reverted? {
          var ok := contract.UseGas(contract.gas);
        }
      }
      if exceeded && status.Fine? {
        status := Failed;
      }
      left := contract.gas;
    }

    /** run: a precompiled contract or the interpreter. */
    method RunContract(contract: Contract, world: World)
        returns (status: Status, ghost ran: Outcome)
      requires Ready() && depth <= CALL_CREATE_DEPTH
      modifies this, contract
      ensures Ready() && depth == old(depth) && contract.gas <= old(contract.gas)
      ensures !status.CodeStoreOutOfGas?
      ensures world.precompiled.Some? ==>
                var required, fails := world.precompiled.value.required, world.precompiled.value.fails;
                var paid := required <= old(contract.gas);
                && contract.gas == (if paid then old(contract.gas) - required else old(contract.gas))
                && status == if paid && !fails then Fine else Failed
      ensures world.precompiled.None? && world.empty ==> status.Fine? && contract.gas == old(contract.gas)
      ensures ran == Ran(status, contract.gas)
      decreases CALL_CREATE_DEPTH + 2 - depth, 2
    {
      if world.precompiled.Some? {
        var ok := contract.UseGas(world.precompiled.value.required);
        status := if ok && !world.precompiled.value.fails then Fine else Failed;
      } else {
        ghost var words, last;
        status, words, last := Run(contract, world.empty);
      }
      ran := Ran(status, contract.gas);
    }

    /** The interpreter loop. It ends, because every round that goes on has cost gas. A frame with less gas than the
        bound never has memory whose price wraps, and has paid for all its memory. It ends as its last round does, and
        normally without code or when it is told to stop. */
    method Run(contract: Contract, empty: bool) returns (status: Status, ghost words: nat, ghost last: Option<Status>)
      requires Ready() && depth <= CALL_CREATE_DEPTH
      modifies this, contract
      ensures Ready() && depth == old(depth) && contract.gas <= old(contract.gas)
      ensures !status.CodeStoreOutOfGas?
      ensures old(contract.gas) < WRAP_GAS ==> PaidFrom(words, contract.gas, old(contract.gas))
      ensures status == (if last.Some? then last.value else Fine)
      ensures empty ==> last.None? && contract.gas == old(contract.gas)
      decreases CALL_CREATE_DEPTH + 2 - depth, 1
    {
      hide Fee, PaidFrom;
      depth := depth + 1;
      var mem := new Memory();
      var abort: bool := *;
      status, words, last := Fine, 0, None;
      NothingPaid(contract.gas);
      while !empty && !abort
        invariant Ready() && depth == old(depth) + 1 && contract.gas <= old(contract.gas)
        invariant old(contract.gas) < WRAP_GAS ==> mem.Paid() && PaidFrom(words, contract.gas, old(contract.gas))
        invariant words == |mem.store| / 32 && (empty ==> contract.gas == old(contract.gas))
        decreases contract.gas
      {
        ghost var round;
        var end, size;
        var turn: Turn := *;
        end, size, round := Iterate(turn, contract, mem, old(contract.gas));
        words := |mem.store| / 32;
        if end.Some? {
          depth := depth - 1;
          return end.value, words, end;
        }
        abort := *;
      }
      depth := depth - 1;
    }

    /** The memory size an instruction asks for, in whole words, unless it overflows. */
    method MemoryNeeded(memSize: nat) returns (r: Option<uint64>)
      ensures r == if 32 * ((memSize + 31) / 32) < TWO_64 then Some(32 * ((memSize + 31) / 32)) else None
    {
      if memSize >= TWO_64 {
        return None;
      }
      var bytes := SafeMul(ToWordSize(memSize), 32);
      return if bytes.1 then None else Some(bytes.0);
    }

    /** The paid half of a round: find the memory the instruction needs, price it, pay, and grow the memory. */
    method Charge(op: Instruction, memSize: nat, contract: Contract, mem: Memory, ghost budget: nat)
        returns (ok: bool, memorySize: uint64, price: Price, ghost fee: Result<uint64, Error>)
      requires Ready() && EvmGas.Valid(op)
      modifies this`callGasTemp, contract, mem
      ensures memorySize % 32 == 0 && (old(|mem.store|) % 32 == 0 ==> |mem.store| % 32 == 0)
      ensures fee.Ok? <==> UsesMemory(op) ==> memSize <= 0xff_ffff_ffe0
      ensures fee.Ok? ==> memorySize == if UsesMemory(op) then 32 * ((memSize + 31) / 32) else 0
      ensures ok <==>
              var p := PriceOf(gasTable, op, old(contract.gas), fee);
              p.Ok? && p.value.cost <= old(contract.gas)
      ensures ok ==> |mem.store| == if memorySize > old(|mem.store|) then memorySize else old(|mem.store|)
      ensures ok ==> PriceOf(gasTable, op, old(contract.gas), fee) == Ok(price) && callGasTemp == price.callGas
      ensures contract.gas == if ok then old(contract.gas) - price.cost else old(contract.gas)
      ensures !UsesMemory(op) ==> fee == Ok(0)
      ensures !ok ==> mem.store == old(mem.store)
      ensures budget < WRAP_GAS && old(mem.Paid() && PaidFrom(|mem.store| / 32, contract.gas, budget)) && ok ==>
                && mem.Paid() && fee.Ok? && fee.value <= old(contract.gas)
                && fee.value == Fee(|mem.store| / 32) - Fee(old(|mem.store|) / 32)
                && PaidFrom(|mem.store| / 32, old(contract.gas) - fee.value, budget)
    {
      hide Fee, PriceOf, EvmGas.Valid, EvmGas.Halts, UsesMemory, KnownTable;
      ok, memorySize, price, fee := false, 0, Price(0, 0), Err(GasOverflow);
      if UsesMemory(op) {
        var needed := MemoryNeeded(memSize);
        if needed.None? {
          NoFeeNoPrice(gasTable, op, contract.gas, fee);
          return;
        }
        memorySize := needed.value;
      }
      var memoryFee := mem.ExactFee(memorySize, contract.gas);
      fee := memoryFee;
      var priced := PriceOf(gasTable, op, contract.gas, memoryFee);
      if priced.Err? {
        return;
      }
      ghost var f := FeePart(gasTable, op, contract.gas, memoryFee);
      callGasTemp, price := priced.value.callGas, priced.value;
      ok := contract.UseGas(price.cost);
      if ok && memorySize > 0 {
        mem.Resize(memorySize);
      }
    }

    /** One round of the loop: price, pay, grow the memory, execute. It fails exactly when the instruction is unknown or
        refused, cannot be paid for, or fails in itself. Below the wrapping bound the memory part of the price is the
        difference of the two fees. */
    method Iterate(turn: Turn, contract: Contract, mem: Memory, ghost budget: nat)
        returns (end: Option<Status>, memorySize: uint64, ghost round: Round)
      requires Ready()
      modifies this, contract, mem
      ensures Ready() && depth == old(depth)
      ensures contract.gas <= old(contract.gas)
      ensures end.None? ==> contract.gas < old(contract.gas)
      ensures end.Some? ==> !end.value.CodeStoreOutOfGas?
      ensures EvmGas.Valid(turn.op) ==>
                var tooMuch := UsesMemory(turn.op) && turn.memSize > 0xff_ffff_ffe0;
                var fee := if tooMuch then Err(GasOverflow) else Ok(round.fee);
                var p := PriceOf(gasTable, turn.op, old(contract.gas), fee);
                var paid := !turn.refused && p.Ok? && p.value.cost <= old(contract.gas);
                && (paid ==> p.value == round.price)
                && (paid ==> contract.gas == old(contract.gas) - round.price.cost - round.given + round.back)
                && (end == Some(Failed) <==>
                    !paid || (turn.fails && !turn.op.CallContract? && !turn.op.CreateContract?))
      ensures end != Some(Failed) ==>
                EvmGas.Valid(turn.op) &&
                end == if turn.op.RevertData? then Some(Reverted) else if Halts(turn.op) then Some(Fine) else None
      ensures end != Some(Failed) ==> |mem.store| >= old(|mem.store|) && |mem.store| >= memorySize
      ensures memorySize % 32 == 0 && (old(|mem.store|) % 32 == 0 ==> |mem.store| % 32 == 0)
      ensures budget < WRAP_GAS && old(mem.Paid() && PaidFrom(|mem.store| / 32, contract.gas, budget)) ==>
                && PaidFrom(|mem.store| / 32, contract.gas, budget)
                && (end != Some(Failed) ==>
                      mem.Paid() && round.fee == Fee(|mem.store| / 32) - Fee(old(|mem.store|) / 32))
      decreases CALL_CREATE_DEPTH + 2 - depth, 6
    {
      hide Fee, PriceOf, EvmGas.Valid;
      end, memorySize, round := Some(Failed), 0, Round(0, Price(0, 0), 0, 0);
      if !EvmGas.Valid(turn.op) || turn.refused {
        return;
      }
      var ok, price;
      ghost var fee, given, back;
      ok, memorySize, price, fee := Charge(turn.op, turn.memSize, contract, mem, budget);
      if fee.Ok? {
        round := round.(fee := fee.value);
      }
      if !ok {
        if UsesMemory(turn.op) {
          NoFeeNoPrice(gasTable, turn.op, contract.gas, Err(GasOverflow));
        }
        return;
      }
      ghost var f := FeePart(gasTable, turn.op, old(contract.gas), fee);
      var fails;
      fails, given, back := Execute(turn.op, turn.fails, contract, price.cost - f);
      round := Round(f, price, given, back);
      if fails {
        return;
      }
      end := if turn.op.RevertData? then Some(Reverted) else if Halts(turn.op) then Some(Fine) else None;
    }

    /** Executing moves gas only for calls and creations, and brings back less than was paid. */
    method Execute(op: Instruction, wouldFail: bool, contract: Contract, ghost paid: uint64)
        returns (fails: bool, ghost given: uint64, ghost back: uint64)
      requires Ready() && EvmGas.Valid(op) && contract.gas + paid < TWO_64
      requires op.CallContract? ==> paid > callGasTemp + if op.value then CALL_STIPEND else 0
      requires op.CreateContract? ==> paid > 0
      modifies this, contract
      ensures Ready() && depth == old(depth)
      ensures fails <==> wouldFail && !op.CallContract? && !op.CreateContract?
      ensures given <= old(contract.gas) && contract.gas == old(contract.gas) - given + back
      ensures !op.CreateContract? ==> given == 0
      ensures op.CreateContract? ==>
                back <= given == if eip150 then old(contract.gas) - old(contract.gas) / 64 else old(contract.gas)
      ensures op.CallContract? ==> back <= old(callGasTemp) + if op.value then CALL_STIPEND else 0
      ensures !op.CallContract? && !op.CreateContract? ==> back == 0
      ensures contract.gas <= old(contract.gas) + paid
      ensures !Halts(op) && paid > 0 ==> contract.gas < old(contract.gas) + paid
      ensures Halts(op) ==> contract.gas == old(contract.gas)
      decreases CALL_CREATE_DEPTH + 2 - depth, 5
    {
      ghost var ran;
      given, back, fails := 0, 0, false;
      match op
      case CallContract(kind, _, value, _) =>
        var gas;
        gas, back, ran := OpCall(kind, value, contract, paid);
      case CreateContract =>
        given, back, ran := OpCreate(contract);
      case _ =>
        fails := wouldFail;
    }

    /** opCall, opCallCode, opDelegateCall, opStaticCall: the caller gets back what the frame left, and neither the
        stipend nor the returned gas overflows. */
    method OpCall(kind: CallKind, value: bool, contract: Contract, ghost paid: uint64)
        returns (gas: uint64, ghost back: uint64, ghost ran: Outcome)
      requires Ready() && contract.gas + paid < TWO_64
      requires paid > callGasTemp + if value then CALL_STIPEND else 0
      modifies this, contract
      ensures Ready() && depth == old(depth)
      ensures gas == old(callGasTemp) + if value then 2300 else 0
      ensures contract.gas == old(contract.gas) + back && back <= gas < paid
      ensures ran.NotRun? ==> back == gas
      ensures ran.Ran? ==> back == if ran.end.Fine? || ran.end.Reverted? then ran.gas else 0
      decreases CALL_CREATE_DEPTH + 2 - depth, 4
    {
      gas := callGasTemp;
      if value {
        gas := gas + CALL_STIPEND;
      }
      var world: World := *;
      var returnGas, status;
      returnGas, status, ran := CallFrame(kind, gas, world);
      contract.gas := contract.gas + returnGas;
      back := returnGas;
    }

    /** opCreate: all gas, or all but a 64th, goes to the new frame, and what that leaves comes back. */
    method OpCreate(contract: Contract) returns (ghost given: uint64, ghost back: uint64, ghost ran: Outcome)
      requires Ready()
      modifies this, contract
      ensures Ready() && depth == old(depth)
      ensures given == if eip150 then old(contract.gas) - old(contract.gas) / 64 else old(contract.gas)
      ensures back <= given && contract.gas == old(contract.gas) - given + back
      ensures ran.NotRun? ==> back == given || back == 0
      ensures ran.Ran? && ran.end.Reverted? ==> back == ran.gas
      ensures ran.Ran? && ran.end.Failed? ==> back == 0
      decreases CALL_CREATE_DEPTH + 2 - depth, 4
    {
      var gas := contract.gas;
      if eip150 {
        gas := gas - gas / 64;
      }
      var ok := contract.UseGas(gas);
      var world: World := *;
      var returnGas, status;
      returnGas, status, ran := CreateFrame(gas, world);
      contract.gas := contract.gas + returnGas;
      given, back := gas, returnGas;
    }
  }

  lemma NothingPaid(gas: uint64)
    ensures gas < WRAP_GAS ==> PaidFrom(0, gas, gas)
    ensures Fee(0) == 0
  {
  }

  lemma NoFeeNoPrice(gt: GasTable, op: Instruction, available: uint64, fee: Result<uint64, Error>)
    requires KnownTable(gt) && EvmGas.Valid(op) && UsesMemory(op) && fee.Err?
    ensures PriceOf(gt, op, available, fee).Err?
  {
  }

  /** The memory fee within a price, and what the rest of it covers. */
  lemma FeePart(gt: GasTable, op: Instruction, available: uint64, fee: Result<uint64, Error>) returns (f: uint64)
    requires KnownTable(gt) && EvmGas.Valid(op) && PriceOf(gt, op, available, fee).Ok?
    requires UsesMemory(op) || fee == Ok(0)
    ensures fee == Ok(f)
    ensures var p := PriceOf(gt, op, available, fee).value;
            && p.cost >= f && (!Halts(op) ==> p.cost > f) && (op.CreateContract? ==> p.cost > f)
            && (op.CallContract? ==> p.cost - f > p.callGas + if op.value then CALL_STIPEND else 0)
  {
    f := fee.value;
    PricePositive(gt, op, available, f);
  }
}
