/**
 * The class SynacorVM (SynacorVM.php) and the `run` method of each operation
 * class (one file per class under operations/), updating the VM's fields in place. Every method
 * is proved to leave the fields exactly as the corresponding function of
 * `Machine` says, so the properties proved in `MachineFacts` hold of them.
 */
module Synacor {
  import opened Wrappers
  import Arch
  import Machine
  import Bits

  type Cell = Machine.Cell

  class SynacorVM {
    var data: map<nat, nat>
    var location: Machine.Loc
    var reg: map<int, nat>
    var stack: seq<nat>
    var ops: map<int, Arch.Op>
    var returnValue: int
    var output: seq<nat>
    var exits: seq<Machine.Reason>

    /** The VM's fields as one value. */
    function State(): Machine.State
      reads this
    {
      Machine.State(data, location, reg, stack, returnValue, output, exits)
    }

    /** `__construct`: loads the little-endian words and registers every operation class. */
    constructor (bytes: seq<Machine.byte>)
      ensures State() == Machine.Init(bytes)
      ensures ops == Arch.OpTable()
    {
      var w := Machine.Words(bytes);
      data := map i: nat | i < |w| :: w[i];
      location := Machine.At(0);
      reg := map[0 := 0, 1 := 0, 2 := 0, 3 := 0, 4 := 0, 5 := 0, 6 := 0, 7 := 0];
      stack := [];
      returnValue := 0;
      output := [];
      exits := [];
      var table: map<int, Arch.Op> := map[];
      for i := 0 to |Arch.AllOps|
        invariant table == Arch.TableOf(Arch.AllOps[..i])
      {
        var c := Arch.AllOps[i];
        assert Arch.AllOps[..i + 1][..i] == Arch.AllOps[..i];
        table := table[Arch.Code(c) := c];
      }
      assert Arch.AllOps[..|Arch.AllOps|] == Arch.AllOps;
      ops := table;
    }

    /** `getLocation()`. */
    method GetLocation() returns (l: int)
      ensures l == Machine.GetLocation(State())
    {
      l := if location.At? then location.n else 0;
    }

    /** `getLength()`. */
    method GetLength() returns (n: nat)
      ensures n == Machine.GetLength(State())
    {
      n := |data|;
    }

    /** `haltvm($reason, $code)`. */
    method HaltVM(reason: Machine.Reason, code: int)
      modifies this
      ensures State() == Machine.HaltVM(old(State()), reason, code)
      ensures ops == old(ops)
    {
      exits := exits + [reason];
      returnValue := code;
      location := Machine.At(-1);
    }

    /** `push($item)`: returns the item pushed. */
    method Push(item: nat) returns (r: nat)
      modifies this
      ensures r == item
      ensures State() == Machine.Push(old(State()), item)
      ensures ops == old(ops)
    {
      stack := stack + [item];
      r := item;
    }

    /** `pop()`. */
    method Pop() returns (item: Option<nat>)
      modifies this
      ensures (item, State()) == Machine.Pop(old(State()))
      ensures ops == old(ops)
    {
      if stack == [] {
        item := None;
      } else {
        item := Some(stack[|stack| - 1]);
        stack := stack[..|stack| - 1];
      }
    }

    /** `jump($loc)`. */
    method Jump(loc: Machine.Loc)
      modifies this
      ensures State() == Machine.Jump(old(State()), loc)
      ensures ops == old(ops)
    {
      location := loc;
    }

    /** `set($reg, $val)`. */
    method Set(r: int, val: nat)
      modifies this
      ensures State() == Machine.Set(old(State()), r, val)
      ensures ops == old(ops)
    {
      if r < Arch.RegisterBase {
        HaltVM(Machine.BadSet, 1);
      }
      reg := reg[r - Arch.RegisterBase := val];
    }

    /** `get($reg)`. */
    method Get(v: nat) returns (val: nat)
      ensures val == Machine.Get(State(), v)
    {
      if v < Arch.RegisterBase {
        val := v;
      } else if v - Arch.RegisterBase in reg {
        val := reg[v - Arch.RegisterBase];
      } else {
        val := 0;
      }
    }

    /** `setData($loc, $val)`. */
    method SetData(loc: nat, val: nat)
      modifies this
      ensures State() == Machine.SetData(old(State()), loc, val)
      ensures ops == old(ops)
    {
      data := data[loc := val];
    }

    /** `getData($loc)`. */
    method GetData(loc: nat) returns (val: nat)
      ensures val == Machine.GetData(State(), loc)
    {
      val := if loc in data then data[loc] else 0;
    }

    /** `decode($v)`, as `get` on the cell's integer value. */
    method Decode(c: Cell) returns (val: nat)
      ensures val == Machine.Decode(State(), c)
    {
      val := Get(Machine.Int(c));
    }

    /** `asRegister($v)`: halts unless the cell is a register address. */
    method AsRegister(c: Cell)
      modifies this
      ensures State() == Machine.AsRegister(old(State()), c)
      ensures ops == old(ops)
    {
      if !Arch.IsRegisterAddress(Machine.Int(c)) {
        HaltVM(Machine.NotARegister, 1);
      }
    }

    /** `output($v)`. */
    method Output(v: nat)
      modifies this
      ensures State() == Machine.Output(old(State()), v)
      ensures ops == old(ops)
    {
      output := output + [v];
    }

    /** `getNext($count)`: the counting loop over the location. */
    method GetNext(count: nat) returns (cells: Option<seq<Cell>>)
      requires location.At? ==> location.n >= -1
      modifies this
      ensures (cells, State()) == Machine.GetNext(old(State()), count)
      ensures ops == old(ops)
    {
      var result: seq<Cell> := [];
      ghost var start := location;
      for i := 0 to count
        invariant location == Machine.Offset(start, i)
        invariant i > 0 ==> start != Machine.At(-1)
        invariant State() == old(State()).(location := location) && ops == old(ops)
        invariant |result| == i
        invariant forall j :: 0 <= j < i ==> result[j] == Machine.CellAt(data, Machine.Offset(start, j))
      {
        if location == Machine.At(-1) {
          return None;
        }
        var val := Machine.CellAt(data, location);
        result := result + [val];
        location := Machine.Advance(location);
      }
      if result == [] {
        return None;
      }
      ghost var (expected, _) := Machine.GetNext(old(State()), count);
      assert result == expected.value;
      cells := Some(result);
    }

    /** One iteration of `run`'s loop: fetch, fetch the operands, dispatch. */
    method Iterate() returns (it: Machine.Iteration)
      requires Machine.Valid(State()) && ops == Arch.OpTable()
      modifies this
      ensures it == Machine.Iterate(old(State()))
      ensures State() == (if it.Next? then it.state else it.result.final) && ops == old(ops)
    {
      var op := GetNext(1);
      if op.None? {
        return Machine.Stop(Machine.Returned(returnValue, State()));
      }
      var code := Machine.Int(op.value[0]);
      if code !in ops {
        HaltVM(Machine.BadOp(code), 1);
        return Machine.Next(State());
      }
      var o := ops[code];
      var d := GetNext(Arch.Args(o));
      var crashed := Exec(this, o, Machine.Operands(d, Arch.Args(o)));
      if crashed {
        return Machine.Stop(Machine.Crashed(State()));
      }
      return Machine.Next(State());
    }

    /** One pass of `run`'s loop with `fuel` passes left: either the run ends here with its result, or it goes on from the new state. */
    method Advance(fuel: nat) returns (stop: Option<Machine.RunResult>)
      requires Machine.Valid(State()) && ops == Arch.OpTable() && fuel >= 1
      modifies this
      ensures ops == old(ops)
      ensures stop.Some? ==> stop.value == Machine.RunLoop(old(State()), fuel) && State() == stop.value.final
      ensures stop.None? ==> Machine.Valid(State()) && Machine.RunLoop(old(State()), fuel) == Machine.RunLoop(State(), fuel - 1)
    {
      ghost var before := State();
      var it := Iterate();
      Machine.RunLoopStep(before, fuel);
      if it.Stop? {
        return Some(it.result);
      }
      return None;
    }

    /**
     * `run()`, for at most `fuel` iterations of its loop: returns -1 unless
     * the location is 0, otherwise fetches and dispatches until the VM
     * halts and returns its return value.
     */
    method Run(fuel: nat) returns (r: Machine.RunResult)
      requires Machine.Valid(State()) && ops == Arch.OpTable()
      modifies this
      ensures r == Machine.Run(old(State()), fuel)
      ensures State() == r.final
    {
      var l := GetLocation();
      if l != 0 {
        return Machine.Returned(-1, State());
      }
      var remaining := fuel;
      while remaining > 0
        invariant Machine.Valid(State()) && ops == Arch.OpTable()
        invariant Machine.RunLoop(old(State()), fuel) == Machine.RunLoop(State(), remaining)
        decreases remaining
      {
        var stop := Advance(remaining);
        if stop.Some? {
          return stop.value;
        }
        remaining := remaining - 1;
      }
      r := Machine.OutOfFuel(State());
    }
  }

  // ---- The operation classes: run($vm, $data) ----

  method OpHalt(vm: SynacorVM, data: seq<Cell>)
    modifies vm
    ensures vm.State() == Machine.OpHalt(old(vm.State()), data) && vm.ops == old(vm.ops)
  {
    vm.HaltVM(Machine.HaltOp, 1);
  }

  method OpSet(vm: SynacorVM, data: seq<Cell>)
    requires |data| == 2
    modifies vm
    ensures vm.State() == Machine.OpSet(old(vm.State()), data) && vm.ops == old(vm.ops)
  {
    var a, b := data[0], data[1];
    vm.AsRegister(a);
    var bv := vm.Decode(b);
    vm.Set(Machine.Int(a), bv);
  }

  method OpPush(vm: SynacorVM, data: seq<Cell>)
    requires |data| == 1
    modifies vm
    ensures vm.State() == Machine.OpPush(old(vm.State()), data) && vm.ops == old(vm.ops)
  {
    var av := vm.Decode(data[0]);
    var _ := vm.Push(av);
  }

  method OpPop(vm: SynacorVM, data: seq<Cell>)
    requires |data| == 1
    modifies vm
    ensures vm.State() == Machine.OpPop(old(vm.State()), data) && vm.ops == old(vm.ops)
  {
    var v := vm.Pop();
    if v.None? {
      vm.HaltVM(Machine.BadPop, 1);
    }
    var val := vm.Get(v.GetOr(0));
    vm.Set(Machine.Int(data[0]), val);
  }

  method OpEq(vm: SynacorVM, data: seq<Cell>)
    requires |data| == 3
    modifies vm
    ensures vm.State() == Machine.OpEq(old(vm.State()), data) && vm.ops == old(vm.ops)
  {
    var a := data[0];
    vm.AsRegister(a);
    var bv := vm.Decode(data[1]);
    var cv := vm.Decode(data[2]);
    vm.Set(Machine.Int(a), if bv == cv then 1 else 0);
  }

  method OpGt(vm: SynacorVM, data: seq<Cell>)
    requires |data| == 3
    modifies vm
    ensures vm.State() == Machine.OpGt(old(vm.State()), data) && vm.ops == old(vm.ops)
  {
    var a := data[0];
    vm.AsRegister(a);
    var bv := vm.Decode(data[1]);
    var cv := vm.Decode(data[2]);
    vm.Set(Machine.Int(a), if bv > cv then 1 else 0);
  }

  method OpJmp(vm: SynacorVM, data: seq<Cell>)
    requires |data| == 1
    modifies vm
    ensures vm.State() == Machine.OpJmp(old(vm.State()), data) && vm.ops == old(vm.ops)
  {
    var av := vm.Decode(data[0]);
    vm.Jump(Machine.At(av));
  }

  method OpJt(vm: SynacorVM, data: seq<Cell>)
    requires |data| == 2
    modifies vm
    ensures vm.State() == Machine.OpJt(old(vm.State()), data) && vm.ops == old(vm.ops)
  {
    var av := vm.Decode(data[0]);
    var bv := vm.Decode(data[1]);
    if av != 0 {
      vm.Jump(Machine.At(bv));
    }
  }

  method OpJf(vm: SynacorVM, data: seq<Cell>)
    requires |data| == 2
    modifies vm
    ensures vm.State() == Machine.OpJf(old(vm.State()), data) && vm.ops == old(vm.ops)
  {
    var av := vm.Decode(data[0]);
    var bv := vm.Decode(data[1]);
    if av == 0 {
      vm.Jump(Machine.At(bv));
    }
  }

  method OpAdd(vm: SynacorVM, data: seq<Cell>)
    requires |data| == 3
    modifies vm
    ensures vm.State() == Machine.OpAdd(old(vm.State()), data) && vm.ops == old(vm.ops)
  {
    var a := data[0];
    vm.AsRegister(a);
    var bv := vm.Decode(data[1]);
    var cv := vm.Decode(data[2]);
    vm.Set(Machine.Int(a), (bv + cv) % Arch.Modulus);
  }

  method OpMult(vm: SynacorVM, data: seq<Cell>)
    requires |data| == 3
    modifies vm
    ensures vm.State() == Machine.OpMult(old(vm.State()), data) && vm.ops == old(vm.ops)
  {
    var a := data[0];
    vm.AsRegister(a);
    var bv := vm.Decode(data[1]);
    var cv := vm.Decode(data[2]);
    vm.Set(Machine.Int(a), (bv * cv) % Arch.Modulus);
  }

  /** Reports a zero divisor, where PHP's `%` throws, instead of writing a result. */
  method OpMod(vm: SynacorVM, data: seq<Cell>) returns (byZero: bool)
    requires |data| == 3
    modifies vm
    ensures byZero == Machine.OpMod(old(vm.State()), data).ModuloByZero?
    ensures vm.State() == Machine.OpMod(old(vm.State()), data).state && vm.ops == old(vm.ops)
  {
    var a := data[0];
    vm.AsRegister(a);
    var bv := vm.Decode(data[1]);
    var cv := vm.Decode(data[2]);
    if cv == 0 {
      return true;
    }
    vm.Set(Machine.Int(a), bv % cv);
    byZero := false;
  }

  method OpAnd(vm: SynacorVM, data: seq<Cell>)
    requires |data| == 3
    modifies vm
    ensures vm.State() == Machine.OpAnd(old(vm.State()), data) && vm.ops == old(vm.ops)
  {
    var a := data[0];
    vm.AsRegister(a);
    var bv := vm.Decode(data[1]);
    var cv := vm.Decode(data[2]);
    vm.Set(Machine.Int(a), Bits.And(bv, cv));
  }

  method OpOr(vm: SynacorVM, data: seq<Cell>)
    requires |data| == 3
    modifies vm
    ensures vm.State() == Machine.OpOr(old(vm.State()), data) && vm.ops == old(vm.ops)
  {
    var a := data[0];
    vm.AsRegister(a);
    var bv := vm.Decode(data[1]);
    var cv := vm.Decode(data[2]);
    vm.Set(Machine.Int(a), Bits.Or(bv, cv));
  }

  method OpNot(vm: SynacorVM, data: seq<Cell>)
    requires |data| == 2
    modifies vm
    ensures vm.State() == Machine.OpNot(old(vm.State()), data) && vm.ops == old(vm.ops)
  {
    var a := data[0];
    vm.AsRegister(a);
    var bv := vm.Decode(data[1]);
    vm.Set(Machine.Int(a), Bits.Not15(bv));
  }

  method OpRmem(vm: SynacorVM, data: seq<Cell>)
    requires |data| == 2
    modifies vm
    ensures vm.State() == Machine.OpRmem(old(vm.State()), data) && vm.ops == old(vm.ops)
  {
    var a := data[0];
    vm.AsRegister(a);
    var bv := vm.Decode(data[1]);
    var val := vm.GetData(bv);
    vm.Set(Machine.Int(a), val);
  }

  method OpWmem(vm: SynacorVM, data: seq<Cell>)
    requires |data| == 2
    modifies vm
    ensures vm.State() == Machine.OpWmem(old(vm.State()), data) && vm.ops == old(vm.ops)
  {
    var av := vm.Decode(data[0]);
    var bv := vm.Decode(data[1]);
    vm.SetData(av, bv);
  }

  method OpCall(vm: SynacorVM, data: seq<Cell>)
    requires |data| == 1 && Machine.GetLocation(vm.State()) >= 0
    modifies vm
    ensures vm.State() == Machine.OpCall(old(vm.State()), data) && vm.ops == old(vm.ops)
  {
    var av := vm.Decode(data[0]);
    var l := vm.GetLocation();
    var _ := vm.Push(l);
    vm.Jump(Machine.At(av));
  }

  method OpRet(vm: SynacorVM, data: seq<Cell>)
    modifies vm
    ensures vm.State() == Machine.OpRet(old(vm.State()), data) && vm.ops == old(vm.ops)
  {
    var v := vm.Pop();
    if v.None? {
      vm.HaltVM(Machine.EmptyStackForRet, 1);
    }
    vm.Jump(if v.Some? then Machine.At(v.value) else Machine.Null);
  }

  method OpOut(vm: SynacorVM, data: seq<Cell>)
    requires |data| == 1
    modifies vm
    ensures vm.State() == Machine.OpOut(old(vm.State()), data) && vm.ops == old(vm.ops)
  {
    var av := vm.Decode(data[0]);
    vm.Output(av);
  }

  method OpIn(vm: SynacorVM, data: seq<Cell>)
    modifies vm
    ensures vm.State() == Machine.OpIn(old(vm.State()), data) && vm.ops == old(vm.ops)
  {
    vm.HaltVM(Machine.WantedUserInput, 1);
  }

  /** `$this->ops[$op]->run($this, $data)`: reports a zero divisor of `mod`. */
  method Exec(vm: SynacorVM, op: Arch.Op, data: seq<Cell>) returns (byZero: bool)
    requires Machine.Valid(vm.State()) && Machine.GetLocation(vm.State()) >= 0 && |data| == Arch.Args(op)
    modifies vm
    ensures byZero == Machine.Exec(old(vm.State()), op, data).ModuloByZero?
    ensures vm.State() == Machine.Exec(old(vm.State()), op, data).state && vm.ops == old(vm.ops)
  {
    byZero := false;
    match op
    case Halt => OpHalt(vm, data);
    case Set => OpSet(vm, data);
    case Push => OpPush(vm, data);
    case Pop => OpPop(vm, data);
    case Eq => OpEq(vm, data);
    case Gt => OpGt(vm, data);
    case Jmp => OpJmp(vm, data);
    case Jt => OpJt(vm, data);
    case Jf => OpJf(vm, data);
    case Add => OpAdd(vm, data);
    case Mult => OpMult(vm, data);
    case Mod => byZero := OpMod(vm, data);
    case And => OpAnd(vm, data);
    case Or => OpOr(vm, data);
    case Not => OpNot(vm, data);
    case Rmem => OpRmem(vm, data);
    case Wmem => OpWmem(vm, data);
    case Call => OpCall(vm, data);
    case Ret => OpRet(vm, data);
    case Out => OpOut(vm, data);
    case In => OpIn(vm, data);
  }
}
