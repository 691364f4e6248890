/**
 * What the Synacor VM's operations promise, proved about the functions of
 * `Machine`: the accessors' round trips, the effect of each operation class
 * on a well-formed instruction, and how `run` ends.
 */
module MachineFacts {
  import opened Wrappers
  import Arch
  import opened Machine
  import Bits

  /** An operand cell holding a register address 32768 .. 32775. */
  predicate IsRegisterCell(c: Cell)
  {
    c.Some? && Arch.IsRegisterAddress(c.value)
  }

  /** The register slot a register operand names. */
  function Slot(c: Cell): int
  {
    Int(c) - Arch.RegisterBase
  }

  // ---- Accessors ----

  /** The stack is last-in first-out: `pop` after `push(x)` gives x back and restores the stack. */
  lemma PushThenPop(s: State, x: nat)
    ensures Pop(Push(s, x)) == (Some(x), s)
  {
    assert Push(s, x).stack[..|s.stack|] == s.stack;
  }

  /** `pop` removes exactly the top item; on an empty stack it gives null and changes nothing. */
  lemma PopTop(s: State)
    ensures s.stack == [] ==> Pop(s) == (None, s)
    ensures s.stack != [] ==>
      && Pop(s).0 == Some(s.stack[|s.stack| - 1])
      && Pop(s).1.stack + [s.stack[|s.stack| - 1]] == s.stack
      && Pop(s).1 == s.(stack := Pop(s).1.stack)
  {
  }

  /** `get` is the identity on literals and reads register v - 32768 otherwise. */
  lemma GetValue(s: State, v: nat)
    requires Valid(s)
    ensures v < Arch.RegisterBase ==> Get(s, v) == v
    ensures Arch.IsRegisterAddress(v) ==> Get(s, v) == s.reg[v - Arch.RegisterBase]
  {
  }

  /** `set` on a register address changes that one register and nothing else. */
  lemma SetThenGet(s: State, r: int, val: nat)
    requires Arch.IsRegisterAddress(r)
    ensures Set(s, r, val) == s.(reg := s.reg[r - Arch.RegisterBase := val])
    ensures Get(Set(s, r, val), r) == val
    ensures forall q: nat :: q != r ==> Get(Set(s, r, val), q) == Get(s, q)
  {
  }

  /** `set` below 32768 halts the VM with 'Bad Set' and still performs the write. */
  lemma SetBadAddress(s: State, r: int, val: nat)
    requires r < Arch.RegisterBase
    ensures Set(s, r, val).location == At(-1)
    ensures Set(s, r, val).returnValue == 1
    ensures Set(s, r, val).exits == s.exits + [BadSet]
    ensures Set(s, r, val).reg == s.reg[r - Arch.RegisterBase := val]
  {
  }

  /** `getData` after `setData` at the same location reads the value; other cells are unchanged. */
  lemma SetDataThenGetData(s: State, loc: nat, val: nat, other: nat)
    ensures GetData(SetData(s, loc, val), loc) == val
    ensures other != loc ==> GetData(SetData(s, loc, val), other) == GetData(s, other)
  {
  }

  /**
   * `getNext(n)` on a running VM returns n cells (FALSE past the end of
   * memory) and advances the location by exactly n; when the VM is halted or
   * n is 0 it returns FALSE and does not move.
   */
  lemma GetNextReads(s: State, count: nat)
    requires Valid(s)
    ensures count == 0 || s.location == At(-1) ==> GetNext(s, count) == (None, s)
    ensures count > 0 && s.location != At(-1) ==>
      var (cells, t) := GetNext(s, count);
      && cells.Some? && |cells.value| == count
      && t == s.(location := Offset(s.location, count))
      && forall i :: 0 <= i < count ==> cells.value[i] == CellAt(s.data, Offset(s.location, i))
    ensures forall n: nat, i: nat :: s.location == At(n) && i < count && n + i !in s.data ==>
      GetNext(s, count).0.value[i] == None
  {
  }

  // ---- The operation classes on well-formed operands ----

  /** `halt`: the return value becomes 1, the location -1; registers, memory and stack stay. */
  lemma HaltEffect(s: State)
    ensures OpHalt(s, []) == s.(returnValue := 1, location := At(-1), exits := s.exits + [HaltOp])
  {
  }

  /** Writing through a register operand changes that register and nothing else. */
  lemma WriteRegister(s: State, a: Cell, v: nat)
    requires IsRegisterCell(a)
    ensures AsRegister(s, a) == s
    ensures Set(s, Int(a), v) == s.(reg := s.reg[Slot(a) := v])
  {
  }

  /** `set a b`: register a receives decode(b); nothing else changes. */
  lemma SetEffect(s: State, a: Cell, b: Cell)
    requires IsRegisterCell(a)
    ensures OpSet(s, [a, b]) == s.(reg := s.reg[Slot(a) := Decode(s, b)])
    ensures IsRegisterCell(b) ==> OpSet(s, [a, b]).reg[Slot(a)] == Get(s, Int(b))
  {
  }

  /** The operations whose first operand goes through `asRegister`. */
  predicate ChecksDestination(op: Arch.Op)
  {
    op.Set? || op.Eq? || op.Gt? || op.Add? || op.Mult? || op.Mod? || op.And? || op.Or? || op.Not? || op.Rmem?
  }

  /**
   * A destination that is not a register address halts the VM: location -1,
   * return value 1 and NotARegister as the next exit reason, whatever `set`
   * does afterwards (for `mod`, also when the division then throws).
   */
  lemma NonRegisterDestinationHalts(s: State, op: Arch.Op, data: seq<Cell>)
    requires Valid(s) && GetLocation(s) >= 0 && |data| == Arch.Args(op)
    requires ChecksDestination(op) && !IsRegisterCell(data[0])
    ensures |Exec(s, op, data).state.exits| > |s.exits|
    ensures Exec(s, op, data).state.location == At(-1)
    ensures Exec(s, op, data).state.returnValue == 1
    ensures Exec(s, op, data).state.exits[|s.exits|] == NotARegister
  {
    var h := HaltVM(s, NotARegister, 1);
    assert AsRegister(s, data[0]) == h;
    forall v: nat
      ensures Set(h, Int(data[0]), v).location == At(-1) && Set(h, Int(data[0]), v).returnValue == 1
      ensures |Set(h, Int(data[0]), v).exits| > |s.exits| && Set(h, Int(data[0]), v).exits[|s.exits|] == NotARegister
    {
    }
  }

  /** `push a`: the stack grows by decode(a) on top; nothing else changes. */
  lemma PushEffect(s: State, a: Cell)
    ensures OpPush(s, [a]) == s.(stack := s.stack + [Decode(s, a)])
  {
  }

  /** `push a` then `pop r` stores decode(a) (a literal) in r and restores the stack. */
  lemma PushThenPopOp(s: State, a: Cell, r: Cell)
    requires IsRegisterCell(r) && Decode(s, a) < Arch.RegisterBase
    ensures OpPop(OpPush(s, [a]), [r]) == s.(reg := s.reg[Slot(r) := Decode(s, a)])
  {
    PushThenPop(s, Decode(s, a));
  }

  /** `pop r` stores get(top) in r: a popped register address is resolved again. */
  lemma PopEffect(s: State, r: Cell)
    requires IsRegisterCell(r) && s.stack != []
    ensures var top := s.stack[|s.stack| - 1];
      OpPop(s, [r]) == s.(stack := s.stack[..|s.stack| - 1], reg := s.reg[Slot(r) := Get(s, top)])
  {
  }

  /** `pop r` on an empty stack halts with 'Bad Pop' and still writes get(null) = 0 into r. */
  lemma PopEmptyHalts(s: State, r: Cell)
    requires IsRegisterCell(r) && s.stack == []
    ensures OpPop(s, [r]) == s.(returnValue := 1, location := At(-1), exits := s.exits + [BadPop],
                                reg := s.reg[Slot(r) := 0])
  {
  }

  /** `eq a b c`: a becomes 1 exactly when the operands are equal, else 0; symmetric in b and c. */
  lemma EqEffect(s: State, a: Cell, b: Cell, c: Cell)
    requires IsRegisterCell(a)
    ensures var v := OpEq(s, [a, b, c]).reg[Slot(a)];
      && (v == 0 || v == 1)
      && (v == 1 <==> Decode(s, b) == Decode(s, c))
    ensures OpEq(s, [a, b, c]) == OpEq(s, [a, c, b])
    ensures OpEq(s, [a, b, c]) == s.(reg := s.reg[Slot(a) := OpEq(s, [a, b, c]).reg[Slot(a)]])
  {
  }

  /** `gt a b c`: a becomes 1 exactly when b > c, else 0; gt(b, c) and gt(c, b) are never both 1. */
  lemma GtEffect(s: State, a: Cell, b: Cell, c: Cell)
    requires IsRegisterCell(a)
    ensures var v := OpGt(s, [a, b, c]).reg[Slot(a)];
      && (v == 0 || v == 1)
      && (v == 1 <==> Decode(s, b) > Decode(s, c))
    ensures !(OpGt(s, [a, b, c]).reg[Slot(a)] == 1 && OpGt(s, [a, c, b]).reg[Slot(a)] == 1)
    ensures OpGt(s, [a, b, c]) == s.(reg := s.reg[Slot(a) := OpGt(s, [a, b, c]).reg[Slot(a)]])
  {
  }

  /** `jmp a`: the location becomes decode(a), a register's value for a register operand. */
  lemma JmpEffect(s: State, a: Cell)
    requires Valid(s)
    ensures OpJmp(s, [a]) == s.(location := At(Decode(s, a)))
    ensures IsRegisterCell(a) ==> OpJmp(s, [a]).location == At(s.reg[Slot(a)])
  {
  }

  /**
   * `jt a b` jumps to decode(b) when decode(a) is not 0 and `jf a b` when it
   * is; for the same operands exactly one of them jumps and the other leaves
   * the VM as it was.
   */
  lemma JtJfComplement(s: State, a: Cell, b: Cell)
    ensures var jumped := s.(location := At(Decode(s, b)));
      if Decode(s, a) != 0 then OpJt(s, [a, b]) == jumped && OpJf(s, [a, b]) == s
      else OpJt(s, [a, b]) == s && OpJf(s, [a, b]) == jumped
  {
  }

  /** `add a b c`: a becomes the sum modulo 32768; nothing else changes. */
  lemma AddEffect(s: State, a: Cell, b: Cell, c: Cell)
    requires IsRegisterCell(a)
    ensures OpAdd(s, [a, b, c]).reg[Slot(a)] < 32768
    ensures OpAdd(s, [a, b, c]).reg[Slot(a)] == (Decode(s, b) + Decode(s, c)) % 32768
    ensures OpAdd(s, [a, b, c]) == s.(reg := s.reg[Slot(a) := OpAdd(s, [a, b, c]).reg[Slot(a)]])
  {
  }

  /** Adding 32767 is decrementing modulo 32768. */
  lemma AddDecrements(s: State, a: Cell, b: Cell, c: Cell)
    requires IsRegisterCell(a) && Decode(s, b) < 32768 && Decode(s, c) == 32767
    ensures Decode(s, b) > 0 ==> OpAdd(s, [a, b, c]).reg[Slot(a)] == Decode(s, b) - 1
    ensures Decode(s, b) == 0 ==> OpAdd(s, [a, b, c]).reg[Slot(a)] == 32767
  {
    var x := Decode(s, b);
    if x > 0 {
      Bits.ModUnique(x + 32767, 32768, 1, x - 1);
    }
  }

  /** `mult a b c`: the product modulo 32768, commutative in b and c. */
  lemma MultEffect(s: State, a: Cell, b: Cell, c: Cell)
    requires IsRegisterCell(a)
    ensures OpMult(s, [a, b, c]).reg[Slot(a)] < 32768
    ensures OpMult(s, [a, b, c]).reg[Slot(a)] == (Decode(s, b) * Decode(s, c)) % 32768
    ensures OpMult(s, [a, b, c]) == OpMult(s, [a, c, b])
    ensures OpMult(s, [a, b, c]) == s.(reg := s.reg[Slot(a) := OpMult(s, [a, b, c]).reg[Slot(a)]])
  {
    var x, y := Decode(s, b), Decode(s, c);
    WriteRegister(s, a, (x * y) % Arch.Modulus);
    assert x * y == y * x;
  }

  /** `mod a b c`: the remainder, below c; a zero divisor is PHP's error, not a result. */
  lemma ModEffect(s: State, a: Cell, b: Cell, c: Cell)
    requires IsRegisterCell(a)
    ensures Decode(s, c) == 0 <==> OpMod(s, [a, b, c]).ModuloByZero?
    ensures Decode(s, c) != 0 ==>
      && OpMod(s, [a, b, c]).state.reg[Slot(a)] == Decode(s, b) % Decode(s, c)
      && OpMod(s, [a, b, c]).state.reg[Slot(a)] < Decode(s, c)
      && OpMod(s, [a, b, c]).state == s.(reg := s.reg[Slot(a) := Decode(s, b) % Decode(s, c)])
  {
  }

  /** `and a b c`: at most either operand, and commutative. */
  lemma AndEffect(s: State, a: Cell, b: Cell, c: Cell)
    requires IsRegisterCell(a)
    ensures OpAnd(s, [a, b, c]).reg[Slot(a)] <= Decode(s, b)
    ensures OpAnd(s, [a, b, c]).reg[Slot(a)] <= Decode(s, c)
    ensures OpAnd(s, [a, b, c]) == OpAnd(s, [a, c, b])
    ensures OpAnd(s, [a, b, c]) == s.(reg := s.reg[Slot(a) := Bits.And(Decode(s, b), Decode(s, c))])
  {
    Bits.AndBelowBoth(Decode(s, b), Decode(s, c));
    Bits.AndCommutes(Decode(s, b), Decode(s, c));
  }

  /** `or a b c`: commutative, idempotent, and a 15-bit value when both operands are. */
  lemma OrEffect(s: State, a: Cell, b: Cell, c: Cell)
    requires IsRegisterCell(a)
    ensures OpOr(s, [a, b, c]) == OpOr(s, [a, c, b])
    ensures OpOr(s, [a, b, b]).reg[Slot(a)] == Decode(s, b)
    ensures Decode(s, b) < 32768 && Decode(s, c) < 32768 ==> OpOr(s, [a, b, c]).reg[Slot(a)] < 32768
    ensures OpOr(s, [a, b, c]) == s.(reg := s.reg[Slot(a) := Bits.Or(Decode(s, b), Decode(s, c))])
  {
    Bits.OrCommutes(Decode(s, b), Decode(s, c));
    Bits.OrIdempotent(Decode(s, b));
    if Decode(s, b) < 32768 && Decode(s, c) < 32768 {
      Bits.Pow2Of15();
      Bits.OrBelowPow2(Decode(s, b), Decode(s, c), 15);
    }
  }

  /** `not a b`: 32767 - (b mod 32768), always a 15-bit value. */
  lemma NotEffect(s: State, a: Cell, b: Cell)
    requires IsRegisterCell(a)
    ensures OpNot(s, [a, b]).reg[Slot(a)] == 32767 - Decode(s, b) % 32768
    ensures OpNot(s, [a, b]) == s.(reg := s.reg[Slot(a) := 32767 - Decode(s, b) % 32768])
  {
    Bits.Not15Value(Decode(s, b));
    WriteRegister(s, a, Bits.Not15(Decode(s, b)));
  }

  /** `not a b` then `not a a` gives back a 15-bit b. */
  lemma NotTwice(s: State, a: Cell, b: Cell)
    requires IsRegisterCell(a) && Decode(s, b) < 32768
    ensures OpNot(OpNot(s, [a, b]), [a, a]).reg[Slot(a)] == Decode(s, b)
  {
    var x := Decode(s, b);
    WriteRegister(s, a, Bits.Not15(x));
    var s1 := s.(reg := s.reg[Slot(a) := Bits.Not15(x)]);
    assert Decode(s1, a) == Bits.Not15(x);
    WriteRegister(s1, a, Bits.Not15(Bits.Not15(x)));
    Bits.Not15Involution(x);
  }

  /** `rmem a b`: a receives memory cell decode(b) (0 when unset); memory and stack stay. */
  lemma RmemEffect(s: State, a: Cell, b: Cell)
    requires IsRegisterCell(a)
    ensures OpRmem(s, [a, b]) == s.(reg := s.reg[Slot(a) := GetData(s, Decode(s, b))])
  {
  }

  /** `wmem a b`: memory cell decode(a) receives decode(b); only that cell changes. */
  lemma WmemEffect(s: State, a: Cell, b: Cell)
    ensures OpWmem(s, [a, b]) == s.(data := s.data[Decode(s, a) := Decode(s, b)])
  {
  }

  /** `rmem` after `wmem` at the same address reads the written value. */
  lemma WmemThenRmem(s: State, x: Cell, v: Cell, r: Cell)
    requires IsRegisterCell(r)
    ensures OpRmem(OpWmem(s, [x, v]), [r, x]).reg[Slot(r)] == Decode(s, v)
  {
  }

  /** `call a`: pushes the address after the operand and jumps to decode(a). */
  lemma CallEffect(s: State, a: Cell)
    requires GetLocation(s) >= 0
    ensures OpCall(s, [a]) == s.(stack := s.stack + [GetLocation(s)], location := At(Decode(s, a)))
  {
  }

  /** `ret` on a non-empty stack pops the top and jumps to it. */
  lemma RetEffect(s: State)
    requires s.stack != []
    ensures OpRet(s, []) == s.(stack := s.stack[..|s.stack| - 1], location := At(s.stack[|s.stack| - 1]))
  {
  }

  /** `ret` on an empty stack halts with return value 1, then overwrites the -1 with null. */
  lemma RetEmptyStack(s: State)
    requires s.stack == []
    ensures OpRet(s, []) == s.(returnValue := 1, location := Null, exits := s.exits + [EmptyStackForRet])
  {
  }

  /** `call` then `ret` comes back to the instruction after the call with the stack restored. */
  lemma CallThenRet(s: State, a: Cell)
    requires s.location.At? && s.location.n >= 0
    ensures OpRet(OpCall(s, [a]), []) == s
  {
    assert (s.stack + [GetLocation(s)])[..|s.stack|] == s.stack;
  }

  /** `out a`: decode(a) is emitted exactly once; nothing else changes. */
  lemma OutEffect(s: State, a: Cell)
    ensures OpOut(s, [a]) == s.(output := s.output + [Decode(s, a)])
    ensures IsRegisterCell(a) ==> OpOut(s, [a]).output == s.output + [Get(s, Int(a))]
  {
  }

  /** `in a` reads nothing: it halts with return value 1 and writes no register, memory or stack. */
  lemma InHalts(s: State, a: Cell)
    ensures OpIn(s, [a]) == s.(returnValue := 1, location := At(-1), exits := s.exits + [WantedUserInput])
  {
  }

  // ---- run ----

  /** A halted VM stops at the next test of the loop and `run` returns its return value. */
  lemma HaltedReturns(s: State, fuel: nat)
    requires Valid(s) && s.location == At(-1) && fuel >= 1
    ensures RunLoop(s, fuel) == Returned(s.returnValue, s)
  {
  }

  /** After `haltvm(reason, code)` the loop ends and `run` returns code. */
  lemma HaltVMEndsRun(s: State, reason: Reason, code: int, fuel: nat)
    requires Valid(s) && fuel >= 1
    ensures RunLoop(HaltVM(s, reason, code), fuel) == Returned(code, HaltVM(s, reason, code))
  {
  }

  /** An opcode with no operation class halts with 'BAD OP' and `run` returns 1. */
  lemma BadOpHalts(s: State, n: nat, fuel: nat)
    requires Valid(s) && s.location == At(n) && n in s.data && s.data[n] !in Arch.OpTable() && fuel >= 2
    ensures RunLoop(s, fuel) == Returned(1, HaltVM(s.(location := At(n + 1)), BadOp(s.data[n]), 1))
  {
    var (op, s1) := GetNext(s, 1);
    assert op.value[0] == Some(s.data[n]);
    assert s1 == s.(location := At(n + 1));
    HaltVMEndsRun(s1, BadOp(s.data[n]), 1, fuel - 1);
  }

  /** Opcode 21 has no operation class. */
  lemma Opcode21IsBad()
    ensures 21 !in Arch.OpTable()
  {
    Arch.OpTableContents();
  }

  /**
   * A null location (left by `ret` on an empty stack) reads FALSE, which
   * dispatches to `halt`: the next `run` iteration stops with 1.
   */
  lemma NullLocationHalts(s: State, fuel: nat)
    requires Valid(s) && s.location == Null && fuel >= 2
    ensures RunLoop(s, fuel) == Returned(1, HaltVM(s.(location := At(1)), HaltOp, 1))
  {
    Arch.OpTableAt(Arch.Halt);
    var s1 := s.(location := At(1));
    assert GetNext(s, 1).0.value[0] == None;
    assert GetNext(s, 1).1 == s1;
    assert GetNext(s1, 0) == (None, s1);
    HaltVMEndsRun(s1, HaltOp, 1, fuel - 1);
  }

  // ---- Whole programs ----

  /**
   * One iteration of `run` on an opcode with an operation class: the
   * operands are the next `args()` cells, and the operation runs on the VM
   * with its location already past them.
   */
  lemma Step(s: State, n: nat, op: Arch.Op, operands: seq<Cell>)
    requires Valid(s) && s.location == At(n)
    requires n in s.data && s.data[n] in Arch.OpTable() && Arch.OpTable()[s.data[n]] == op
    requires |operands| == Arch.Args(op)
    requires forall i :: 0 <= i < |operands| ==> operands[i] == CellAt(s.data, At(n + 1 + i))
    ensures Iterate(s) == Dispatch(s.(location := At(n + 1 + |operands|)), op, operands)
  {
    FetchOpcode(s, n);
    var s1 := s.(location := At(n + 1));
    FetchOperands(s1, n + 1, operands);
    assert GetNext(s1, Arch.Args(op)).1 == s.(location := At(n + 1 + |operands|));
  }

  /** An iteration that leads on leaves the rest of the loop to the next state. */
  lemma RunLoopNext(s: State, fuel: nat, u: State)
    requires Valid(s) && fuel >= 1 && Iterate(s) == Next(u)
    ensures RunLoop(s, fuel) == RunLoop(u, fuel - 1)
  {
  }

  /** Reading the opcode at location n moves to n + 1. */
  lemma FetchOpcode(s: State, n: nat)
    requires s.location == At(n) && n in s.data
    ensures GetNext(s, 1).0 == Some([Some(s.data[n])])
    ensures GetNext(s, 1).1 == s.(location := At(n + 1))
  {
    var c := GetNext(s, 1).0.value;
    assert |c| == 1 && c[0] == Some(s.data[n]);
    assert c == [Some(s.data[n])];
  }

  /** Reading the operands that follow location n moves past them. */
  lemma FetchOperands(s: State, n: nat, operands: seq<Cell>)
    requires s.location == At(n)
    requires forall i :: 0 <= i < |operands| ==> operands[i] == CellAt(s.data, At(n + i))
    ensures Operands(GetNext(s, |operands|).0, |operands|) == operands
    ensures GetNext(s, |operands|).1 == s.(location := At(n + |operands|))
  {
  }

  /** Reading past the end of memory gives FALSE, which dispatches to `halt`. */
  lemma NullOrEndHalts(s: State, n: nat, fuel: nat)
    requires Valid(s) && s.location == At(n) && n !in s.data && fuel >= 2
    ensures RunLoop(s, fuel) == Returned(1, HaltVM(s.(location := At(n + 1)), HaltOp, 1))
  {
    Arch.OpTableAt(Arch.Halt);
    var s1 := s.(location := At(n + 1));
    assert GetNext(s, 1).0.value[0] == None;
    assert GetNext(s, 1).1 == s1;
    HaltVMEndsRun(s1, HaltOp, 1, fuel - 1);
  }

  /** The memory image of a small program. */
  lemma InitProgram(b: seq<byte>)
    requires b == [9, 0, 1, 128, 4, 0, 5, 0]
    ensures Init(b).data == map[0 := 9, 1 := 32769, 2 := 4, 3 := 5]
    ensures Valid(Init(b)) && Init(b).location == At(0)
  {
    var d := Init(b).data;
    assert forall i: nat :: i in d <==> i < 4;
    assert d[0] == 9 && d[1] == 32769 && d[2] == 4 && d[3] == 5;
  }

  /** The one-word program `halt` stops with return value 1. */
  lemma HaltProgram(s: State)
    requires s == Init([0, 0])
    ensures Run(s, 2) == Returned(1, HaltVM(s.(location := At(1)), HaltOp, 1))
  {
    assert s.data[0] == 0;
    Arch.OpTableAt(Arch.Halt);
    Step(s, 0, Arch.Halt, []);
    RunLoopNext(s, 2, HaltVM(s.(location := At(1)), HaltOp, 1));
    HaltVMEndsRun(s.(location := At(1)), HaltOp, 1, 1);
  }

  /** Memory holds `add r1 4 5` (the words 9 32769 4 5) at location n. */
  predicate AddAt(data: map<nat, nat>, n: nat)
  {
    && n in data && data[n] == 9
    && n + 1 in data && data[n + 1] == 32769
    && n + 2 in data && data[n + 2] == 4
    && n + 3 in data && data[n + 3] == 5
  }

  /**
   * One iteration at that instruction leaves 9 in register 1, changes
   * nothing else, and moves past the instruction to location n + 4.
   */
  lemma AddInstruction(s: State, n: nat)
    requires Valid(s) && s.location == At(n) && AddAt(s.data, n)
    ensures Iterate(s) == Next(s.(location := At(n + 4), reg := s.reg[1 := 9]))
  {
    Arch.OpTableAt(Arch.Add);
    var d := [Some(32769), Some(4), Some(5)];
    assert forall i :: 0 <= i < |d| ==> d[i] == CellAt(s.data, At(n + 1 + i));
    Step(s, n, Arch.Add, d);
    AddLiterals(s.(location := At(n + 4)));
  }

  /** `add r1 4 5` itself: 9 into register 1, nothing else changes. */
  lemma AddLiterals(t: State)
    requires Valid(t) && GetLocation(t) >= 0
    ensures Exec(t, Arch.Add, [Some(32769), Some(4), Some(5)]) == Done(t.(reg := t.reg[1 := 9]))
  {
    WriteRegister(t, Some(32769), 9);
  }

  /**
   * `ret` on an empty stack: 'Empty Stack for Ret' sets the return value to 1
   * and the null location it leaves behind halts at the next iteration, so
   * `run` returns 1.
   */
  lemma RetOnEmptyStackEndsRun(s: State, n: nat, fuel: nat)
    requires Valid(s) && s.location == At(n) && n in s.data && s.data[n] == 18
    requires s.stack == [] && fuel >= 3
    ensures RunLoop(s, fuel).Returned? && RunLoop(s, fuel).code == 1
  {
    Arch.OpTableAt(Arch.Ret);
    var t0 := s.(location := At(n + 1));
    var u := OpRet(t0, []);
    assert u == t0.(returnValue := 1, location := Null, exits := t0.exits + [EmptyStackForRet]);
    assert Exec(t0, Arch.Ret, []) == Done(u);
    Step(s, n, Arch.Ret, []);
    RunLoopNext(s, fuel, u);
    NullLocationHalts(u, fuel - 1);
  }
}
