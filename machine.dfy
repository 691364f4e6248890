/**
 * The state of a Synacor VM (SynacorVM.php) and what each of its public
 * operations and each operation class does to it, as pure functions.
 * The class `Synacor.SynacorVM` is proved to update its fields exactly as
 * these functions say.
 *
 * PHP arrays become maps (a write to any key extends them), PHP's FALSE for
 * "no cell there" becomes `None`, and the `null` location left by `ret` on
 * an empty stack becomes `Null`. The helpers `decode`, `asRegister` and
 * `output` that the operation classes call have no body in SynacorVM.php;
 * they are modelled as:
 *   - decode(v): what `get(v)` returns (a literal below 32768, else the
 *     register's value, 0 for a register that was never written);
 *   - asRegister(v): a check that leaves v unchanged and halts the VM
 *     (code 1) when v is not a register address 32768 .. 32775;
 *   - output(v): appends v to the output.
 */
module Machine {
  import opened Wrappers
  import opened Arch
  import Bits

  newtype byte = b: int | 0 <= b < 256

  /** A fetched cell; `None` is the FALSE that `getNext` returns past the end of memory. */
  type Cell = Option<nat>

  /** PHP's integer reading of a cell: FALSE counts as 0. */
  function Int(c: Cell): nat
  {
    c.GetOr(0)
  }

  /** The location counter: `At(-1)` is the halted sentinel. */
  datatype Loc = At(n: int) | Null

  /** The reasons `haltvm` is given. */
  datatype Reason =
    | HaltOp | BadOp(op: nat) | BadSet | BadPop | EmptyStackForRet
    | WantedUserInput | NotARegister

  datatype State = State(
    data: map<nat, nat>,   // $data
    location: Loc,         // $location
    reg: map<int, nat>,    // $reg
    stack: seq<nat>,       // $stack, top at the end
    returnValue: int,      // $returnValue
    output: seq<nat>,      // what `output` was given, in order
    exits: seq<Reason>)    // the reasons `haltvm` reported, in order

  /** What every reachable state satisfies. */
  predicate Valid(s: State)
  {
    && (s.location.At? ==> s.location.n >= -1)
    && (forall i :: 0 <= i < 8 ==> i in s.reg)
  }

  /** `array_values(unpack('v*', $binaryData))`: 16-bit little-endian words. */
  function Words(bytes: seq<byte>): (w: seq<nat>)
    ensures |w| == |bytes| / 2
    ensures forall i :: 0 <= i < |w| ==> w[i] == bytes[2 * i] as int + 256 * bytes[2 * i + 1] as int
    ensures forall i :: 0 <= i < |w| ==> w[i] < 65536
  {
    if |bytes| < 2 then []
    else
      var rest := Words(bytes[2..]);
      assert forall i :: 1 <= i <= |rest| ==> bytes[2 * i] == bytes[2..][2 * (i - 1)];
      assert forall i :: 1 <= i <= |rest| ==> bytes[2 * i + 1] == bytes[2..][2 * (i - 1) + 1];
      [bytes[0] as int + 256 * bytes[1] as int] + rest
  }

  /** A freshly constructed VM (`__construct`). */
  function Init(bytes: seq<byte>): (s: State)
    ensures Valid(s)
    ensures s.location == At(0) && s.stack == [] && s.returnValue == 0
    ensures forall i :: i in s.reg <==> 0 <= i < 8
    ensures forall i :: 0 <= i < 8 ==> s.reg[i] == 0
    ensures forall i: nat :: i in s.data <==> i < |bytes| / 2
    ensures forall i: nat :: i < |bytes| / 2 ==> s.data[i] == bytes[2 * i] as int + 256 * bytes[2 * i + 1] as int
  {
    var w := Words(bytes);
    State(map i: nat | i < |w| :: w[i], At(0), map[0 := 0, 1 := 0, 2 := 0, 3 := 0, 4 := 0, 5 := 0, 6 := 0, 7 := 0],
          [], 0, [], [])
  }

  // ---- The public operations of SynacorVM ----

  /** `getLocation()`: the location cast to an integer (`null` reads as 0). */
  function GetLocation(s: State): int
  {
    match s.location
    case At(n) => n
    case Null => 0
  }

  /** `getLength()`: how many memory cells are set. */
  function GetLength(s: State): nat
  {
    |s.data|
  }

  /** `haltvm($reason, $code)`. */
  function HaltVM(s: State, reason: Reason, code: int): State
  {
    s.(returnValue := code, location := At(-1), exits := s.exits + [reason])
  }

  /** `push($item)`. */
  function Push(s: State, item: nat): State
  {
    s.(stack := s.stack + [item])
  }

  /** `pop()`: the top item, or `None` (PHP's null) on an empty stack. */
  function Pop(s: State): (Option<nat>, State)
  {
    if s.stack == [] then (None, s)
    else (Some(s.stack[|s.stack| - 1]), s.(stack := s.stack[..|s.stack| - 1]))
  }

  /** `jump($loc)`. */
  function Jump(s: State, loc: Loc): State
  {
    s.(location := loc)
  }

  /** `set($reg, $val)`: halts on a non-register address but still writes. */
  function Set(s: State, r: int, val: nat): State
  {
    var s1 := if r < RegisterBase then HaltVM(s, BadSet, 1) else s;
    s1.(reg := s1.reg[r - RegisterBase := val])
  }

  /** `get($reg)`: a literal below 32768 as is, otherwise a register (0 if unset). */
  function Get(s: State, v: nat): nat
  {
    if v < RegisterBase then v
    else if v - RegisterBase in s.reg then s.reg[v - RegisterBase]
    else 0
  }

  /** `setData($loc, $val)`. */
  function SetData(s: State, loc: nat, val: nat): State
  {
    s.(data := s.data[loc := val])
  }

  /** `getData($loc)`: an unset cell reads as 0. */
  function GetData(s: State, loc: nat): nat
  {
    if loc in s.data then s.data[loc] else 0
  }

  /** `decode($v)` (assumed): the value `get` gives for the cell. */
  function Decode(s: State, c: Cell): nat
  {
    Get(s, Int(c))
  }

  /** `asRegister($v)` (assumed): halts unless the cell is a register address. */
  function AsRegister(s: State, c: Cell): State
  {
    if IsRegisterAddress(Int(c)) then s else HaltVM(s, NotARegister, 1)
  }

  /** `output($v)` (assumed): the value is appended to the output. */
  function Output(s: State, v: nat): State
  {
    s.(output := s.output + [v])
  }

  // ---- Fetching: getNext ----

  /** `$this->data[$this->location]` if set, else FALSE. */
  function CellAt(data: map<nat, nat>, loc: Loc): Cell
  {
    match loc
    case At(n) => if n >= 0 && n in data then Some(data[n]) else None
    case Null => None
  }

  /** `$this->location++` (PHP increments null to 1). */
  function Advance(loc: Loc): Loc
  {
    match loc
    case At(n) => At(n + 1)
    case Null => At(1)
  }

  /** The location `k` increments after `loc`. */
  function Offset(loc: Loc, k: nat): Loc
  {
    match loc
    case At(n) => At(n + k)
    case Null => if k == 0 then Null else At(k)
  }

  /**
   * `getNext($count)`: the `count` cells from the location on, advancing it
   * by `count`; FALSE (without moving) when `count` is 0 or the VM is halted
   * (location -1). The loop re-tests for -1 before each cell, but from a
   * location of at least 0 (or null) it only moves upwards.
   */
  function GetNext(s: State, count: nat): (Option<seq<Cell>>, State)
    requires s.location.At? ==> s.location.n >= -1
  {
    if count == 0 || s.location == At(-1) then (None, s)
    else (Some(seq(count, i requires 0 <= i < count => CellAt(s.data, Offset(s.location, i)))),
          s.(location := Offset(s.location, count)))
  }

  // ---- The operation classes: run($vm, $data) ----

  function OpHalt(s: State, data: seq<Cell>): State
  {
    HaltVM(s, HaltOp, 1)
  }

  function OpSet(s: State, data: seq<Cell>): State
    requires |data| == 2
  {
    var s1 := AsRegister(s, data[0]);
    Set(s1, Int(data[0]), Decode(s1, data[1]))
  }

  function OpPush(s: State, data: seq<Cell>): State
    requires |data| == 1
  {
    Push(s, Decode(s, data[0]))
  }

  /** On an empty stack: halts, then still writes `get(null)`, that is 0. */
  function OpPop(s: State, data: seq<Cell>): State
    requires |data| == 1
  {
    var (v, s1) := Pop(s);
    var s2 := if v.None? then HaltVM(s1, BadPop, 1) else s1;
    Set(s2, Int(data[0]), Get(s2, v.GetOr(0)))
  }

  function OpEq(s: State, data: seq<Cell>): State
    requires |data| == 3
  {
    var s1 := AsRegister(s, data[0]);
    Set(s1, Int(data[0]), if Decode(s1, data[1]) == Decode(s1, data[2]) then 1 else 0)
  }

  function OpGt(s: State, data: seq<Cell>): State
    requires |data| == 3
  {
    var s1 := AsRegister(s, data[0]);
    Set(s1, Int(data[0]), if Decode(s1, data[1]) > Decode(s1, data[2]) then 1 else 0)
  }

  function OpJmp(s: State, data: seq<Cell>): State
    requires |data| == 1
  {
    Jump(s, At(Decode(s, data[0])))
  }

  function OpJt(s: State, data: seq<Cell>): State
    requires |data| == 2
  {
    if Decode(s, data[0]) != 0 then Jump(s, At(Decode(s, data[1]))) else s
  }

  function OpJf(s: State, data: seq<Cell>): State
    requires |data| == 2
  {
    if Decode(s, data[0]) == 0 then Jump(s, At(Decode(s, data[1]))) else s
  }

  function OpAdd(s: State, data: seq<Cell>): State
    requires |data| == 3
  {
    var s1 := AsRegister(s, data[0]);
    Set(s1, Int(data[0]), (Decode(s1, data[1]) + Decode(s1, data[2])) % Modulus)
  }

  function OpMult(s: State, data: seq<Cell>): State
    requires |data| == 3
  {
    var s1 := AsRegister(s, data[0]);
    Set(s1, Int(data[0]), (Decode(s1, data[1]) * Decode(s1, data[2])) % Modulus)
  }

  /** What an operation leaves behind: PHP's `%` by zero throws instead. */
  datatype Outcome = Done(state: State) | ModuloByZero(state: State)

  function OpMod(s: State, data: seq<Cell>): Outcome
    requires |data| == 3
  {
    var s1 := AsRegister(s, data[0]);
    var b, c := Decode(s1, data[1]), Decode(s1, data[2]);
    if c == 0 then ModuloByZero(s1) else Done(Set(s1, Int(data[0]), b % c))
  }

  function OpAnd(s: State, data: seq<Cell>): State
    requires |data| == 3
  {
    var s1 := AsRegister(s, data[0]);
    Set(s1, Int(data[0]), Bits.And(Decode(s1, data[1]), Decode(s1, data[2])))
  }

  function OpOr(s: State, data: seq<Cell>): State
    requires |data| == 3
  {
    var s1 := AsRegister(s, data[0]);
    Set(s1, Int(data[0]), Bits.Or(Decode(s1, data[1]), Decode(s1, data[2])))
  }

  function OpNot(s: State, data: seq<Cell>): State
    requires |data| == 2
  {
    var s1 := AsRegister(s, data[0]);
    Set(s1, Int(data[0]), Bits.Not15(Decode(s1, data[1])))
  }

  function OpRmem(s: State, data: seq<Cell>): State
    requires |data| == 2
  {
    var s1 := AsRegister(s, data[0]);
    Set(s1, Int(data[0]), GetData(s1, Decode(s1, data[1])))
  }

  function OpWmem(s: State, data: seq<Cell>): State
    requires |data| == 2
  {
    SetData(s, Decode(s, data[0]), Decode(s, data[1]))
  }

  /** Pushes the location, which `getNext` has already moved past the operand. */
  function OpCall(s: State, data: seq<Cell>): State
    requires |data| == 1 && GetLocation(s) >= 0
  {
    var a := Decode(s, data[0]);
    Jump(Push(s, GetLocation(s)), At(a))
  }

  /** On an empty stack: halts, then still jumps to `null`. */
  function OpRet(s: State, data: seq<Cell>): State
  {
    var (v, s1) := Pop(s);
    var s2 := if v.None? then HaltVM(s1, EmptyStackForRet, 1) else s1;
    Jump(s2, if v.Some? then At(v.value) else Null)
  }

  function OpOut(s: State, data: seq<Cell>): State
    requires |data| == 1
  {
    Output(s, Decode(s, data[0]))
  }

  /** This revision never reads input: it halts. */
  function OpIn(s: State, data: seq<Cell>): State
  {
    HaltVM(s, WantedUserInput, 1)
  }

  /** `$this->ops[$op]->run($this, $data)`. */
  function Exec(s: State, op: Op, data: seq<Cell>): (r: Outcome)
    requires Valid(s) && GetLocation(s) >= 0 && |data| == Args(op)
    ensures Valid(r.state)
  {
    match op
    case Halt => Done(OpHalt(s, data))
    case Set => Done(OpSet(s, data))
    case Push => Done(OpPush(s, data))
    case Pop => Done(OpPop(s, data))
    case Eq => Done(OpEq(s, data))
    case Gt => Done(OpGt(s, data))
    case Jmp => Done(OpJmp(s, data))
    case Jt => Done(OpJt(s, data))
    case Jf => Done(OpJf(s, data))
    case Add => Done(OpAdd(s, data))
    case Mult => Done(OpMult(s, data))
    case Mod => OpMod(s, data)
    case And => Done(OpAnd(s, data))
    case Or => Done(OpOr(s, data))
    case Not => Done(OpNot(s, data))
    case Rmem => Done(OpRmem(s, data))
    case Wmem => Done(OpWmem(s, data))
    case Call => Done(OpCall(s, data))
    case Ret => Done(OpRet(s, data))
    case Out => Done(OpOut(s, data))
    case In => Done(OpIn(s, data))
  }

  // ---- run ----

  /**
   * How `run` ends: it returns a value, or (outside the source) the fuel
   * bound on loop iterations ran out, or an operation threw.
   */
  datatype RunResult = Returned(code: int, final: State) | OutOfFuel(final: State) | Crashed(final: State)

  /** `$data` as `list(...)` sees it: FALSE gives null operands. */
  function Operands(d: Option<seq<Cell>>, n: nat): (r: seq<Cell>)
    requires d.Some? ==> |d.value| == n
    ensures |r| == n
  {
    if d.Some? then d.value else seq(n, _ => None)
  }

  /** Where one iteration of `run`'s loop leads: on to a next state, or out of the loop. */
  datatype Iteration = Next(state: State) | Stop(result: RunResult)

  /**
   * One iteration of `run`'s loop: fetch the opcode, fetch its operands,
   * dispatch. The opcode FALSE read past the end of memory is used as
   * array key 0, so it dispatches to `halt`.
   */
  function Iterate(s: State): (it: Iteration)
    requires Valid(s)
    ensures it.Next? ==> Valid(it.state)
  {
    var (op, s1) := GetNext(s, 1);
    if op.None? then Stop(Returned(s1.returnValue, s1))
    else
      var code := Int(op.value[0]);
      if code !in OpTable() then Next(HaltVM(s1, BadOp(code), 1))
      else
        var o := OpTable()[code];
        var (d, s2) := GetNext(s1, Args(o));
        Dispatch(s2, o, Operands(d, Args(o)))
  }

  /** `$this->ops[$op]->run($this, $data)` as the loop sees it: on to the next iteration, or a crash. */
  function Dispatch(s: State, o: Op, data: seq<Cell>): (it: Iteration)
    requires Valid(s) && GetLocation(s) >= 0 && |data| == Args(o)
    ensures it.Next? ==> Valid(it.state)
  {
    match Exec(s, o, data)
    case Done(t) => Next(t)
    case ModuloByZero(t) => Stop(Crashed(t))
  }

  /** The fetch/dispatch loop of `run`, for at most `fuel` iterations. */
  function RunLoop(s: State, fuel: nat): RunResult
    requires Valid(s)
    decreases fuel, 0
  {
    if fuel == 0 then OutOfFuel(s) else Proceed(Iterate(s), fuel - 1)
  }

  /** The run after one iteration, with `fuel` iterations left. */
  function Proceed(it: Iteration, fuel: nat): RunResult
    requires it.Next? ==> Valid(it.state)
    decreases fuel, 1
  {
    match it
    case Next(t) => RunLoop(t, fuel)
    case Stop(r) => r
  }

  /** One turn of the loop: the rest of the run is that of the next state, or the loop's result. */
  lemma RunLoopStep(s: State, fuel: nat)
    requires Valid(s) && fuel >= 1
    ensures Iterate(s).Next? ==> RunLoop(s, fuel) == RunLoop(Iterate(s).state, fuel - 1)
    ensures Iterate(s).Stop? ==> RunLoop(s, fuel) == Iterate(s).result
  {
  }

  /** `run()`: refuses (returning -1) unless the location is 0. */
  function Run(s: State, fuel: nat): (r: RunResult)
    requires Valid(s)
    ensures GetLocation(s) != 0 ==> r == Returned(-1, s)
  {
    if GetLocation(s) != 0 then Returned(-1, s) else RunLoop(s, fuel)
  }
}
