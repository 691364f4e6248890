/**
 * The instruction set of the Synacor architecture as the operation classes
 * under operations/ declare it: one operation per class, each with its
 * opcode (`code()`) and its fixed number of operands (`args()`).
 */
module Arch {

  /** Register addresses are 32768 .. 32775; address n names register n - 32768. */
  const RegisterBase: nat := 32768
  const Modulus: nat := 32768

  predicate IsRegisterAddress(v: int)
  {
    RegisterBase <= v < RegisterBase + 8
  }

  /** The 21 operation classes (there is no class for opcode 21). */
  datatype Op =
    | Halt | Set | Push | Pop | Eq | Gt | Jmp | Jt | Jf | Add | Mult
    | Mod | And | Or | Not | Rmem | Wmem | Call | Ret | Out | In

  /** `code()` of each operation class. */
  function Code(op: Op): nat
  {
    match op
    case Halt => 0   case Set => 1    case Push => 2   case Pop => 3
    case Eq => 4     case Gt => 5     case Jmp => 6    case Jt => 7
    case Jf => 8     case Add => 9    case Mult => 10  case Mod => 11
    case And => 12   case Or => 13    case Not => 14   case Rmem => 15
    case Wmem => 16  case Call => 17  case Ret => 18   case Out => 19
    case In => 20
  }

  /** `args()` of each operation class: how many operand cells follow the opcode. */
  function Args(op: Op): nat
  {
    match op
    case Halt => 0   case Set => 2    case Push => 1   case Pop => 1
    case Eq => 3     case Gt => 3     case Jmp => 1    case Jt => 2
    case Jf => 2     case Add => 3    case Mult => 3   case Mod => 3
    case And => 3    case Or => 3     case Not => 2    case Rmem => 2
    case Wmem => 2   case Call => 1   case Ret => 0    case Out => 1
    case In => 1
  }

  /**
   * The operation classes listed by opcode. The constructor meets them in
   * the order the operation files are loaded, which does not affect the
   * table (`TableOfLookup`).
   */
  const AllOps: seq<Op> :=
    [Halt, Set, Push, Pop, Eq, Gt, Jmp, Jt, Jf, Add, Mult,
     Mod, And, Or, Not, Rmem, Wmem, Call, Ret, Out, In]

  /** The table `$ops[$c->code()] = $c` after registering `ops` in order. */
  function TableOf(ops: seq<Op>): map<int, Op>
  {
    if ops == [] then map[]
    else TableOf(ops[..|ops| - 1])[Code(ops[|ops| - 1]) := ops[|ops| - 1]]
  }

  /** The operation table of a fresh VM. */
  function OpTable(): map<int, Op>
  {
    TableOf(AllOps)
  }

  /** No two operation classes declare the same opcode. */
  lemma CodeInjective(a: Op, b: Op)
    requires Code(a) == Code(b)
    ensures a == b
  {
  }

  /**
   * Registering operations with pairwise distinct opcodes gives a table
   * whose keys are exactly their opcodes and that maps each opcode back
   * to its operation.
   */
  lemma {:induction false} TableOfLookup(ops: seq<Op>)
    ensures TableOf(ops).Keys == set i | 0 <= i < |ops| :: Code(ops[i])
    ensures forall i :: 0 <= i < |ops| ==> TableOf(ops)[Code(ops[i])] == ops[i]
  {
    if ops != [] {
      var init, last := ops[..|ops| - 1], ops[|ops| - 1];
      TableOfLookup(init);
      forall i | 0 <= i < |ops| - 1
        ensures TableOf(ops)[Code(ops[i])] == ops[i]
      {
        assert ops[i] == init[i];
        if Code(ops[i]) == Code(last) {
          CodeInjective(ops[i], last);
        }
      }
      var codes := set i | 0 <= i < |ops| :: Code(ops[i]);
      var initCodes := set i | 0 <= i < |init| :: Code(init[i]);
      assert codes == initCodes + {Code(last)} by {
        forall c | c in codes ensures c in initCodes + {Code(last)} {
          var i :| 0 <= i < |ops| && Code(ops[i]) == c;
          if i < |init| { assert init[i] == ops[i]; }
        }
        forall c | c in initCodes ensures c in codes {
          var i :| 0 <= i < |init| && Code(init[i]) == c;
          assert ops[i] == init[i];
        }
      }
    }
  }

  /** The i-th class of the list declares opcode i. */
  lemma AllOpsIndexed()
    ensures forall i :: 0 <= i < |AllOps| ==> Code(AllOps[i]) == i
  {
  }

  /**
   * The operation table holds exactly the opcodes 0 .. 20, each mapped to
   * the class that declares it; in particular opcode 21 is not registered.
   */
  lemma OpTableContents()
    ensures forall c :: c in OpTable() <==> 0 <= c <= 20
    ensures forall op :: Code(op) in OpTable() && OpTable()[Code(op)] == op
  {
    TableOfLookup(AllOps);
    AllOpsIndexed();
    var codes := set i | 0 <= i < |AllOps| :: Code(AllOps[i]);
    forall c | 0 <= c <= 20
      ensures c in codes
    {
      assert Code(AllOps[c]) == c;
    }
    forall op: Op
      ensures Code(op) in OpTable() && OpTable()[Code(op)] == op
    {
      var i := Code(op);
      assert Code(AllOps[i]) == i;
      CodeInjective(AllOps[i], op);
    }
  }

  /** Each operation is found in the table under its own opcode. */
  lemma OpTableAt(op: Op)
    ensures Code(op) in OpTable() && OpTable()[Code(op)] == op
  {
    OpTableContents();
  }
}
