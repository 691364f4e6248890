/**
 * The teleporter routine of getTeleporterValue.php (the challenge binary's
 * subroutines at 5483, 6027, 6035 and 6048): its functions work on
 * by-reference registers r1, r2, r8 and a shared stack. Here the
 * registers and the stack come in as parameters and leave as results; r8
 * is only ever read. A `fuel` bound on the nesting depth of the calls to
 * 6027 stands for PHP's unbounded recursion: `ok` is false when the fuel
 * ran out.
 *
 * The routine at 6035 as written leaves out the decrement of r1 that the
 * instruction at 6038 performs; the `...AsWritten` members follow the PHP,
 * the others put the decrement back and compute `Recurrence.Ackermann`.
 */
module TeleporterCalls {
  import opened Recurrence

  /** What the search loop ends with. */
  datatype SearchOutcome = Found(r8: nat) | NotFound | Diverged(at: nat)

  // ---- As written ----

  /** `call6027`: r1 = 0 gives r1 := r2 + 1; any other r1 never returns. */
  method Call6027AsWritten(r1: nat, r2: nat, r8: nat, stack: seq<nat>, fuel: nat)
    returns (ok: bool, r1': nat, r2': nat, stack': seq<nat>)
    ensures r1 == 0 ==> ok == (fuel > 0)
    ensures r1 == 0 && ok ==> r1' == (r2 + 1) % M && r2' == r2 && stack' == stack
    ensures r1 != 0 ==> !ok
    decreases fuel, 0
  {
    if fuel == 0 {
      return false, r1, r2, stack;
    }
    if r1 != 0 {
      ok, r1', r2', stack' := Call6035AsWritten(r1, r2, r8, stack, fuel - 1);
    } else {
      ok, r1', r2', stack' := true, (r2 + 1) % M, r2, stack;
    }
  }

  /** `call6035`: with r2 = 0 it sets r2 := r8 but keeps r1, so a non-zero r1 recurs forever. */
  method Call6035AsWritten(r1: nat, r2: nat, r8: nat, stack: seq<nat>, fuel: nat)
    returns (ok: bool, r1': nat, r2': nat, stack': seq<nat>)
    ensures r1 != 0 ==> !ok
    ensures r2 != 0 ==> !ok
    ensures r1 == 0 && r2 == 0 ==> ok == (fuel > 0) && (ok ==> r1' == (r8 + 1) % M)
    decreases fuel, 2
  {
    if r2 != 0 {
      ok, r1', r2', stack' := Call6048AsWritten(r1, r2, r8, stack, fuel);
    } else {
      ok, r1', r2', stack' := Call6027AsWritten(r1, r8, r8, stack, fuel);
    }
  }

  /**
   * `call6048`: push r1, decrement r2, call 6027, r2 := r1, pop r1,
   * decrement r1, call 6027. It never returns: a non-zero r1 diverges in the
   * first call, and r1 = 0 comes back from the stack as 0 and is
   * decremented to 32767 before the second.
   */
  method Call6048AsWritten(r1: nat, r2: nat, r8: nat, stack: seq<nat>, fuel: nat)
    returns (ok: bool, r1': nat, r2': nat, stack': seq<nat>)
    ensures !ok
    decreases fuel, 1
  {
    var s := stack + [r1];
    var b := (r2 + 32767) % M;
    var a;
    ok, a, b, s := Call6027AsWritten(r1, b, r8, s, fuel);
    if !ok {
      return false, a, b, s;
    }
    b := a;
    a := if s == [] then 0 else s[|s| - 1];
    s := if s == [] then s else s[..|s| - 1];
    a := (a + 32767) % M;
    ok, r1', r2', stack' := Call6027AsWritten(a, b, r8, s, fuel);
  }

  /** `call5483`: runs 6027 and answers "incorrect" exactly when r1 is not 6 afterwards. */
  method Call5483AsWritten(r1: nat, r2: nat, r8: nat, fuel: nat) returns (ok: bool, incorrect: bool)
    ensures r1 != 0 ==> !ok
    ensures r1 == 0 ==> ok == (fuel > 0) && (ok ==> incorrect == ((r2 + 1) % M != 6))
  {
    var a, b, s;
    ok, a, b, s := Call6027AsWritten(r1, r2, r8, [], fuel);
    b := if a == 6 then 1 else 0;
    incorrect := b == 0;
  }

  /** `test($val)`: 5483 with r1 = 4, r2 = 1, r8 = val, which never returns. */
  method TestAsWritten(val: nat, fuel: nat) returns (ok: bool, incorrect: bool)
    ensures !ok
  {
    ok, incorrect := Call5483AsWritten(4, 1, val, fuel);
  }

  /** The search loop over 0 .. 32768: it is stuck in its first test, whatever the fuel. */
  method SearchAsWritten(fuel: nat) returns (outcome: SearchOutcome)
    ensures outcome == Diverged(0)
  {
    var i: nat := 0;
    outcome := NotFound;
    while i <= 32768 && outcome == NotFound
      invariant (i == 0 && outcome == NotFound) || (i == 1 && outcome == Diverged(0))
    {
      var ok, incorrect := TestAsWritten(i, fuel);
      outcome := if !ok then Diverged(i) else if !incorrect then Found(i) else NotFound;
      i := i + 1;
    }
  }

  // ---- With the decrement of 6038 ----

  /** `call6027` with 6035 corrected: r1 becomes Ackermann(r1, r2, r8) and the stack is restored. */
  method Call6027(r1: nat, r2: nat, r8: nat, stack: seq<nat>, fuel: nat)
    returns (ok: bool, r1': nat, r2': nat, stack': seq<nat>)
    requires r1 < M && r2 <= M && r8 <= M
    ensures ok ==> r1' == Ackermann(r1, r2, r8) && stack' == stack
    ensures fuel >= Depth(r1, r2, r8) ==> ok
    decreases fuel, 0
  {
    if fuel == 0 {
      return false, r1, r2, stack;
    }
    if r1 != 0 {
      ok, r1', r2', stack' := Call6035(r1, r2, r8, stack, fuel - 1);
    } else {
      ok, r1', r2', stack' := true, (r2 + 1) % M, r2, stack;
    }
  }

  /** `call6035` with `add r1 r1 32767` before `set r2 r8`. */
  method Call6035(r1: nat, r2: nat, r8: nat, stack: seq<nat>, fuel: nat)
    returns (ok: bool, r1': nat, r2': nat, stack': seq<nat>)
    requires r1 < M && r2 <= M && r8 <= M
    ensures r1 != 0 && ok ==> r1' == Ackermann(r1, r2, r8) && stack' == stack
    ensures r1 != 0 && fuel + 1 >= Depth(r1, r2, r8) ==> ok
    decreases fuel, 2
  {
    if r2 != 0 {
      ok, r1', r2', stack' := Call6048(r1, r2, r8, stack, fuel);
    } else {
      var a := (r1 + 32767) % M;
      if r1 != 0 {
        Decrement(r1);
      }
      ok, r1', r2', stack' := Call6027(a, r8, r8, stack, fuel);
    }
  }

  /** `call6048`: Ackermann(r1 - 1, Ackermann(r1, r2 - 1, r8), r8), with the push matched by the pop. */
  method Call6048(r1: nat, r2: nat, r8: nat, stack: seq<nat>, fuel: nat)
    returns (ok: bool, r1': nat, r2': nat, stack': seq<nat>)
    requires r1 < M && r2 <= M && r8 <= M && r2 != 0
    ensures r1 != 0 && ok ==> r1' == Ackermann(r1, r2, r8) && stack' == stack
    ensures r1 != 0 && fuel + 1 >= Depth(r1, r2, r8) ==> ok
    decreases fuel, 1
  {
    var s := stack + [r1];
    Decrement(r2);
    var b := (r2 + 32767) % M;
    var a;
    ok, a, b, s := Call6027(r1, b, r8, s, fuel);
    if !ok {
      return false, a, b, s;
    }
    b := a;
    a := if s == [] then 0 else s[|s| - 1];
    s := if s == [] then s else s[..|s| - 1];
    assert s == stack && a == r1 by {
      assert (stack + [r1])[..|stack|] == stack;
    }
    if a != 0 {
      Decrement(a);
    }
    a := (a + 32767) % M;
    ok, r1', r2', stack' := Call6027(a, b, r8, s, fuel);
  }

  /** `call5483` over the corrected routine: "incorrect" exactly when Ackermann(r1, r2, r8) is not 6. */
  method Call5483(r1: nat, r2: nat, r8: nat, fuel: nat) returns (ok: bool, incorrect: bool)
    requires r1 < M && r2 <= M && r8 <= M
    ensures ok ==> incorrect == (Ackermann(r1, r2, r8) != 6)
    ensures fuel >= Depth(r1, r2, r8) ==> ok
  {
    var a, b, s;
    ok, a, b, s := Call6027(r1, r2, r8, [], fuel);
    b := if a == 6 then 1 else 0;
    incorrect := b == 0;
  }

  /** `test($val)` over the corrected routine. */
  method Test(val: nat, fuel: nat) returns (ok: bool, incorrect: bool)
    requires val <= M
    ensures ok ==> incorrect == (Check(val) != 6)
    ensures fuel >= CheckDepth(val) ==> ok
  {
    ok, incorrect := Call5483(4, 1, val, fuel);
  }

  /**
   * The search loop over the corrected routine: the first r8 in 0 .. 32768
   * whose check gives 6; it stops early only where the fuel is too small.
   */
  method Search(fuel: nat) returns (outcome: SearchOutcome)
    ensures outcome.Found? ==>
      && outcome.r8 <= M && Check(outcome.r8) == 6
      && forall j: nat :: j < outcome.r8 ==> Check(j) != 6
    ensures outcome.NotFound? ==> forall j: nat :: j <= M ==> Check(j) != 6
    ensures outcome.Diverged? ==>
      && outcome.at <= M && fuel < CheckDepth(outcome.at)
      && forall j: nat :: j < outcome.at ==> Check(j) != 6
  {
    var i: nat := 0;
    outcome := NotFound;
    while i <= 32768 && outcome == NotFound
      invariant i <= 32769
      invariant outcome == NotFound ==> forall j: nat :: j < i ==> Check(j) != 6
      invariant outcome.Found? ==> outcome.r8 <= M && Check(outcome.r8) == 6 && forall j: nat :: j < outcome.r8 ==> Check(j) != 6
      invariant outcome.Diverged? ==> outcome.at <= M && fuel < CheckDepth(outcome.at) && forall j: nat :: j < outcome.at ==> Check(j) != 6
    {
      var ok, incorrect := Test(i, fuel);
      outcome := if !ok then Diverged(i) else if !incorrect then Found(i) else NotFound;
      i := i + 1;
    }
  }
}
