/**
 * The recurrence the teleporter check computes (the routine at 6027 of the
 * challenge binary): a three-argument Ackermann-like function modulo 32768,
 * parameterised by the eighth register `r8`.
 */
module Recurrence {

  const M: nat := 32768

  /** ackermann(x, y, r8), without the cache. */
  function Ackermann(x: nat, y: nat, r8: nat): (r: nat)
    ensures r < M
    decreases x, y
  {
    if x == 0 then (y + 1) % M
    else if y == 0 then Ackermann(x - 1, r8, r8)
    else Ackermann(x - 1, Ackermann(x, y - 1, r8), r8)
  }

  /** The value the teleporter check compares with 6: ackermann(4, 1, r8). */
  function Check(r8: nat): (r: nat)
    ensures r < M
  {
    Ackermann(4, 1, r8)
  }

  /**
   * How deeply the routine at 6027 nests its calls to compute
   * Ackermann(x, y, r8): the fuel the routine at 6027 needs.
   */
  function Depth(x: nat, y: nat, r8: nat): nat
    decreases x, y
  {
    if x == 0 then 1
    else if y == 0 then 1 + Depth(x - 1, r8, r8)
    else 1 + Max(Depth(x, y - 1, r8), Depth(x - 1, Ackermann(x, y - 1, r8), r8))
  }

  /** The fuel the teleporter check needs for candidate r8: Depth(4, 1, r8). */
  function CheckDepth(r8: nat): nat
  {
    Depth(4, 1, r8)
  }

  function Max(a: nat, b: nat): nat
  {
    if a < b then b else a
  }

  /** A cache agrees with the function for `r8` when each entry holds its value. */
  predicate Agrees(cache: map<(nat, nat), nat>, r8: nat)
  {
    forall k :: k in cache ==> cache[k] == Ackermann(k.0, k.1, r8)
  }

  /** With first argument 1 the recurrence counts up from r8 + 1. */
  lemma {:induction false} FirstRow(y: nat, r8: nat)
    ensures Ackermann(1, y, r8) == (r8 + 1 + y) % M
  {
    if y > 0 {
      FirstRow(y - 1, r8);
      var p := (r8 + y) % M;
      assert Ackermann(1, y, r8) == (p + 1) % M;
      ModSucc(r8 + y);
    }
  }

  /** ((n mod M) + 1) mod M == (n + 1) mod M. */
  lemma ModSucc(n: nat)
    ensures (n % M + 1) % M == (n + 1) % M
  {
    var q, r := n / M, n % M;
    assert n == M * q + r;
    if r + 1 < M {
      ModOf(n + 1, q, r + 1);
      ModOf(r + 1, 0, r + 1);
    } else {
      ModOf(n + 1, q + 1, 0);
      ModOf(r + 1, 1, 0);
    }
  }

  lemma ModOf(n: nat, q: nat, r: nat)
    requires r < M && n == M * q + r
    ensures n % M == r
  {
  }

  /** With r8 = 0 the second argument at x = 1 is simply incremented once more. */
  lemma FirstRowZero(y: nat)
    requires y < M - 1
    ensures Ackermann(1, y, 0) == y + 1
  {
    FirstRow(y, 0);
  }

  /** Adding 32767 modulo 32768 decrements a register value 1 .. 32768. */
  lemma Decrement(r: nat)
    requires 1 <= r <= M
    ensures (r + 32767) % M == r - 1
  {
    ModOf(r + 32767, 1, r - 1);
  }
}
