/**
 * The memoised solver (util/getTeleporterValue.php): `ackermann` with a
 * cache keyed on (x, y) that is cleared for every candidate r8, and the
 * search for the r8 that makes ackermann(4, 1, r8) equal 6. The global
 * `$__cache` is passed in and returned.
 */
module TeleporterUtil {
  import opened Wrappers
  import opened Recurrence

  /**
   * `ackermann($x, $y, $r8)`: a cached entry is returned as is, otherwise
   * the value is computed by the recurrence and stored under (x, y).
   */
  method AckermannMemo(x: nat, y: nat, r8: nat, cache: map<(nat, nat), nat>)
    returns (r: nat, cache': map<(nat, nat), nat>)
    requires Agrees(cache, r8)
    ensures r == Ackermann(x, y, r8) && r < M
    ensures Agrees(cache', r8)
    ensures cache.Keys <= cache'.Keys && (x, y) in cache'
    decreases x, y
  {
    if (x, y) in cache {
      return cache[(x, y)], cache;
    }
    var c := cache;
    if x == 0 {
      r := (y + 1) % M;
    } else if y == 0 {
      r, c := AckermannMemo(x - 1, r8, r8, c);
    } else {
      var inner;
      inner, c := AckermannMemo(x, y - 1, r8, c);
      r, c := AckermannMemo(x - 1, inner, r8, c);
    }
    cache' := c[(x, y) := r];
  }

  /**
   * The search loop: the first i in 0 .. 32768 with Check(i) = ackermann(4, 1, i) = 6,
   * each tried with an emptied cache, or None when there is none.
   */
  method Search() returns (found: Option<nat>)
    ensures found.Some? ==>
      && found.value <= 32768
      && Check(found.value) == 6
      && forall j: nat :: j < found.value ==> Check(j) != 6
    ensures found.None? ==> forall j: nat :: j <= 32768 ==> Check(j) != 6
  {
    var i := 0;
    while i <= 32768
      invariant i <= 32769
      invariant forall j: nat :: j < i ==> Check(j) != 6
    {
      var val, _ := AckermannMemo(4, 1, i, map[]);
      assert val == Check(i);
      if val == 6 {
        return Some(i);
      }
      i := i + 1;
    }
    found := None;
  }
}
