/**
 * The Java solver (getTeleporterValue.java): the same recurrence with a
 * static two-level HashMap cache, and `main`'s search over r8 < 32768.
 * The static map is the field of one `Solver` object.
 */
module TeleporterJava {
  import opened Wrappers
  import opened Recurrence

  /** What `getCache` yields: a value, or the NullPointerException of unboxing a missing entry. */
  datatype CacheRead = Value(v: int) | NullUnbox

  /** The cached value for (x, y), if any. */
  function Entry(cache: map<int, map<int, int>>, x: int, y: int): Option<int>
  {
    if x in cache && y in cache[x] then Some(cache[x][y]) else None
  }

  /** Every cached value is the recurrence's value for `r8`. */
  ghost predicate CacheAgrees(cache: map<int, map<int, int>>, r8: nat)
  {
    forall x, y :: Entry(cache, x, y).Some? ==> x >= 0 && y >= 0 && Entry(cache, x, y).value == Ackermann(x, y, r8)
  }

  class Solver {
    var cache: map<int, map<int, int>>

    constructor ()
      ensures cache == map[]
    {
      cache := map[];
    }

    /** `hasCache(x, y)`: row x exists and holds column y. */
    method HasCache(x: int, y: int) returns (b: bool)
      ensures b <==> Entry(cache, x, y).Some?
    {
      if x in cache {
        return y in cache[x];
      }
      return false;
    }

    /** `getCache(x, y)`: 0 for a missing row, a null unboxing for a missing column. */
    method GetCache(x: int, y: int) returns (r: CacheRead)
      ensures x !in cache ==> r == Value(0)
      ensures Entry(cache, x, y).Some? ==> r == Value(Entry(cache, x, y).value)
      ensures x in cache && y !in cache[x] ==> r == NullUnbox
    {
      if x in cache {
        if y in cache[x] {
          return Value(cache[x][y]);
        }
        return NullUnbox;
      }
      return Value(0);
    }

    /** `setCache(x, y, val)`: (x, y) now holds val; every other entry is as before. */
    method SetCache(x: int, y: int, val: int)
      modifies this
      ensures Entry(cache, x, y) == Some(val)
      ensures forall a, b :: (a, b) != (x, y) ==> Entry(cache, a, b) == Entry(old(cache), a, b)
    {
      if x !in cache {
        cache := cache[x := map[]];
      }
      cache := cache[x := cache[x][y := val]];
    }

    /** `clearCache()`: no entry is left. */
    method ClearCache()
      modifies this
      ensures forall x, y :: Entry(cache, x, y) == None
    {
      cache := map[];
    }

    /**
     * `ackermann(x, y, r8)`: a cached value if there is one, otherwise the
     * recurrence, whose result is stored before it is returned.
     */
    method Ackermann(x: int, y: int, r8: int) returns (r: int)
      requires x >= 0 && y >= 0 && r8 >= 0 && CacheAgrees(cache, r8)
      modifies this
      ensures r == Recurrence.Ackermann(x, y, r8) && 0 <= r < M
      ensures CacheAgrees(cache, r8) && Entry(cache, x, y) == Some(r)
      ensures forall a, b :: Entry(old(cache), a, b).Some? ==> Entry(cache, a, b) == Entry(old(cache), a, b)
      decreases x, y
    {
      var cached := HasCache(x, y);
      if cached {
        var read := GetCache(x, y);
        return read.v;
      }
      if x == 0 {
        r := (y + 1) % M;
      } else if y == 0 {
        r := Ackermann(x - 1, r8, r8);
      } else {
        var inner := Ackermann(x, y - 1, r8);
        r := Ackermann(x - 1, inner, r8);
      }
      SetCache(x, y, r);
    }

    /** `main`: the first r8 below 32768 whose check gives 6, the cache cleared for each. */
    method FindR8() returns (answer: Option<nat>)
      modifies this
      ensures answer.Some? ==>
        && answer.value < M && Check(answer.value) == 6
        && forall j: nat :: j < answer.value ==> Check(j) != 6
      ensures answer.None? ==> forall j: nat :: j < M ==> Check(j) != 6
    {
      var r8 := 0;
      while r8 < 32768
        invariant r8 <= 32768
        invariant forall j: nat :: j < r8 ==> Check(j) != 6
      {
        ClearCache();
        var v := Ackermann(4, 1, r8);
        if v == 6 {
          return Some(r8);
        }
        r8 := r8 + 1;
      }
      return None;
    }
  }
}
