/** How large a slot or role table becomes: the least power of two that holds the requested number of entries. */
module TableSizes {

  function Pow2(k: nat): nat {
    if k == 0 then 1 else 2 * Pow2(k - 1)
  }

  ghost predicate IsPow2(n: nat) {
    exists k: nat :: Pow2(k) == n
  }

  lemma {:induction false} Pow2Grows(j: nat, k: nat)
    requires j < k
    ensures 0 < Pow2(j) && 2 * Pow2(j) <= Pow2(k)
    decreases k
  {
    Pow2Positive(j);
    if j < k - 1 {
      Pow2Grows(j, k - 1);
    }
  }

  lemma {:induction false} Pow2Positive(k: nat)
    ensures 0 < Pow2(k)
  {
    if k > 0 {
      Pow2Positive(k - 1);
    }
  }

  /** The least power of two that is at least n. */
  ghost predicate IsLeastPow2(size: nat, n: nat) {
    IsPow2(size) && n <= size && forall m | IsPow2(m) && n <= m :: size <= m
  }

  lemma LeastPow2(size: nat, n: nat)
    requires IsPow2(size) && n <= size && (size == 1 || size < 2 * n)
    ensures IsLeastPow2(size, n)
  {
    var k: nat :| Pow2(k) == size;
    forall m | IsPow2(m) && n <= m ensures size <= m {
      var j: nat :| Pow2(j) == m;
      Pow2Positive(j);
      if j < k {
        Pow2Grows(j, k);
      } else if k < j {
        Pow2Grows(k, j);
      }
    }
  }

  lemma HalfPow2(n: nat)
    requires IsPow2(n) && n > 1
    ensures IsPow2(n / 2) && 2 * (n / 2) == n
  {
    var k: nat :| Pow2(k) == n;
    assert k > 0 && Pow2(k - 1) == n / 2;
  }

  lemma DoublePow2(n: nat)
    requires IsPow2(n)
    ensures IsPow2(2 * n)
  {
    var k: nat :| Pow2(k) == n;
    assert Pow2(k + 1) == 2 * n;
  }

  /**
   * role_table_accommodate and slot_table_accommodate: halves the size while it is too large, doubles it while it is too small.
   * Only for a table without entries and a request of 1 is there no end to the doubling; see ZeroStaysZero.
   */
  method Accommodate(capacity: nat, n: int) returns (tableSize: nat)
    requires (IsPow2(capacity) || capacity == 0) && 0 <= capacity + n && !(capacity == 0 && n == 1)
    ensures capacity + n == 0 ==> tableSize == 0
    ensures capacity + n > 0 ==> IsLeastPow2(tableSize, capacity + n)
  {
    tableSize := capacity;
    var requested := capacity + n;
    if capacity > 0 {
      Positive(capacity);
    }
    while tableSize > requested
      invariant (IsPow2(tableSize) && tableSize > 0) || (tableSize == 0 && (requested == 0 || capacity == 0))
      decreases tableSize
    {
      if tableSize > 1 {
        HalfPow2(tableSize);
      }
      tableSize := tableSize / 2;
    }
    if tableSize == 0 && requested > 1 {
      assert Pow2(0) == 1;
      tableSize := 1;
    }
    while tableSize < requested
      invariant requested > 0 ==> IsPow2(tableSize) && tableSize > 0 && (tableSize < 2 * requested || tableSize == 1)
      invariant requested == 0 ==> tableSize == 0
      decreases requested - tableSize
    {
      DoublePow2(tableSize);
      tableSize := 2 * tableSize;
    }
    if requested > 0 {
      LeastPow2(tableSize, requested);
    }
  }

  lemma Positive(n: nat)
    requires IsPow2(n)
    ensures n > 0
  {
    var k: nat :| Pow2(k) == n;
    Pow2Positive(k);
  }

  /** Why the capacity must be at least 1: from 0, a request of 1 is never reached by doubling. */
  lemma {:induction false} ZeroStaysZero(steps: nat)
    ensures Doubled(0, steps) < 1
  {
    if steps > 0 {
      ZeroStaysZero(steps - 1);
    }
  }

  function Doubled(size: nat, steps: nat): nat {
    if steps == 0 then size else 2 * Doubled(size, steps - 1)
  }
}
