/** Facts about multiplication, division and remainder that the solver does not find by itself. */
module Arith {
  function Max(a: int, b: int): int {
    if a >= b then a else b
  }

  lemma MulMono(a: int, b: int, m: nat)
    requires a <= b
    ensures a * m <= b * m
  {}

  lemma DivModUnique(x: int, b: nat, q: int, r: int)
    requires 0 <= r < b && x == q * b + r
    ensures x / b == q && x % b == r
  {
    var q' := x / b;
    assert x == q' * b + x % b;
    if q' < q {
      MulMono(q' + 1, q, b);
    } else if q < q' {
      MulMono(q + 1, q', b);
    }
  }

  lemma CongruentAndClose(a: int, b: int, m: nat)
    requires m > 0 && a % m == b % m && a - b < m && b - a < m
    ensures a == b
  {
    var d := a / m - b / m;
    assert a - b == d * m;
    if d >= 1 {
      MulMono(1, d, m);
    } else if d <= -1 {
      MulMono(d, -1, m);
    }
  }

  lemma ModShift(a: int, k: int, m: nat)
    requires m > 0
    ensures (a + k * m) % m == a % m && (a + k * m) / m == a / m + k
  {
    assert a + k * m == (a / m + k) * m + a % m;
    DivModUnique(a + k * m, m, a / m + k, a % m);
  }

  lemma ModStep(a: int, m: nat)
    requires m > 0
    ensures (a + 1) % m == if a % m + 1 == m then 0 else a % m + 1
  {
    if a % m + 1 == m {
      assert a + 1 == (a / m + 1) * m + 0;
      DivModUnique(a + 1, m, a / m + 1, 0);
    } else {
      DivModUnique(a + 1, m, a / m, a % m + 1);
    }
  }

  lemma SplitOrder(a: nat, b: nat, m: nat)
    requires m > 0 && a % m == b % m
    ensures a / m < b / m <==> a < b
    ensures a / m == b / m <==> a == b
  {
    var q, r := a / m, b / m;
    assert a == q * m + a % m && b == r * m + a % m;
    if q < r {
      MulMono(q + 1, r, m);
    } else if r < q {
      MulMono(r + 1, q, m);
    }
  }

  lemma QuotientBound(a: nat, m: nat, n: nat)
    requires m > 0 && a < n * m
    ensures a / m < n
  {
    if a / m >= n {
      MulMono(n, a / m, m);
    }
  }

  /** `laps * size`, defined by recursion so that proofs about ring positions do not meet products of
    * variables unless they ask for them with `LapsIsProduct`. */
  function Laps(laps: nat, size: nat): (n: nat) {
    if laps == 0 then 0 else Laps(laps - 1, size) + size
  }

  lemma {:induction false} LapsIsProduct(laps: nat, size: nat)
    ensures Laps(laps, size) == laps * size
  {
    if laps > 0 {
      LapsIsProduct(laps - 1, size);
      assert laps * size == (laps - 1) * size + size;
    }
  }

  lemma {:induction false} LapsGrow(a: nat, b: nat, size: nat)
    requires a < b
    ensures Laps(a, size) + size <= Laps(b, size)
  {
    if a + 1 < b {
      LapsGrow(a, b - 1, size);
    }
  }

  lemma {:induction false} LapsAdd(a: nat, b: nat, size: nat)
    ensures Laps(a + b, size) == Laps(a, size) + Laps(b, size)
  {
    if b > 0 {
      LapsAdd(a, b - 1, size);
    }
  }

  lemma {:induction false} LapsSplit(x: nat, q: nat, r: nat, size: nat)
    requires r < size && x == Laps(q, size) + r
    ensures x / size == q && x % size == r
  {
    LapsIsProduct(q, size);
    DivModUnique(x, size, q, r);
  }

  lemma LapsOf(x: nat, size: nat)
    requires size > 0
    ensures x == Laps(x / size, size) + x % size
  {
    LapsIsProduct(x / size, size);
  }

  lemma LapsU32(size: nat)
    ensures Laps(0x1_0000_0000, size) == 0x1_0000_0000 * size
  {
    LapsIsProduct(0x1_0000_0000, size);
  }
}
