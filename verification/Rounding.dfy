// The few facts about multiplication and floored division the arithmetic needs.
module Rounding {
  import opened Types

  lemma MulMono(a: int, b: int, c: nat)
    requires a <= b
    ensures a * c <= b * c
  {
  }

  lemma {:induction false} MulStrict(s: nat, a: int, b: int)
    requires s > 0
    ensures a > b ==> s * a > s * b
  {
    if s > 1 {
      MulStrict(s - 1, a, b);
      assert s * a == (s - 1) * a + a;
      assert s * b == (s - 1) * b + b;
    }
  }

  lemma CancelFactor(s: nat, a: int, b: int)
    requires s > 0 && s * a <= s * b
    ensures a <= b
  {
    MulStrict(s, a, b);
  }

  lemma CancelStrict(s: nat, a: int, b: int)
    requires s * a < s * b
    ensures a < b
  {
    if s > 0 {
      MulStrict(s, a, b);
    }
  }

  lemma FloorBelow(x: nat, y: nat)
    requires y > 0
    ensures 0 <= (x / y) * y <= x < (x / y + 1) * y
  {
  }

  // q is x over y, rounded down.
  ghost predicate IsFloor(q: int, x: int, y: int) {
    q * y <= x < (q + 1) * y
  }

  lemma FloorIs(x: nat, y: nat)
    requires y > 0
    ensures IsFloor(x / y, x, y) && x / y >= 0
  {
  }

  lemma FloorUnique(x: nat, y: nat, n: nat)
    requires y > 0 && n * y <= x < (n + 1) * y
    ensures x / y == n
  {
    FloorBelow(x, y);
    CancelStrict(y, n, x / y + 1);
    CancelStrict(y, x / y, n + 1);
  }

  lemma DivideTwice(x: nat, a: nat, b: nat)
    requires a > 0 && b > 0
    ensures a * b > 0 && x / a / b == x / (a * b)
  {
    var n := x / a / b;
    FloorBelow(x / a, b);
    FloorBelow(x, a);
    MulMono(n * b, x / a, a);
    MulMono(x / a + 1, (n + 1) * b, a);
    assert n * (a * b) == n * b * a && (n + 1) * (a * b) == (n + 1) * b * a;
    FloorUnique(x, a * b, n);
  }

  lemma FloorLoss(x: nat)
    ensures (x / BASIS_POINTS + 1) * BASIS_POINTS >= x
  {
  }

  lemma DivBetween(x: nat, y: nat, lo: nat, hi: nat)
    requires y > 0 && lo * y <= x <= hi * y
    ensures lo <= x / y <= hi
  {
    FloorBelow(x, y);
    CancelStrict(y, lo, x / y + 1);
    CancelFactor(y, x / y, hi);
  }

  lemma ProductBelow(a: nat, b: nat, top: nat)
    requires a <= top && b <= top
    ensures 0 <= a * b <= top * top
  {
    MulMono(0, a, b);
    MulMono(a, top, b);
    MulMono(b, top, top);
  }

  lemma ProductFits(a: u64, b: u64)
    ensures 0 <= a * b < U128
  {
    ProductBelow(a, b, U64 - 1);
  }
}
