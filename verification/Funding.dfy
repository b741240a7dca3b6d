// Funding payments: rounded toward zero per position, netting out over a balanced market.
module Funding {
  import opened Types

  const I128_MAX: int := 0x7FFF_FFFF_FFFF_FFFF_FFFF_FFFF_FFFF_FFFF
  type i128 = x: int | 0 - I128_MAX - 1 <= x <= I128_MAX

  predicate FitsI128(x: int) {
    0 - I128_MAX - 1 <= x <= I128_MAX
  }

  // An unchecked difference of two i128.
  function WrapI128(x: int): (r: i128)
    ensures FitsI128(x) ==> r == x
    ensures I128_MAX < x < U128 ==> r == x - U128
    ensures 0 - U128 < x < 0 - I128_MAX - 1 ==> r == x + U128
  {
    (x + I128_MAX + 1) % U128 - I128_MAX - 1
  }

  // Rust's signed division rounds toward zero.
  function TruncDiv(x: int, y: nat): (r: int)
    requires y > 0
  {
    if x >= 0 then x / y else 0 - (0 - x) / y
  }

  // The amount and whether the holder pays it. The product is checked against i128, the difference of the two
  // indices wraps.
  function Payment(size: u64, isLong: bool, entryIndex: i128, currentIndex: i128): (r: Result<(nat, bool)>)
    ensures r.Err? ==> r.error == Overflow
  {
    var move := WrapI128(currentIndex - entryIndex);
    if move == 0 then Ok((0, true))
    else if !FitsI128(size * move) then Err(Overflow)
    else
      var payment := TruncDiv(size * move, BASIS_POINTS);
      if payment > 0 then Ok((payment, isLong)) else Ok((0 - payment, !isLong))
  }

  datatype Holding = Holding(size: u64, isLong: bool)

  // What a holder pays, negative when it receives.
  function Signed(p: (nat, bool)): (r: int) {
    if p.1 then p.0 else 0 - p.0 as int
  }

  function Exposure(h: Holding): (r: int) {
    if h.isLong then h.size else 0 - h.size as int
  }

  lemma TruncOdd(x: int)
    ensures TruncDiv(0 - x, BASIS_POINTS) == 0 - TruncDiv(x, BASIS_POINTS)
  {
  }

  // A holder pays its signed exposure's share of the wrapped move, truncated.
  lemma PaymentOfMove(h: Holding, entryIndex: i128, currentIndex: i128)
    requires Payment(h.size, h.isLong, entryIndex, currentIndex).Ok?
    ensures Signed(Payment(h.size, h.isLong, entryIndex, currentIndex).value)
         == TruncDiv(Exposure(h) * WrapI128(currentIndex - entryIndex), BASIS_POINTS)
  {
    var move := WrapI128(currentIndex - entryIndex);
    hide WrapI128, TruncDiv;
    TruncNear(0);
    TruncOdd(h.size * move);
    assert (0 - h.size as int) * move == 0 - h.size * move;
  }

  // A payment is defined exactly when the size times the wrapped move fits, and it is the signed exposure's
  // share of the true index move exactly when that move fits as well.
  lemma PaymentExact(h: Holding, entryIndex: i128, currentIndex: i128)
    ensures var move, paid := currentIndex - entryIndex, Payment(h.size, h.isLong, entryIndex, currentIndex);
            && (paid.Ok? <==> FitsI128(h.size * WrapI128(move)))
            && (paid.Ok? ==> (Signed(paid.value) == TruncDiv(Exposure(h) * move, BASIS_POINTS) <==>
                              FitsI128(move) || h.size == 0))
  {
    var move := currentIndex - entryIndex;
    var paid := Payment(h.size, h.isLong, entryIndex, currentIndex);
    hide WrapI128;
    if paid.Ok? {
      PaymentOfMove(h, entryIndex, currentIndex);
      Shifted(h, move, WrapI128(move));
    }
  }

  // Moving an index by a whole turn of i128 more or less changes what any position pays.
  lemma Shifted(h: Holding, x: int, y: int)
    requires x == y || x - y == U128 || y - x == U128
    ensures TruncDiv(Exposure(h) * x, BASIS_POINTS) == TruncDiv(Exposure(h) * y, BASIS_POINTS)
            <==> x == y || h.size == 0
    ensures var apart := TruncDiv(Exposure(h) * x, BASIS_POINTS) - TruncDiv(Exposure(h) * y, BASIS_POINTS);
            x != y && h.size > 0 ==> apart > 2 || apart < -2
  {
    hide TruncDiv;
    var e := Exposure(h);
    TruncNear(e * x);
    TruncNear(e * y);
    if x != y && h.size > 0 {
      assert e * x - e * y == e * (x - y);
      Turn(e, x - y);
    }
  }

  lemma Turn(e: int, d: int)
    requires e != 0 && (d == U128 || d == 0 - U128)
    ensures e * d >= U128 || e * d <= 0 - U128
  {
  }

  // A long and a short of equal size cancel exactly.
  lemma OppositesCancel(size: u64, entryIndex: i128, currentIndex: i128)
    requires Payment(size, true, entryIndex, currentIndex).Ok?
    ensures Payment(size, false, entryIndex, currentIndex).Ok?
    ensures Signed(Payment(size, true, entryIndex, currentIndex).value)
            + Signed(Payment(size, false, entryIndex, currentIndex).value) == 0
  {
    PaymentOfMove(Holding(size, true), entryIndex, currentIndex);
    PaymentOfMove(Holding(size, false), entryIndex, currentIndex);
    var move := WrapI128(currentIndex - entryIndex);
    assert (0 - size as int) * move == 0 - size * move;
    TruncOdd(size * move);
  }

  // Truncation is off by less than one unit, toward zero.
  lemma TruncNear(x: int)
    ensures 0 - BASIS_POINTS < TruncDiv(x, BASIS_POINTS) * BASIS_POINTS - x < BASIS_POINTS
    ensures x >= 0 ==> TruncDiv(x, BASIS_POINTS) * BASIS_POINTS <= x
    ensures x <= 0 ==> TruncDiv(x, BASIS_POINTS) * BASIS_POINTS >= x
  {
  }

  // Charging an index move in two parts changes a payment by at most one unit exactly when the two wrapped
  // moves together fit, or there is nothing to pay for.
  lemma SplitMoves(h: Holding, a: i128, b: i128, c: i128)
    requires Payment(h.size, h.isLong, a, b).Ok? && Payment(h.size, h.isLong, b, c).Ok? &&
             Payment(h.size, h.isLong, a, c).Ok?
    ensures var whole := Signed(Payment(h.size, h.isLong, a, c).value);
            var parts := Signed(Payment(h.size, h.isLong, a, b).value) + Signed(Payment(h.size, h.isLong, b, c).value);
            -1 <= whole - parts <= 1 <==> h.size == 0 || FitsI128(WrapI128(b - a) + WrapI128(c - b))
  {
    var first: int, second: int, move: int := WrapI128(b - a), WrapI128(c - b), WrapI128(c - a);
    hide Payment, TruncDiv, Exposure, WrapI128;
    PaymentOfMove(h, a, b);
    PaymentOfMove(h, b, c);
    PaymentOfMove(h, a, c);
    MovesAdd(a, b, c);
    Shifted(h, first + second, move);
    SplitTruncates(Exposure(h), first, second);
  }

  // Wrapped moves add up to the wrapped whole, or miss it by one turn.
  lemma MovesAdd(a: i128, b: i128, c: i128)
    ensures var both, move := WrapI128(b - a) + WrapI128(c - b), WrapI128(c - a);
            && (both == move || both - move == U128 || move - both == U128)
            && (both == move <==> FitsI128(both))
  {
    hide WrapI128;
  }

  lemma SplitTruncates(e: int, x: int, y: int)
    ensures var b := BASIS_POINTS;
            -1 <= TruncDiv(e * (x + y), b) - (TruncDiv(e * x, b) + TruncDiv(e * y, b)) <= 1
  {
    hide TruncDiv;
    assert e * (x + y) == e * x + e * y;
    TruncNear(e * x);
    TruncNear(e * y);
    TruncNear(e * (x + y));
  }

  // An index that rises by half a turn: the holder of one contract long, who owes the move's share, is paid it.
  lemma WrappedMoveExample(entry: i128)
    requires entry == 0 - I128_MAX - 1
    ensures Payment(1, true, entry, 0) == Ok((0x8000_0000_0000_0000_0000_0000_0000_0000 / BASIS_POINTS, false))
    ensures 0 - entry > 0
  {
  }

  function TotalExposure(hs: seq<Holding>): (r: int) {
    if hs == [] then 0 else TotalExposure(hs[..|hs| - 1]) + Exposure(hs[|hs| - 1])
  }

  ghost predicate AllPay(hs: seq<Holding>, entryIndex: i128, currentIndex: i128) {
    forall h :: h in hs ==> Payment(h.size, h.isLong, entryIndex, currentIndex).Ok?
  }

  function TotalPaid(hs: seq<Holding>, entryIndex: i128, currentIndex: i128): (r: int) {
    if hs == [] then 0
    else
      TotalPaid(hs[..|hs| - 1], entryIndex, currentIndex) +
      (match Payment(hs[|hs| - 1].size, hs[|hs| - 1].isLong, entryIndex, currentIndex)
       case Ok(p) => Signed(p)
       case Err(_) => 0)
  }

  lemma Distribute(a: int, b: int, c: int)
    ensures (a + b) * c == a * c + b * c
  {
  }

  // The rounding lost over any holdings is less than one unit each.
  lemma {:induction false} PaidNear(hs: seq<Holding>, entryIndex: i128, currentIndex: i128)
    requires AllPay(hs, entryIndex, currentIndex)
    ensures var paid := TotalPaid(hs, entryIndex, currentIndex);
            var exact := TotalExposure(hs) * WrapI128(currentIndex - entryIndex);
            var error := paid * BASIS_POINTS - exact;
            && 0 - |hs| * BASIS_POINTS <= error <= |hs| * BASIS_POINTS
            && (hs != [] ==> 0 - |hs| * BASIS_POINTS < error < |hs| * BASIS_POINTS)
  {
    if hs != [] {
      hide Payment, TruncDiv, Exposure, WrapI128;
      var init, h := hs[..|hs| - 1], hs[|hs| - 1];
      var move := WrapI128(currentIndex - entryIndex);
      assert h in hs;
      PaidNear(init, entryIndex, currentIndex);
      PaymentOfMove(h, entryIndex, currentIndex);
      TruncNear(Exposure(h) * move);
      Distribute(TotalExposure(init), Exposure(h), move);
      assert TotalPaid(hs, entryIndex, currentIndex)
          == TotalPaid(init, entryIndex, currentIndex) + TruncDiv(Exposure(h) * move, BASIS_POINTS);
    }
  }

  // Funding nets out: over holdings with equal long and short size and one entry index, what is paid and
  // received differs by less than the number of holdings.
  lemma FundingNetsOut(hs: seq<Holding>, entryIndex: i128, currentIndex: i128)
    requires hs != [] && TotalExposure(hs) == 0 && AllPay(hs, entryIndex, currentIndex)
    ensures 0 - |hs| < TotalPaid(hs, entryIndex, currentIndex) < |hs|
  {
    PaidNear(hs, entryIndex, currentIndex);
    assert TotalExposure(hs) * WrapI128(currentIndex - entryIndex) == 0;
  }
}
