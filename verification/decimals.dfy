/** The decimal arithmetic the venue relies on: rounding to a fixed number of places, halves away
    from zero. Division keeps sixteen places; the wire carries quantities with none and prices
    with two. Everything else (sums, products) is exact. */
module Decimals {

  /** Division keeps sixteen decimal places. */
  const DIVISION_SCALE: int := 10_000_000_000_000_000

  /** Tags 14, 32, 38 and 151 carry no decimal places; tags 6, 31 and 44 carry two. */
  const QTY_SCALE: int := 1
  const PX_SCALE: int := 100

  /** `x` as the nearest whole number of `1/scale` units, halves upwards. */
  function NearestUnits(x: real, scale: int): int
    requires scale > 0
  {
    (x * scale as real + 0.5).Floor
  }

  /** `x` rounded to a multiple of `1/scale`, halves away from zero. */
  function Round(x: real, scale: int): real
    requires scale > 0
  {
    if x < 0.0 then -(NearestUnits(-x, scale) as real / scale as real)
    else NearestUnits(x, scale) as real / scale as real
  }

  /** The quotient to sixteen places. Dividing by zero is a panic in the source; here it is zero,
      and `Orders.TradeDividesByPositive` shows that no reachable trade divides by zero. */
  function Div(x: real, y: real): real {
    if y == 0.0 then 0.0 else Round(x / y, DIVISION_SCALE)
  }

  /** Sixteen places, the last one rounded. */
  lemma SixteenPlaces()
    ensures Div(1.0, 3.0) == 0.333_333_333_333_333_3 && Div(2.0, 3.0) == 0.666_666_666_666_666_7
  {
    assert (1.0 / 3.0 * 10_000_000_000_000_000.0 + 0.5).Floor == 3_333_333_333_333_333;
    assert (2.0 / 3.0 * 10_000_000_000_000_000.0 + 0.5).Floor == 6_666_666_666_666_667;
  }

  function Abs(x: real): real {
    if x < 0.0 then -x else x
  }

  /** A value that rounding to `scale` leaves alone. */
  predicate OnGrid(x: real, scale: int)
    requires scale > 0
  {
    x == (x * scale as real).Floor as real / scale as real
  }

  lemma DivideMonotone(lo: real, hi: real, s: real)
    requires s > 0.0 && lo <= hi
    ensures lo / s <= hi / s
  {
  }

  lemma FloorMonotone(x: real, y: real)
    requires x <= y
    ensures x.Floor <= y.Floor
  {
    assert x.Floor as real < y.Floor as real + 1.0;
  }

  /** Rounding moves a value by at most half a unit. */
  lemma RoundIsNear(x: real, scale: int)
    requires scale > 0
    ensures Abs(Round(x, scale) - x) <= 0.5 / scale as real
  {
    var s := scale as real;
    var y := Abs(x);
    var n := NearestUnits(y, scale) as real;
    DivideMonotone(y * s - 0.5, n, s);
    DivideMonotone(n, y * s + 0.5, s);
    assert (y * s - 0.5) / s == y - 0.5 / s;
    assert (y * s + 0.5) / s == y + 0.5 / s;
  }

  lemma ScaleMonotone(x: real, y: real, s: real)
    requires s > 0.0 && x <= y
    ensures x * s <= y * s
  {
  }

  lemma NearestUnitsMonotone(x: real, y: real, scale: int)
    requires scale > 0 && 0.0 <= x <= y
    ensures 0 <= NearestUnits(x, scale) <= NearestUnits(y, scale)
    ensures 0.0 <= NearestUnits(x, scale) as real / scale as real <= NearestUnits(y, scale) as real / scale as real
  {
    var s := scale as real;
    var m, n := NearestUnits(x, scale), NearestUnits(y, scale);
    assert 0 <= m <= n by {
      ScaleMonotone(0.0, x, s);
      ScaleMonotone(x, y, s);
      FloorMonotone(x * s + 0.5, y * s + 0.5);
      FloorMonotone(0.5, x * s + 0.5);
    }
    hide NearestUnits;
    DivideMonotone(m as real, n as real, s);
    DivideMonotone(0.0, m as real, s);
  }

  /** Rounding keeps the order of any two values. */
  lemma RoundIsMonotone(x: real, y: real, scale: int)
    requires scale > 0 && x <= y
    ensures Round(x, scale) <= Round(y, scale)
  {
    if 0.0 <= x {
      NearestUnitsMonotone(x, y, scale);
    } else if y < 0.0 {
      NearestUnitsMonotone(-y, -x, scale);
    } else {
      NearestUnitsMonotone(0.0, -x, scale);
      NearestUnitsMonotone(0.0, y, scale);
    }
  }

  /** Halves go away from zero, on either side. */
  lemma HalvesGoAway(n: nat, scale: int)
    requires scale > 0
    ensures Round((n as real + 0.5) / scale as real, scale) == (n as real + 1.0) / scale as real
    ensures Round(-((n as real + 0.5) / scale as real), scale) == -((n as real + 1.0) / scale as real)
  {
    var x := (n as real + 0.5) / scale as real;
    assert x * scale as real == n as real + 0.5;
    assert NearestUnits(x, scale) == n + 1;
  }

  /** Whole multiples of the unit are fixed points. */
  lemma RoundFixesUnits(k: int, scale: int)
    requires scale > 0
    ensures Round(k as real / scale as real, scale) == k as real / scale as real
  {
    var s := scale as real;
    var x := k as real / s;
    assert x * s == k as real;
    if x < 0.0 {
      assert -x * s == -(k as real);
      assert NearestUnits(-x, scale) == -k;
    } else {
      assert NearestUnits(x, scale) == k;
    }
  }

  /** Rounding lands on a whole multiple of the unit. */
  function Units(x: real, scale: int): (k: int)
    requires scale > 0
    ensures Round(x, scale) == k as real / scale as real
  {
    if x < 0.0 then -NearestUnits(-x, scale) else NearestUnits(x, scale)
  }

  lemma RoundIsIdempotent(x: real, scale: int)
    requires scale > 0
    ensures Round(Round(x, scale), scale) == Round(x, scale)
  {
    RoundFixesUnits(Units(x, scale), scale);
  }

  /** The fixed points of rounding are exactly the values on the grid. */
  lemma RoundFixesExactlyTheGrid(x: real, scale: int)
    requires scale > 0
    ensures Round(x, scale) == x <==> OnGrid(x, scale)
  {
    if OnGrid(x, scale) {
      RoundFixesUnits((x * scale as real).Floor, scale);
    }
    RoundLandsOnTheGrid(x, scale);
  }

  lemma RoundLandsOnTheGrid(x: real, scale: int)
    requires scale > 0
    ensures OnGrid(Round(x, scale), scale)
  {
    var k := Units(x, scale);
    assert Round(x, scale) * scale as real == k as real;
    assert (Round(x, scale) * scale as real).Floor == k;
  }
}
