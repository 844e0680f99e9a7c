/** The running average price: how far rounding at every fill can carry it from the true
    quantity-weighted mean, and the range it can never leave. */
module AveragePrice {
  import opened Decimals
  import opened Orders

  datatype Fill = Fill(qty: real, px: real)

  ghost predicate Positive(fs: seq<Fill>) {
    forall i :: 0 <= i < |fs| ==> fs[i].qty > 0.0
  }

  function Volume(fs: seq<Fill>): real {
    if fs == [] then 0.0 else Volume(fs[..|fs| - 1]) + fs[|fs| - 1].qty
  }

  function Notional(fs: seq<Fill>): real {
    if fs == [] then 0.0 else Notional(fs[..|fs| - 1]) + fs[|fs| - 1].px * fs[|fs| - 1].qty
  }

  /** The average the venue keeps: recomputed from its own last value at every fill. */
  function RunningAvg(fs: seq<Fill>): real {
    if fs == [] then 0.0 else
      var before := fs[..|fs| - 1];
      var f := fs[|fs| - 1];
      Averaged(RunningAvg(before), Volume(before), f.qty, f.px)
  }

  /** An order after a run of accepted fills. */
  function TradeAll(o: OrderState, fs: seq<Fill>): Result<OrderState> {
    if fs == [] then Ok(o) else
      var before := TradeAll(o, fs[..|fs| - 1]);
      if before.Err? then before else Apply(Trade(fs[|fs| - 1].qty, fs[|fs| - 1].px), before.value)
  }

  /** The order's own fields after any accepted fills are the volume and the running average. */
  lemma {:induction false} TradeAllAverages(o: OrderState, fs: seq<Fill>)
    requires o.status == New && o.cumQty == 0.0 && o.avgPx == 0.0
    requires TradeAll(o, fs).Ok?
    ensures var n := TradeAll(o, fs).value; n.cumQty == Volume(fs) && n.avgPx == RunningAvg(fs)
  {
    if fs != [] {
      TradeAllAverages(o, fs[..|fs| - 1]);
    }
  }

  lemma {:induction false} VolumePositive(fs: seq<Fill>)
    requires Positive(fs)
    ensures Volume(fs) >= 0.0
    ensures fs != [] ==> Volume(fs) > 0.0
  {
    if fs != [] {
      VolumePositive(fs[..|fs| - 1]);
    }
  }

  /** Half a unit in the sixteenth place: what one division can be off by. */
  const ULP: real := 0.5 / DIVISION_SCALE as real

  lemma ErrorTimes(r: real, q: real, x: real, y: real, u: real)
    requires y > 0.0 && x == q * y && -u <= r - q <= u
    ensures -(u * y) <= r * y - x <= u * y
  {
    assert r * y - x == (r - q) * y;
    assert (r - q) * y <= u * y;
    assert (r - q) * y >= (-u) * y;
  }

  lemma Quotient(x: real, y: real) returns (q: real)
    requires y > 0.0
    ensures q == x / y && x == q * y
    ensures Div(x, y) == Round(q, DIVISION_SCALE)
    ensures -ULP <= Div(x, y) - q <= ULP
  {
    q := x / y;
    RoundIsNear(q, DIVISION_SCALE);
  }

  lemma CombineBounds(s: real, t: real, d: real, u: real, c: real, y: real)
    requires d >= 0.0 && 0.0 <= c <= y
    requires -(d * c) <= s <= d * c && -(u * y) <= t <= u * y
    ensures -((d + u) * y) <= s + t <= (d + u) * y
  {
    assert d * c <= d * y;
    assert (d + u) * y == d * y + u * y;
  }

  /** One fill adds at most one rounding error to the drift it inherits: `booked` is the old
      average times the old volume `c`, `n` the true notional, `f` the new fill's. */
  lemma DriftStep(booked: real, n: real, c: real, f: real, y: real, d: real)
    requires 0.0 <= c < y && d >= 0.0
    requires -(d * c) <= booked - n <= d * c
    ensures -((d + ULP) * y) <= Div(booked + f, y) * y - (n + f) <= (d + ULP) * y
  {
    hide Div;
    var x := booked + f;
    var e := Div(x, y) * y - x;
    assert -(ULP * y) <= e <= ULP * y by {
      var t := Quotient(x, y);
      ErrorTimes(Div(x, y), t, x, y, ULP);
    }
    CombineBounds(booked - n, e, d, ULP, c, y);
    assert Div(x, y) * y - (n + f) == (booked - n) + e;
  }

  /** An average over volume `v` that misses the notional `n` by at most `d` for each unit. */
  ghost predicate Drifted(avg: real, n: real, v: real, d: real) {
    -(d * v) <= avg * v - n <= d * v
  }

  lemma AveragedDrift(avg: real, n: real, c: real, q: real, p: real, d: real)
    requires c >= 0.0 && q > 0.0 && d >= 0.0 && Drifted(avg, n, c, d)
    ensures Drifted(Averaged(avg, c, q, p), n + p * q, c + q, d + ULP)
  {
    hide Div;
    DriftStep(avg * c, n, c, p * q, c + q, d);
  }

  function Drift(n: nat): real {
    if n == 0 then 0.0 else Drift(n - 1) + ULP
  }

  lemma {:induction false} DriftIsLinear(n: nat)
    ensures 0.0 <= Drift(n) == n as real * ULP
  {
    if n > 0 {
      DriftIsLinear(n - 1);
    }
  }

  lemma {:induction false} DriftTimesVolume(fs: seq<Fill>)
    requires Positive(fs)
    ensures Drifted(RunningAvg(fs), Notional(fs), Volume(fs), Drift(|fs|))
  {
    hide Averaged;
    if fs == [] {
      assert Volume(fs) == 0.0 && Notional(fs) == 0.0;
    } else {
      hide Drifted;
      var before, f := fs[..|fs| - 1], fs[|fs| - 1];
      DriftTimesVolume(before);
      VolumePositive(before);
      DriftIsLinear(|before|);
      AveragedDrift(RunningAvg(before), Notional(before), Volume(before), f.qty, f.px, Drift(|before|));
    }
  }

  /** After n fills the average is within n half-units of the true mean. */
  lemma AvgPxErrorBound(fs: seq<Fill>)
    requires Positive(fs) && fs != []
    ensures Volume(fs) > 0.0
    ensures Abs(RunningAvg(fs) - Notional(fs) / Volume(fs)) <= |fs| as real * ULP
  {
    hide RunningAvg, Volume, Notional;
    VolumePositive(fs);
    DriftIsLinear(|fs|);
    DriftTimesVolume(fs);
    Unscale(RunningAvg(fs), Notional(fs), Volume(fs), Drift(|fs|));
  }

  lemma Unscale(avg: real, n: real, v: real, d: real)
    requires v > 0.0 && -(d * v) <= avg * v - n <= d * v
    ensures -d <= avg - n / v <= d
  {
    var m := n / v;
    assert n == m * v;
    assert (avg - m) * v == avg * v - n;
    UnscaleOrder(avg - m, d, v);
    UnscaleOrder(-d, avg - m, v);
  }

  lemma UnscaleOrder(x: real, y: real, v: real)
    requires v > 0.0 && x * v <= y * v
    ensures x <= y
  {
  }

  /** AvgPx (tag 6) is within n half-units and half a cent of the true mean. */
  lemma WireAvgPxErrorBound(fs: seq<Fill>)
    requires Positive(fs) && fs != []
    ensures Volume(fs) > 0.0
    ensures Abs(Round(RunningAvg(fs), PX_SCALE) - Notional(fs) / Volume(fs)) <= |fs| as real * ULP + 0.005
  {
    AvgPxErrorBound(fs);
    RoundIsNear(RunningAvg(fs), PX_SCALE);
  }

  /** No division of the run had to be rounded. */
  ghost predicate DividesExactly(fs: seq<Fill>) {
    fs == [] ||
    var before, f := fs[..|fs| - 1], fs[|fs| - 1];
    DividesExactly(before) && ExactAverage(RunningAvg(before), Volume(before), f.qty, f.px)
  }

  ghost predicate ExactAverage(avg: real, c: real, q: real, p: real) {
    c + q != 0.0 && Averaged(avg, c, q, p) == (avg * c + p * q) / (c + q)
  }

  /** When no division had to be rounded there is no drift at all. */
  lemma {:induction false} ExactDivisionHasNoDrift(fs: seq<Fill>)
    requires DividesExactly(fs)
    ensures RunningAvg(fs) * Volume(fs) == Notional(fs)
  {
    hide Averaged, ExactAverage;
    if fs == [] {
      assert Volume(fs) == 0.0 && Notional(fs) == 0.0;
    } else {
      var before, f := fs[..|fs| - 1], fs[|fs| - 1];
      ExactDivisionHasNoDrift(before);
      ExactStep(RunningAvg(before), Volume(before), f.qty, f.px);
    }
  }

  lemma ExactStep(avg: real, c: real, q: real, p: real)
    requires ExactAverage(avg, c, q, p)
    ensures Averaged(avg, c, q, p) * (c + q) == avg * c + p * q
  {
    hide Averaged;
    var m := (avg * c + p * q) / (c + q);
    assert m * (c + q) == avg * c + p * q;
  }

  ghost predicate Within(fs: seq<Fill>, lo: real, hi: real) {
    forall i :: 0 <= i < |fs| ==> lo <= fs[i].px <= hi
  }

  lemma Distribute(d: real, a: real, b: real)
    ensures d * (a + b) == d * a + d * b
  {
  }

  lemma ScaleOrder(x: real, y: real, v: real)
    requires v >= 0.0 && x <= y
    ensures x * v <= y * v
  {
  }

  /** If both parts of a mean are at least `lo` times their weight, so is the whole. */
  lemma OneSided(loC: real, loQ: real, aC: real, pQ: real, lo: real, m: real, c: real, q: real)
    requires c + q > 0.0 && loC == lo * c && loQ == lo * q
    requires loC <= aC && loQ <= pQ && aC + pQ == m * (c + q)
    ensures lo <= m
  {
    Distribute(lo, c, q);
    UnscaleOrder(lo, m, c + q);
  }

  /** A weighted mean lies between its two values. */
  lemma MeanIsBetween(a: real, c: real, p: real, q: real, m: real, lo: real, hi: real)
    requires c >= 0.0 && q > 0.0 && a * c + p * q == m * (c + q)
    requires lo <= p <= hi && (c > 0.0 ==> lo <= a <= hi)
    ensures lo <= m <= hi
  {
    ScaleOrder(lo, p, q);
    ScaleOrder(p, hi, q);
    if c > 0.0 {
      ScaleOrder(lo, a, c);
      ScaleOrder(a, hi, c);
    }
    assert lo * c <= a * c <= hi * c;
    OneSided(lo * c, lo * q, a * c, p * q, lo, m, c, q);
    OneSided(-hi * c, -hi * q, -a * c, -p * q, -hi, -m, c, q);
  }

  /** One fill makes the average the rounding of a mean of the old average and the fill's price. */
  lemma AverageOfMean(a: real, c: real, p: real, q: real, lo: real, hi: real) returns (m: real)
    requires c >= 0.0 && q > 0.0 && lo <= p <= hi
    requires c > 0.0 ==> lo <= a <= hi
    ensures lo <= m <= hi && Averaged(a, c, q, p) == Round(m, DIVISION_SCALE)
  {
    hide Round, Div;
    m := Quotient(a * c + p * q, c + q);
    MeanIsBetween(a, c, p, q, m, lo, hi);
  }

  /** One fill priced in range leaves a rounded average in the rounded range. */
  lemma RangeStep(a: real, c: real, p: real, q: real, lo: real, hi: real)
    requires c >= 0.0 && q > 0.0 && lo <= p <= hi
    requires c > 0.0 ==> Round(lo, DIVISION_SCALE) <= a <= Round(hi, DIVISION_SCALE)
    ensures Round(lo, DIVISION_SCALE) <= Averaged(a, c, q, p) <= Round(hi, DIVISION_SCALE)
  {
    hide Averaged, Round;
    var rlo, rhi := Round(lo, DIVISION_SCALE), Round(hi, DIVISION_SCALE);
    var l := if rlo < lo then rlo else lo;
    var h := if rhi > hi then rhi else hi;
    var m := AverageOfMean(a, c, p, q, l, h);
    RoundIsIdempotent(lo, DIVISION_SCALE);
    RoundIsIdempotent(hi, DIVISION_SCALE);
    RoundIsMonotone(l, m, DIVISION_SCALE);
    RoundIsMonotone(m, h, DIVISION_SCALE);
  }

  /** Whatever the fills, the average stays between the rounded lowest and highest fill price,
      although it is rounded again at every step. */
  lemma {:induction false} AvgPxStaysInRange(fs: seq<Fill>, lo: real, hi: real)
    requires Positive(fs) && fs != [] && Within(fs, lo, hi)
    ensures Round(lo, DIVISION_SCALE) <= RunningAvg(fs) <= Round(hi, DIVISION_SCALE)
  {
    var before, f := fs[..|fs| - 1], fs[|fs| - 1];
    VolumePositive(before);
    if before != [] {
      AvgPxStaysInRange(before, lo, hi);
    }
    RangeStep(RunningAvg(before), Volume(before), f.px, f.qty, lo, hi);
  }

  /** The average of every order filled inside a price range stays inside that same range exactly
      when rounding pushes neither end of the range outwards; prices with up to sixteen decimal
      places never are. */
  lemma AvgPxStaysInExactRange(lo: real, hi: real)
    requires lo <= hi
    ensures (forall fs :: Positive(fs) && fs != [] && Within(fs, lo, hi) ==> lo <= RunningAvg(fs) <= hi)
       <==> lo <= Round(lo, DIVISION_SCALE) && Round(hi, DIVISION_SCALE) <= hi
  {
    if lo <= Round(lo, DIVISION_SCALE) && Round(hi, DIVISION_SCALE) <= hi {
      forall fs | Positive(fs) && fs != [] && Within(fs, lo, hi)
        ensures lo <= RunningAvg(fs) <= hi
      {
        AvgPxStaysInRange(fs, lo, hi);
      }
    } else {
      var p := if lo <= Round(lo, DIVISION_SCALE) then hi else lo;
      var fs := [Fill(1.0, p)];
      SingleFillAvg(1.0, p);
      assert Positive(fs) && fs != [] && Within(fs, lo, hi);
    }
  }

  lemma SingleFillAvg(q: real, p: real)
    requires q > 0.0
    ensures RunningAvg([Fill(q, p)]) == Round(p, DIVISION_SCALE)
  {
    var fs := [Fill(q, p)];
    assert fs[..0] == [];
    assert RunningAvg(fs) == Averaged(0.0, 0.0, q, p);
    ZeroTerms(p, q);
  }

  lemma ZeroTerms(p: real, q: real)
    requires q > 0.0
    ensures Averaged(0.0, 0.0, q, p) == Round(p, DIVISION_SCALE)
  {
    var m := Quotient(0.0 * 0.0 + p * q, 0.0 + q);
    assert m * q == p * q;
    UnscaleOrder(m, p, q);
    UnscaleOrder(p, m, q);
  }
}
