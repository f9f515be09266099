/** Reparametrising an arbitrary easing curve so that progress never runs backwards. */
module Easing {
  import opened Reals

  /** A double: a number, or one of the values that are not finite. */
  datatype Double = Finite(value: real) | NotFinite

  datatype Curve = Linear | Shaped(at: real -> Double)

  function Evaluate(curve: Curve, progress: real): Double {
    match curve
    case Linear => Finite(progress)
    case Shaped(at) => at(progress)
  }

  const SAMPLES: nat := 512
  const EPSILON := 0.0000000000000002220446049250313

  function Grid(i: nat): real {
    i as real / 512.0
  }

  // The samples of a curve

  /** The curve on the grid, with both ends pinned. */
  ghost function Sample(curve: Curve, i: nat): Double {
    if i == 0 then Finite(0.0) else if i == SAMPLES then Finite(1.0) else Evaluate(curve, Grid(i))
  }

  ghost predicate FiniteOnGrid(curve: Curve) {
    forall i :: 0 <= i <= SAMPLES ==> Sample(curve, i).Finite?
  }

  ghost function Samples(curve: Curve): (raw: seq<real>)
    requires FiniteOnGrid(curve)
    ensures |raw| == SAMPLES + 1 && forall i :: 0 <= i <= SAMPLES ==> Sample(curve, i) == Finite(raw[i])
  {
    seq(SAMPLES + 1, i requires 0 <= i <= SAMPLES => Sample(curve, i).value)
  }

  ghost predicate Rises(raw: seq<real>) {
    forall i :: 0 < i < |raw| ==> raw[i - 1] <= raw[i]
  }

  ghost predicate InUnit(raw: seq<real>) {
    forall i :: 0 <= i < |raw| ==> 0.0 <= raw[i] <= 1.0
  }

  /** How far the samples travel, up and down, to reach position `n`. */
  ghost function Travel(raw: seq<real>, n: nat): real
    requires n < |raw|
  {
    if n == 0 then 0.0 else Travel(raw, n - 1) + Abs(raw[n] - raw[n - 1])
  }

  /** The travel up to a grid point, in the unit the table is built with. */
  ghost function Scaled(raw: seq<real>, n: nat, scale: real): real
    requires n < |raw| && 0.0 < scale
  {
    Travel(raw, n) / scale
  }

  lemma NextScaled(raw: seq<real>, n: nat, scale: real)
    requires 0 < n < |raw| && 0.0 < scale
    ensures Scaled(raw, n, scale) == Scaled(raw, n - 1, scale) + Abs(raw[n] / scale - raw[n - 1] / scale)
  {
    ScaledStep(raw[n], raw[n - 1], Travel(raw, n - 1), scale);
  }

  /** Each table entry is the share of the whole travel completed at its grid point. */
  ghost predicate IsTable(table: seq<real>, raw: seq<real>) {
    && |raw| == SAMPLES + 1 == |table| && 0.0 < Travel(raw, SAMPLES)
    && forall i :: 0 <= i <= SAMPLES ==> table[i] == Travel(raw, i) / Travel(raw, SAMPLES)
  }

  lemma {:induction false} TravelGrows(raw: seq<real>, m: nat, n: nat)
    requires m <= n < |raw|
    ensures 0.0 <= Travel(raw, m) <= Travel(raw, n)
    ensures Abs(raw[n] - raw[0]) <= Travel(raw, n)
  {
    if n == 0 {
    } else {
      TravelGrows(raw, if m == n then m - 1 else m, n - 1);
    }
  }

  lemma {:induction false} RisingTravel(raw: seq<real>, n: nat)
    requires n < |raw| && Rises(raw)
    ensures Travel(raw, n) == raw[n] - raw[0]
  {
    if n == 0 {
    } else {
      RisingTravel(raw, n - 1);
    }
  }

  /** The largest magnitude among the samples, and at least 1. */
  function Scale(raw: seq<real>): (scale: real)
    ensures 1.0 <= scale
  {
    if raw == [] then 1.0 else Max(Scale(raw[..|raw| - 1]), Abs(raw[|raw| - 1]))
  }

  method Largest(raw: seq<real>) returns (scale: real)
    ensures scale == Scale(raw)
  {
    scale := 1.0;
    for i := 0 to |raw|
      invariant scale == Scale(raw[..i])
    {
      assert raw[..i + 1][..i] == raw[..i];
      scale := Max(scale, Abs(raw[i]));
    }
    assert raw[..|raw|] == raw;
  }

  lemma {:induction false} ScaleIsReached(raw: seq<real>)
    ensures 1.0 <= Scale(raw) && (Scale(raw) == 1.0 || exists k :: 0 <= k < |raw| && Abs(raw[k]) == Scale(raw))
  {
    if raw == [] {
    } else {
      var n := |raw| - 1;
      ScaleIsReached(raw[..n]);
      if Scale(raw) != 1.0 && Abs(raw[n]) != Scale(raw) {
        var k :| 0 <= k < n && Abs(raw[..n][k]) == Scale(raw);
        assert Abs(raw[k]) == Scale(raw);
      }
    }
  }

  /** Samples a curve, and decides whether it already rises inside the unit interval. */
  method TakeSamples(requested: Curve) returns (finite: bool, rising: bool, raw: seq<real>)
    ensures finite <==> FiniteOnGrid(requested)
    ensures finite ==> raw == Samples(requested) && (rising <==> Rises(raw) && InUnit(raw))
  {
    raw := [0.0];
    rising := true;
    for i := 1 to SAMPLES
      invariant |raw| == i && forall k :: 0 <= k < i ==> Sample(requested, k) == Finite(raw[k])
      invariant rising <==> Rises(raw) && InUnit(raw)
    {
      var current := Evaluate(requested, i as real / 512.0);
      assert current == Sample(requested, i);
      if current.NotFinite? {
        return false, false, raw;
      }
      if current.value < raw[i - 1] || current.value < 0.0 || current.value > 1.0 {
        rising := false;
      }
      ghost var before := raw;
      raw := raw + [current.value];
      assert forall k :: 0 <= k < i ==> raw[k] == before[k];
    }
    if 1.0 < raw[SAMPLES - 1] {
      rising := false;
    }
    ghost var before := raw;
    raw := raw + [1.0];
    assert forall k :: 0 <= k < SAMPLES ==> raw[k] == before[k];
    finite := true;
    assert raw == Samples(requested);
  }

  // The object

  class MonotonicEasing {
    var curve: Curve
    var direct: bool
    const progress: array<real>

    /** What `reset` establishes for a requested curve. */
    ghost predicate Fits(requested: Curve)
      reads this, progress
    {
      && progress.Length == SAMPLES + 1
      && if !FiniteOnGrid(requested) then direct && curve == Linear
         else
           curve == requested
           && var raw := Samples(requested);
              direct == (Rises(raw) && InUnit(raw)) && (!direct ==> IsTable(progress[..], raw))
    }

    constructor (requested: Curve)
      ensures Fits(requested) && fresh(progress)
    {
      progress := new real[SAMPLES + 1];
      curve, direct := Linear, true;
      new;
      Reset(requested);
    }

    /** `reset` */
    method Reset(requested: Curve)
      requires progress.Length == SAMPLES + 1
      modifies this, progress
      ensures Fits(requested)
    {
      var finite, rising, raw := TakeSamples(requested);
      if !finite {
        curve, direct := Linear, true;
        return;
      }
      curve, direct := requested, rising;
      if direct {
        return;
      }
      BuildTable(raw);
      TotalTravel(raw);
    }

    /** The table for samples that do not rise on their own. Scaling before subtracting keeps extreme samples from
        overflowing; it does not change the table. */
    method BuildTable(raw: seq<real>)
      requires progress.Length == SAMPLES + 1 && |raw| == SAMPLES + 1 && !direct
      modifies this, progress
      ensures if Travel(raw, SAMPLES) / Scale(raw) <= EPSILON then direct && curve == Linear
              else !direct && curve == old(curve) && IsTable(progress[..], raw)
    {
      var scale := Largest(raw);
      Accumulate(raw, scale);
      var total := progress[SAMPLES];
      if total <= EPSILON {
        curve, direct := Linear, true;
        return;
      }
      Divide(raw, scale, total);
      progress[0], progress[SAMPLES] := 0.0, 1.0;
    }

    method Accumulate(raw: seq<real>, scale: real)
      requires progress.Length == SAMPLES + 1 && |raw| == SAMPLES + 1 && 0.0 < scale
      modifies progress
      ensures forall k :: 0 <= k <= SAMPLES ==> progress[k] == Scaled(raw, k, scale)
    {
      progress[0] := 0.0;
      for i := 1 to SAMPLES + 1
        invariant forall k :: 0 <= k < i ==> progress[k] == Scaled(raw, k, scale)
      {
        NextScaled(raw, i, scale);
        progress[i] := progress[i - 1] + Abs(raw[i] / scale - raw[i - 1] / scale);
      }
    }

    method Divide(raw: seq<real>, scale: real, total: real)
      requires progress.Length == SAMPLES + 1 && |raw| == SAMPLES + 1 && 0.0 < scale
      requires 0.0 < total == Travel(raw, SAMPLES) / scale
      requires forall k :: 0 <= k <= SAMPLES ==> progress[k] == Scaled(raw, k, scale)
      modifies progress
      ensures IsTable(progress[..], raw) && progress[0] == 0.0 && progress[SAMPLES] == 1.0
    {
      WholeIsOne(Travel(raw, SAMPLES));
      for i := 0 to SAMPLES + 1
        invariant forall k :: 0 <= k < i ==> progress[k] == Travel(raw, k) / Travel(raw, SAMPLES)
        invariant forall k :: i <= k <= SAMPLES ==> progress[k] == Scaled(raw, k, scale)
      {
        RatioCancels(Travel(raw, i), Travel(raw, SAMPLES), scale);
        progress[i] := progress[i] / total;
      }
    }

    /** `value` */
    method Value(linearProgress: real) returns (value: Double)
      requires !direct ==> progress.Length == SAMPLES + 1
      ensures value == Progress(linearProgress)
      ensures direct && value.Finite? ==> 0.0 <= value.value <= 1.0
    {
      var linear := Clamp(linearProgress, 0.0, 1.0);
      if linear <= 0.0 {
        return Finite(0.0);
      }
      if linear >= 1.0 {
        return Finite(1.0);
      }
      if direct {
        var evaluated := Evaluate(curve, linear);
        return if evaluated.Finite? then Finite(Clamp(evaluated.value, 0.0, 1.0)) else NotFinite;
      }
      var sample := linear * 512.0;
      var lower := sample.Floor;
      var fraction := sample - lower as real;
      value := Finite(progress[lower] + fraction * (progress[lower + 1] - progress[lower]));
    }

    ghost function Progress(linearProgress: real): Double
      requires !direct ==> progress.Length == SAMPLES + 1
      reads this, progress
    {
      if direct then DirectProgress(curve, linearProgress) else Finite(TableProgress(progress[..], linearProgress))
    }
  }

  // The two ways of answering, as functions

  ghost function DirectProgress(curve: Curve, x: real): Double {
    if x <= 0.0 then Finite(0.0)
    else if x >= 1.0 then Finite(1.0)
    else
      var y := Evaluate(curve, x);
      if y.Finite? then Finite(Clamp(y.value, 0.0, 1.0)) else NotFinite
  }

  /** Between two grid points a table is read along the straight line that joins them. */
  ghost function TableProgress(table: seq<real>, x: real): real
    requires |table| == SAMPLES + 1
  {
    if x <= 0.0 then 0.0
    else if x >= 1.0 then 1.0
    else
      var lower := (x * 512.0).Floor;
      table[lower] + (x * 512.0 - lower as real) * (table[lower + 1] - table[lower])
  }

  lemma ScaledStep(a: real, b: real, travel: real, scale: real)
    requires 0.0 < scale
    ensures travel / scale + Abs(a / scale - b / scale) == (travel + Abs(a - b)) / scale
  {
    assert a / scale - b / scale == (a - b) / scale;
    assert a - b >= 0.0 <==> (a - b) / scale >= 0.0;
  }

  lemma WholeIsOne(total: real)
    requires 0.0 < total
    ensures total / total == 1.0 && 0.0 / total == 0.0
  {
  }

  lemma RatioKeepsOrder(a: real, b: real, total: real)
    requires 0.0 < total && a <= b
    ensures a / total <= b / total
  {
    assert b / total - a / total == (b - a) / total;
  }

  lemma RatioCancels(a: real, total: real, scale: real)
    requires 0.0 < scale && 0.0 < total
    ensures (a / scale) / (total / scale) == a / total
  {
  }

  /** The samples run from 0 to 1 and reach their largest magnitude, so they always travel at least the scale: the guard
      against an empty table never fires. */
  lemma TotalTravel(raw: seq<real>)
    requires |raw| == SAMPLES + 1 && raw[0] == 0.0 && raw[SAMPLES] == 1.0
    ensures 1.0 <= Travel(raw, SAMPLES) / Scale(raw)
  {
    ScaleIsReached(raw);
    var k := SAMPLES;
    if Scale(raw) != 1.0 {
      k :| 0 <= k <= SAMPLES && Abs(raw[k]) == Scale(raw);
    }
    TravelGrows(raw, k, SAMPLES);
    TravelGrows(raw, k, k);
    AtLeastOne(Travel(raw, SAMPLES), Scale(raw));
  }

  lemma AtLeastOne(total: real, scale: real)
    requires 0.0 < scale <= total
    ensures 1.0 <= total / scale
  {
  }

  // What callers rely on

  lemma TableRises(table: seq<real>, raw: seq<real>, i: nat, j: nat)
    requires IsTable(table, raw) && i <= j <= SAMPLES
    ensures table[0] == 0.0 && table[SAMPLES] == 1.0
    ensures 0.0 <= table[i] <= table[j] <= 1.0
  {
    var total := Travel(raw, SAMPLES);
    WholeIsOne(total);
    TravelGrows(raw, i, j);
    TravelGrows(raw, j, SAMPLES);
    RatioKeepsOrder(0.0, Travel(raw, i), total);
    RatioKeepsOrder(Travel(raw, i), Travel(raw, j), total);
    RatioKeepsOrder(Travel(raw, j), total, total);
  }

  lemma AlongTheLine(a: real, b: real, f: real, g: real)
    requires a <= b && 0.0 <= f <= g <= 1.0
    ensures a <= a + f * (b - a) <= a + g * (b - a) <= b
  {
    assert (g - f) * (b - a) == g * (b - a) - f * (b - a);
    assert (1.0 - g) * (b - a) == (b - a) - g * (b - a);
  }

  lemma TableInCell(table: seq<real>, raw: seq<real>, x: real)
    requires IsTable(table, raw) && 0.0 < x < 1.0
    ensures var lower := (x * 512.0).Floor;
            0 <= lower < SAMPLES && table[lower] <= TableProgress(table, x) <= table[lower + 1]
  {
    var lower := (x * 512.0).Floor;
    TableRises(table, raw, lower, lower + 1);
    AlongTheLine(table[lower], table[lower + 1], x * 512.0 - lower as real, 1.0);
  }

  /** In table mode progress never runs backwards, anywhere, and covers the unit interval. */
  lemma TableProgressRises(table: seq<real>, raw: seq<real>, x: real, y: real)
    requires IsTable(table, raw) && x <= y
    ensures 0.0 <= TableProgress(table, x) <= TableProgress(table, y) <= 1.0
    ensures x <= 0.0 ==> TableProgress(table, x) == 0.0
    ensures y >= 1.0 ==> TableProgress(table, y) == 1.0
  {
    TableRises(table, raw, 0, SAMPLES);
    if 0.0 < x < 1.0 {
      TableInCell(table, raw, x);
      TableRises(table, raw, (x * 512.0).Floor, (x * 512.0).Floor + 1);
    }
    if 0.0 < y < 1.0 {
      TableInCell(table, raw, y);
      TableRises(table, raw, (y * 512.0).Floor, (y * 512.0).Floor + 1);
    }
    if 0.0 < x && y < 1.0 {
      var i, j := (x * 512.0).Floor, (y * 512.0).Floor;
      if i == j {
        TableRises(table, raw, i, i + 1);
        AlongTheLine(table[i], table[i + 1], x * 512.0 - i as real, y * 512.0 - i as real);
      } else {
        TableRises(table, raw, i + 1, j);
      }
    }
  }

  /** A table answers exactly with its entries on the grid. */
  lemma TableOnGrid(table: seq<real>, raw: seq<real>, i: nat)
    requires IsTable(table, raw) && i <= SAMPLES
    ensures TableProgress(table, Grid(i)) == table[i]
  {
    TableRises(table, raw, 0, SAMPLES);
    assert Grid(i) * 512.0 == i as real;
  }

  /** Between two grid points it answers along the straight line that joins their entries. */
  lemma TableIsLinearBetween(table: seq<real>, raw: seq<real>, i: nat, f: real)
    requires IsTable(table, raw) && i < SAMPLES && 0.0 <= f <= 1.0
    ensures TableProgress(table, (i as real + f) / 512.0) == (1.0 - f) * table[i] + f * table[i + 1]
  {
    var x := (i as real + f) / 512.0;
    assert x * 512.0 == i as real + f;
    TableRises(table, raw, 0, SAMPLES);
    if f == 1.0 {
      assert (i as real + f) == (i + 1) as real;
      TableOnGrid(table, raw, i + 1);
    } else if f == 0.0 {
      TableOnGrid(table, raw, i);
    } else {
      assert (x * 512.0).Floor == i && 0.0 < x < 1.0;
      assert table[i] + f * (table[i + 1] - table[i]) == (1.0 - f) * table[i] + f * table[i + 1];
    }
  }

  /** A curve asked directly answers as itself wherever it stays in the unit interval, and with the nearer end where it
      leaves it. */
  lemma DirectFollowsTheCurve(curve: Curve, x: real, y: real)
    requires 0.0 < x < 1.0 && Evaluate(curve, x) == Finite(y)
    ensures 0.0 <= y <= 1.0 ==> DirectProgress(curve, x) == Finite(y)
    ensures y < 0.0 ==> DirectProgress(curve, x) == Finite(0.0)
    ensures y > 1.0 ==> DirectProgress(curve, x) == Finite(1.0)
  {
  }

  /** A curve that needs no table answers on the grid just as its table would. */
  lemma DirectIsTheTable(curve: Curve, table: seq<real>, i: nat)
    requires FiniteOnGrid(curve) && Rises(Samples(curve)) && InUnit(Samples(curve)) && i <= SAMPLES
    requires IsTable(table, Samples(curve))
    ensures DirectProgress(curve, Grid(i)) == Finite(TableProgress(table, Grid(i)))
  {
    var raw := Samples(curve);
    assert Sample(curve, 0) == Finite(raw[0]) && Sample(curve, SAMPLES) == Finite(raw[SAMPLES]);
    RisingTravel(raw, i);
    RisingTravel(raw, SAMPLES);
    TableOnGrid(table, raw, i);
    assert Sample(curve, i) == Finite(raw[i]);
  }

  /** Asked directly, a curve that needs no table rises on the grid. */
  lemma {:induction false} DirectRisesOnGrid(curve: Curve, i: nat, j: nat)
    requires FiniteOnGrid(curve) && Rises(Samples(curve)) && InUnit(Samples(curve)) && i <= j <= SAMPLES
    ensures DirectProgress(curve, Grid(i)) == Finite(Samples(curve)[i])
    ensures Samples(curve)[i] <= Samples(curve)[j]
  {
    var raw := Samples(curve);
    assert Sample(curve, i) == Finite(raw[i]);
    assert 0.0 <= raw[i] <= 1.0;
    if i == j {
    } else {
      DirectRisesOnGrid(curve, i, j - 1);
    }
  }

  // The object as a whole

  /** Whatever curve an object was reset with, its values start at 0, end at 1, and stay between them wherever they are
      finite, as they always are once the object holds a table. */
  lemma ValuesStayInUnit(easing: MonotonicEasing, requested: Curve, x: real)
    requires easing.Fits(requested)
    ensures var y := easing.Progress(x);
            && (y.Finite? ==> 0.0 <= y.value <= 1.0) && (!easing.direct ==> y.Finite?)
            && (x <= 0.0 ==> y == Finite(0.0)) && (x >= 1.0 ==> y == Finite(1.0))
  {
    if !easing.direct {
      TableProgressRises(easing.progress[..], Samples(requested), x, x);
    }
  }

  /** With a table the values never fall, between any two arguments. */
  lemma TableValuesRise(easing: MonotonicEasing, requested: Curve, x: real, y: real)
    requires easing.Fits(requested) && !easing.direct && x <= y
    ensures easing.Progress(x).Finite? && easing.Progress(y).Finite?
    ensures easing.Progress(x).value <= easing.Progress(y).value
  {
    TableProgressRises(easing.progress[..], Samples(requested), x, y);
  }

  /** Without one they never fall on the grid. */
  lemma DirectValuesRise(easing: MonotonicEasing, requested: Curve, i: nat, j: nat)
    requires easing.Fits(requested) && easing.direct && i <= j <= SAMPLES
    ensures easing.Progress(Grid(i)).Finite? && easing.Progress(Grid(j)).Finite?
    ensures easing.Progress(Grid(i)).value <= easing.Progress(Grid(j)).value
  {
    if FiniteOnGrid(requested) {
      DirectRisesOnGrid(requested, i, j);
      DirectRisesOnGrid(requested, j, j);
    } else {
      assert Grid(i) <= Grid(j);
    }
  }
}
