/**
 * `SalesChart` of the seller dashboard: the period buttons and the bar
 * slots of the chart container. Bar heights are exact reals (the source
 * computes them in floating point); tooltips and the grow animation are
 * presentation and are not modelled.
 */
module Chart {
  import opened Wrappers
  import opened Records
  import Text

  /** The height, in pixels, of the tallest bar. */
  const MaxBarHeight: real := 150.0

  /** `Math.max(...data)`. */
  function Max(data: seq<nat>): (m: nat)
    requires data != []
    ensures m in data
    ensures forall i :: 0 <= i < |data| ==> data[i] <= m
  {
    if |data| == 1 then data[0]
    else
      var rest := Max(data[1..]);
      assert forall i :: 1 <= i < |data| ==> data[i] == data[1..][i - 1];
      if data[0] >= rest then data[0] else rest
  }

  /** `(value / maxValue) * 150`. */
  function BarHeight(value: nat, max: nat): real
    requires max > 0
  {
    (value as real / max as real) * MaxBarHeight
  }

  /** A value no larger than the maximum gets a bar between 0 and 150, and the maximum itself gets exactly 150. */
  lemma BarHeightBounds(value: nat, max: nat)
    requires 0 < max && value <= max
    ensures 0.0 <= BarHeight(value, max) <= MaxBarHeight
    ensures value == max ==> BarHeight(value, max) == MaxBarHeight
  {
    var q := value as real / max as real;
    assert q * max as real == value as real;
    assert q <= 1.0;
  }

  /** A larger value never gets a shorter bar. */
  lemma BarHeightMonotone(v: nat, w: nat, max: nat)
    requires 0 < max && v <= w
    ensures BarHeight(v, max) <= BarHeight(w, max)
  {
    var p := v as real / max as real;
    var q := w as real / max as real;
    assert p * max as real == v as real;
    assert q * max as real == w as real;
    assert p <= q;
  }

  /** The slots after rendering `data`: slot `i < |data|` gets its height, the rest keep theirs. */
  function Rendered(bars: seq<real>, data: seq<nat>): (r: seq<real>)
    requires data != [] && Max(data) > 0
    ensures |r| == |bars|
  {
    var m := Max(data);
    seq(|bars|, i requires 0 <= i < |bars| => if i < |data| then BarHeight(data[i], m) else bars[i])
  }

  /**
   * `renderChart(period)`: an unknown period (no series) or a chart with no
   * bar slots changes nothing.
   */
  function ChartHeights(bars: seq<real>, period: string): (r: seq<real>)
    ensures |r| == |bars|
  {
    match SalesSeries(period)
    case None => bars
    case Some(data) => if |bars| == 0 then bars else Rendered(bars, data)
  }

  /** Every rendered slot lies in [0, 150]; slots past the end of the series are untouched. */
  lemma ChartHeightsBounds(bars: seq<real>, period: string, i: nat)
    requires i < |bars|
    ensures match SalesSeries(period)
            case None => ChartHeights(bars, period)[i] == bars[i]
            case Some(data) =>
              if i < |data| then 0.0 <= ChartHeights(bars, period)[i] <= MaxBarHeight
              else ChartHeights(bars, period)[i] == bars[i]
  {
    match SalesSeries(period)
    case None =>
    case Some(data) =>
      if i < |data| {
        BarHeightBounds(data[i], Max(data));
      }
  }

  /** A slot holding the series' largest value is exactly 150 pixels high. */
  lemma ChartHeightsPeak(bars: seq<real>, period: string, i: nat)
    requires i < |bars|
    ensures match SalesSeries(period)
            case None => true
            case Some(data) => i < |data| && data[i] == Max(data) ==> ChartHeights(bars, period)[i] == MaxBarHeight
  {
    match SalesSeries(period)
    case None =>
    case Some(data) =>
      if i < |data| {
        BarHeightBounds(data[i], Max(data));
      }
  }

  /** Among rendered slots, a larger value never gets a shorter bar. */
  lemma ChartHeightsMonotone(bars: seq<real>, period: string, i: nat, j: nat)
    requires SalesSeries(period).Some?
    requires i < |bars| && j < |bars|
    requires i < |SalesSeries(period).value| && j < |SalesSeries(period).value|
    requires SalesSeries(period).value[i] <= SalesSeries(period).value[j]
    ensures ChartHeights(bars, period)[i] <= ChartHeights(bars, period)[j]
  {
    var data := SalesSeries(period).value;
    BarHeightMonotone(data[i], data[j], Max(data));
  }

  /** Rendering depends only on the period: rendering the same period again gives the same heights. */
  lemma ChartHeightsIdempotent(bars: seq<real>, period: string)
    ensures ChartHeights(ChartHeights(bars, period), period) == ChartHeights(bars, period)
  {
  }

  /** A rendered slot's height is its bucket's share of the series maximum. */
  lemma ChartHeightAt(bars: seq<real>, period: string, i: nat)
    requires SalesSeries(period).Some? && i < |bars| && i < |SalesSeries(period).value|
    ensures ChartHeights(bars, period)[i] == BarHeight(SalesSeries(period).value[i], Max(SalesSeries(period).value))
  {
  }

  /** A value of the series that bounds every value is its maximum. */
  lemma MaxIsBound(data: seq<nat>, b: nat)
    requires b in data && forall i :: 0 <= i < |data| ==> data[i] <= b
    ensures Max(data) == b
  {
    var m := Max(data);
    var k :| 0 <= k < |data| && data[k] == b;
    assert b <= m;
  }

  lemma MonthPeak()
    ensures Max(MonthSales) == 820
  {
    assert MonthSales[5] == 820;
    assert forall i :: 0 <= i < |MonthSales| ==> MonthSales[i] <= 820;
    MaxIsBound(MonthSales, 820);
  }

  /** Under the month period the chart renders the monthly series. */
  lemma MonthRendered(bars: seq<real>)
    requires |bars| == 12
    ensures ChartHeights(bars, "month") == Rendered(bars, MonthSales)
  {
  }

  /** A rendered slot of a series whose largest value is `m` gets its bar height against `m`. */
  lemma RenderedAt(bars: seq<real>, data: seq<nat>, m: nat, i: nat)
    requires data != [] && Max(data) == m && m > 0
    requires i < |bars| && i < |data|
    ensures Rendered(bars, data)[i] == BarHeight(data[i], m)
  {
  }

  /** The monthly series, whose largest bucket is 820: each slot is its bucket's share of 820 times 150 pixels. */
  lemma MonthScenario(bars: seq<real>, i: nat)
    requires |bars| == 12 && i < 12
    ensures ChartHeights(bars, "month")[i] == BarHeight(MonthSales[i], 820)
  {
    MonthRendered(bars);
    MonthPeak();
    RenderedAt(bars, MonthSales, 820, i);
  }

  class SalesChart {
    /** `this.currentPeriod`. */
    var currentPeriod: string
    /** The heights of the container's `.bar` slots. */
    const bars: array<real>
    /** The `active` class of each `.chart-btn`. */
    const active: array<bool>
    /** The text of each `.chart-btn`. */
    const labels: seq<string>

    ghost predicate Valid()
      reads this
    {
      active.Length == |labels|
    }

    /** `new SalesChart('chart-container')` on a page with the container: renders the week series. */
    constructor (initialBars: seq<real>, initialActive: seq<bool>, buttonLabels: seq<string>)
      requires |initialActive| == |buttonLabels|
      ensures Valid() && fresh(bars) && fresh(active)
      ensures currentPeriod == "week" && labels == buttonLabels
      ensures bars[..] == ChartHeights(initialBars, "week")
      ensures active[..] == initialActive
    {
      currentPeriod := "week";
      labels := buttonLabels;
      bars := new real[|initialBars|](i requires 0 <= i < |initialBars| => initialBars[i]);
      active := new bool[|initialActive|](i requires 0 <= i < |initialActive| => initialActive[i]);
      new;
      assert bars[..] == initialBars;
      RenderChart("week");
    }

    /** `renderChart(period)`: writes the height of each slot that has a bucket. */
    method RenderChart(period: string)
      modifies bars
      ensures bars[..] == ChartHeights(old(bars[..]), period)
    {
      var series := SalesSeries(period);
      if series.Some? && bars.Length > 0 {
        RenderSeries(series.value);
      }
    }

    /** The loop of `renderChart` over the bar slots, against the series `data`. */
    method RenderSeries(data: seq<nat>)
      requires data != [] && Max(data) > 0
      modifies bars
      ensures bars[..] == Rendered(old(bars[..]), data)
    {
      var m := Max(data);
      var i := 0;
      while i < bars.Length
        invariant 0 <= i <= bars.Length
        invariant forall k :: 0 <= k < i ==> bars[k] == Rendered(old(bars[..]), data)[k]
        invariant forall k :: i <= k < bars.Length ==> bars[k] == old(bars[k])
      {
        if i < |data| {
          bars[i] := BarHeight(data[i], m);
        }
        i := i + 1;
      }
    }

    /** `switchPeriod(period, activeBtn)`: the clicked button becomes the only active one, then the chart re-renders. */
    method SwitchPeriod(period: string, button: nat)
      requires Valid() && button < active.Length
      modifies this, bars, active
      ensures Valid()
      ensures currentPeriod == period
      ensures forall i :: 0 <= i < active.Length ==> active[i] == (i == button)
      ensures bars[..] == ChartHeights(old(bars[..]), period)
    {
      currentPeriod := period;
      var i := 0;
      while i < active.Length
        invariant 0 <= i <= active.Length
        invariant forall k :: 0 <= k < i ==> !active[k]
        invariant bars[..] == old(bars[..]) && currentPeriod == period
      {
        active[i] := false;
        i := i + 1;
      }
      active[button] := true;
      RenderChart(period);
    }

    /** A click on a period button: its text, lower-cased, names the period. */
    method ButtonClicked(button: nat)
      requires Valid() && button < active.Length
      modifies this, bars, active
      ensures Valid()
      ensures currentPeriod == Text.Lower(labels[button])
      ensures forall i :: 0 <= i < active.Length ==> active[i] == (i == button)
      ensures bars[..] == ChartHeights(old(bars[..]), Text.Lower(labels[button]))
    {
      SwitchPeriod(Text.Lower(labels[button]), button);
    }
  }
}
