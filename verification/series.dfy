/**
 * The six-point series drawn by `updateChart` (`app.js` lines 31-43).  The
 * clock's current hour, the values of `Math.sin(i / 2)` and the per-point
 * `Math.random()` draws are parameters.
 */
module Series {
  import opened Wrappers
  import opened JsValues

  const Horizon: nat := 6

  /** What one chart shows: hour labels and the value plotted at each. */
  datatype ChartData = ChartData(labels: seq<string>, values: seq<JsNumber>)

  /** `s.padStart(width, c)` for a one-character pad. */
  function PadStart(s: string, width: nat, c: char): (r: string)
    ensures |r| == if |s| >= width then |s| else width
    ensures r[|r| - |s|..] == s
    ensures forall i :: 0 <= i < |r| - |s| ==> r[i] == c
    decreases width - |s|
  {
    if |s| >= width then s else PadStart([c] + s, width, c)
  }

  /** `h.toString().padStart(2, "0") + ":00"`. */
  function HourLabel(h: nat): (s: string)
    requires h < 24
    ensures |s| == 5 && s[2..] == ":00"
    ensures IsDigit(s[0]) && IsDigit(s[1])
  {
    PadStart(NatToDecimal(h), 2, '0') + ":00"
  }

  /** The hour a label names, if it has the form "HH:00". */
  function LabelHour(s: string): (h: Option<nat>)
  {
    if |s| == 5 && s[2..] == ":00" && IsDigit(s[0]) && IsDigit(s[1]) then
      Some(10 * DigitValue(s[0]) + DigitValue(s[1]))
    else None
  }

  /** Every hour label reads back as its hour. */
  lemma HourLabelRoundTrip(h: nat)
    requires h < 24
    ensures LabelHour(HourLabel(h)) == Some(h)
  {
    var d := NatToDecimal(h);
    var s := HourLabel(h);
    if h < 10 {
      assert d == [DigitChar(h)];
      assert PadStart(d, 2, '0') == ['0', DigitChar(h)];
      assert s[0] == '0' && s[1] == DigitChar(h);
    } else {
      assert NatToDecimal(h / 10) == [DigitChar(h / 10)];
      assert d == [DigitChar(h / 10), DigitChar(h % 10)];
      assert PadStart(d, 2, '0') == d;
      assert s[0] == DigitChar(h / 10) && s[1] == DigitChar(h % 10);
    }
  }

  /** `0.8 + Math.sin(i / 2) * 0.25 + Math.random() * 0.1`. */
  function Factor(sine: real, noise: real): (f: real)
    requires -1.0 <= sine <= 1.0 && 0.0 <= noise < 1.0
    ensures 0.55 <= f < 1.15
  {
    0.8 + sine * 0.25 + noise * 0.1
  }

  predicate ValidSines(sines: seq<real>)
  {
    forall i :: 0 <= i < |sines| ==> -1.0 <= sines[i] <= 1.0
  }

  predicate ValidNoises(noises: seq<real>)
  {
    forall i :: 0 <= i < |noises| ==> 0.0 <= noises[i] < 1.0
  }

  /** `Math.max(5, Math.round(base * factor))`. */
  function Point(base: JsNumber, factor: real): (v: JsNumber)
    requires factor > 0.0
    ensures v.NaN? <==> base.NaN?
    ensures base.Finite? ==> v.Finite? && v.x >= 5.0 && v.x == v.x.Floor as real
    ensures base.Finite? && v.x > 5.0 ==> v.x - 0.5 <= base.x * factor < v.x + 0.5
    ensures base.Finite? && v.x == 5.0 ==> base.x * factor < 5.5
    ensures base.PosInf? <==> v.PosInf?
    ensures base.NegInf? ==> v == Finite(5.0)
  {
    MaxWith(5.0, RoundNumber(Scale(base, factor)))
  }

  /** The label of the hour `i` hours after `startHour`. */
  function LabelAt(startHour: nat, i: nat): (s: string)
    ensures LabelHour(s) == Some((startHour + i) % 24)
  {
    var h := (startHour + i) % 24;
    HourLabelRoundTrip(h);
    HourLabel(h)
  }

  /** The chart's x-axis: one label per hour for `Horizon` hours from `startHour`, wrapping at midnight. */
  function HourLabels(startHour: nat): (ls: seq<string>)
    ensures |ls| == Horizon
    ensures forall i :: 0 <= i < Horizon ==> LabelHour(ls[i]) == Some((startHour + i) % 24)
  {
    seq(Horizon, i requires 0 <= i < Horizon => LabelAt(startHour, i))
  }

  /** Labels `ls` name the hours from `startHour` on, one per index, wrapping at midnight. */
  predicate NamesHoursFrom(ls: seq<string>, startHour: nat)
  {
    |ls| == Horizon && forall i :: 0 <= i < Horizon ==> LabelHour(ls[i]) == Some((startHour + i) % 24)
  }

  lemma NextHour(startHour: nat, i: nat, x: nat, y: nat)
    requires x == (startHour + i) % 24 && y == (startHour + (i + 1)) % 24
    ensures y == (x + 1) % 24
  {
  }

  lemma HoursApartDiffer(startHour: nat, i: nat, j: nat)
    requires i < j < i + 24
    ensures (startHour + i) % 24 != (startHour + j) % 24
  {
    var a, b := startHour + i, startHour + j;
    var q, q' := a / 24, b / 24;
    assert a == 24 * q + a % 24 && b == 24 * q' + b % 24;
    assert q <= q' <= q + 1;
  }

  lemma NextLabel(ls: seq<string>, startHour: nat, i: nat)
    requires NamesHoursFrom(ls, startHour) && i + 1 < Horizon
    ensures LabelHour(ls[i + 1]).value == (LabelHour(ls[i]).value + 1) % 24
  {
    NextHour(startHour, i, LabelHour(ls[i]).value, LabelHour(ls[i + 1]).value);
  }

  lemma LabelsDiffer(ls: seq<string>, startHour: nat, i: nat, j: nat)
    requires NamesHoursFrom(ls, startHour) && i < j < Horizon
    ensures ls[i] != ls[j]
  {
    HoursApartDiffer(startHour, i, j);
    assert LabelHour(ls[i]) != LabelHour(ls[j]);
  }

  /** Each label names the hour after the one before it, modulo 24. */
  lemma ConsecutiveHours(startHour: nat, i: nat)
    requires i + 1 < Horizon
    ensures LabelHour(HourLabels(startHour)[i + 1]).value == (LabelHour(HourLabels(startHour)[i]).value + 1) % 24
  {
    NextLabel(HourLabels(startHour), startHour, i);
  }

  /** The six labels are pairwise distinct: six hours never wrap round to a repeat. */
  lemma DistinctLabels(startHour: nat, i: nat, j: nat)
    requires i < j < Horizon
    ensures HourLabels(startHour)[i] != HourLabels(startHour)[j]
  {
    LabelsDiffer(HourLabels(startHour), startHour, i, j);
  }

  /** The value plotted at index `i`. */
  function PointAt(base: JsNumber, sines: seq<real>, noises: seq<real>, i: nat): (v: JsNumber)
    requires i < |sines| && ValidSines(sines)
    requires i < |noises| && ValidNoises(noises)
  {
    Point(base, Factor(sines[i], noises[i]))
  }

  /** A value the chart can show as a point of at least 5 (an infinite base gives +Infinity). */
  predicate AtLeastFive(v: JsNumber)
  {
    v.PosInf? || (v.Finite? && v.x >= 5.0)
  }

  /**
   * The series for a base demand: six labels for the hours starting at
   * `startHour`, wrapping at midnight, and six values each at least 5 unless
   * the base coerced to NaN, in which case every value is NaN.
   */
  function Project(base: JsNumber, startHour: nat, sines: seq<real>, noises: seq<real>): (c: ChartData)
    requires startHour < 24
    requires |sines| == Horizon && ValidSines(sines)
    requires |noises| == Horizon && ValidNoises(noises)
    ensures |c.labels| == Horizon && |c.values| == Horizon
    ensures c.labels == HourLabels(startHour)
    ensures forall i :: 0 <= i < Horizon ==> (AtLeastFive(c.values[i]) <==> !base.NaN?)
    ensures forall i :: 0 <= i < Horizon ==> (c.values[i].NaN? <==> base.NaN?)
    ensures forall i :: 0 <= i < Horizon ==> c.values[i] == Point(base, Factor(sines[i], noises[i]))
  {
    var labels := HourLabels(startHour);
    var values := seq(Horizon, i requires 0 <= i < Horizon => PointAt(base, sines, noises, i));
    ChartData(labels, values)
  }

}
