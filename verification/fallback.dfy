/**
 * The demo estimate shown when the prediction service fails (`app.js`
 * lines 128-134), with the random draw `Math.random()` passed in.  Arithmetic
 * is exact here; what double rounding changes is in module DoubleRounding.
 */
module Fallback {
  import opened JsValues
  import opened DemandLevel

  datatype Estimate = Estimate(demand: int, taxis: int)

  const DemoSuffix: string := " (demo)"

  /** `Math.round(f * 0.7)` for an integer `f`, in integers: the nearest integer to 0.7·f, halves up. */
  function Taxis(f: int): (t: int)
    ensures t as real - 0.5 <= 0.7 * f as real < t as real + 0.5
  {
    (7 * f + 5) / 10
  }

  /** The integer formula is `Math.round` applied to the exact product. */
  lemma TaxisIsRound(f: int)
    ensures Taxis(f) == Round(0.7 * f as real)
  {
    RoundUnique(0.7 * f as real, Taxis(f));
  }

  /** `Math.floor(50 + r * 100)` and the taxi count derived from it. */
  function Draw(r: real): (e: Estimate)
    requires 0.0 <= r < 1.0
    ensures 50 <= e.demand <= 149
    ensures e.demand as real <= 50.0 + 100.0 * r < e.demand as real + 1.0
    ensures 35 <= e.taxis <= 104
    ensures e.taxis == Round(0.7 * e.demand as real)
  {
    var f := (50.0 + r * 100.0).Floor;
    TaxisIsRound(f);
    Estimate(f, Taxis(f))
  }

  /** Every demand in 50..149 is produced, by the draws in a band of width 1/100. */
  lemma DrawReachesEvery(k: int)
    requires 50 <= k <= 149
    ensures Draw((k - 50) as real / 100.0).demand == k
  {
  }

  /** The level shown for a fallback is never Low: demand 50..149 is Medium or High. */
  lemma DrawLevel(r: real)
    requires 0.0 <= r < 1.0
    ensures Classify(Finite(Draw(r).demand as real)) in {Medium, High}
  {
  }

  /** The three texts shown for a fallback: the level, the demand and the taxi count, each tagged as demo data. */
  function DemoTexts(e: Estimate): (t: (string, string, string))
    requires 50 <= e.demand && 0 <= e.taxis
    ensures t.0 == Label(Classify(Finite(e.demand as real))) + DemoSuffix
    ensures |t.1| > |DemoSuffix| && |t.2| > |DemoSuffix|
    ensures t.1[..|t.1| - |DemoSuffix|] == NatToDecimal(e.demand)
    ensures t.2[..|t.2| - |DemoSuffix|] == NatToDecimal(e.taxis)
    ensures t.1[|t.1| - |DemoSuffix|..] == DemoSuffix && t.2[|t.2| - |DemoSuffix|..] == DemoSuffix
  {
    var d := NatToDecimal(e.demand);
    var x := NatToDecimal(e.taxis);
    assert (d + DemoSuffix)[..|d|] == d;
    assert (x + DemoSuffix)[..|x|] == x;
    (Label(Classify(Finite(e.demand as real))) + DemoSuffix, d + DemoSuffix, x + DemoSuffix)
  }

  /** With the demo tag removed, the demand and taxi texts convert back to the numbers drawn. */
  lemma DemoTextsReadBack(e: Estimate)
    requires 50 <= e.demand && 0 <= e.taxis
    ensures var t := DemoTexts(e);
            && StringToNumber(t.1[..|t.1| - |DemoSuffix|]) == Finite(e.demand as real)
            && StringToNumber(t.2[..|t.2| - |DemoSuffix|]) == Finite(e.taxis as real)
  {
    var t := DemoTexts(e);
    assert t.1[..|t.1| - |DemoSuffix|] == NatToDecimal(e.demand);
    assert t.2[..|t.2| - |DemoSuffix|] == NatToDecimal(e.taxis);
    DecimalStringToNumber(e.demand);
    DecimalStringToNumber(e.taxis);
  }
}
