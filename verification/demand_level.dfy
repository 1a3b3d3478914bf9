/** The four-way demand classifier `getDemandLevelLabel`. */
module DemandLevel {
  import opened JsValues

  datatype Level = Low | Medium | High | VeryHigh

  /** The text shown for a level. */
  function Label(l: Level): (s: string)
  {
    match l
    case Low => "Low"
    case Medium => "Medium"
    case High => "High"
    case VeryHigh => "Very High"
  }

  /** Position of a level in the order Low < Medium < High < Very High. */
  function Rank(l: Level): (r: nat)
  {
    match l
    case Low => 0
    case Medium => 1
    case High => 2
    case VeryHigh => 3
  }

  /**
   * Three strict comparisons against 40, 90 and 150.  Every comparison with
   * NaN is false, so NaN (a missing or non-numeric field) lands in Very High;
   * nothing is clamped, so negative numbers land in Low.
   */
  function Classify(n: JsNumber): (l: Level)
    ensures l == Low <==> n.NegInf? || (n.Finite? && n.x < 40.0)
    ensures l == Medium <==> n.Finite? && 40.0 <= n.x < 90.0
    ensures l == High <==> n.Finite? && 90.0 <= n.x < 150.0
    ensures l == VeryHigh <==> n.NaN? || n.PosInf? || (n.Finite? && 150.0 <= n.x)
  {
    if LessThan(n, 40.0) then Low
    else if LessThan(n, 90.0) then Medium
    else if LessThan(n, 150.0) then High
    else VeryHigh
  }

  /** The boundary values fall into the higher band. */
  lemma Boundaries()
    ensures Classify(Finite(39.999)) == Low && Classify(Finite(40.0)) == Medium
    ensures Classify(Finite(90.0)) == High && Classify(Finite(150.0)) == VeryHigh
    ensures Classify(Finite(-5.0)) == Low && Classify(NaN) == VeryHigh
  {
  }

  /** A larger number never gets a lower level. */
  lemma Monotone(a: JsNumber, b: JsNumber)
    requires AtMost(a, b)
    ensures Rank(Classify(a)) <= Rank(Classify(b))
  {
  }
}
