/**
 * The page's state and the submit handler as a transition function
 * (`app.js` lines 84-145).  A submission is two steps: `Submit` runs the
 * handler up to the `await` of the request, `Settle` runs the rest once the
 * request has succeeded or failed.  The clock, `Math.sin` and `Math.random`
 * reach `Settle` as the values in an `Env`.
 */
module Controller {
  import Wrappers
  import opened JsValues
  import opened DemandLevel
  import opened Input
  import opened Gateway
  import opened Fallback
  import opened Series
  import opened ChartHandle

  /** The status badge's class. */
  datatype Status = Idle | Loading | Success | Error

  /**
   * What a result field shows: the page's own markup, a text, or a value
   * assigned to `textContent` as it is, before the browser's conversion to a
   * string (`undefined` and `null` leave the field empty).
   */
  datatype Cell = Placeholder | Text(text: string) | Raw(value: JsValue)

  /** The level, demand and taxi fields of the result panel. */
  datatype Display = Display(level: Cell, demand: Cell, taxis: Cell)

  /** Everything the handler reads or writes, plus the requests it has sent. */
  datatype Page = Page(status: Status, message: string, display: Display, canvas: Canvas, sent: seq<Query>)

  /** The values the handler draws from the clock, `Math.sin` and `Math.random` while it settles. */
  datatype Env = Env(hour: nat, sines: seq<real>, noises: seq<real>, draw: real)

  datatype Event = Submit(form: Form) | Settle(transport: Transport, env: Env)

  const IdleMessage: string := "Waiting for input\U{2026}"
  const LoadingMessage: string := "Predicting demand using ML model\U{2026}"
  const SuccessMessage: string := "Prediction generated successfully."
  const FallbackMessage: string := "Could not reach backend \U{2013} showing demo prediction. Check Flask/ML server."

  /** What `getHours`, `Math.sin` and `Math.random` can return. */
  predicate ValidEnv(env: Env)
  {
    && env.hour < 24
    && |env.sines| == Horizon && ValidSines(env.sines)
    && |env.noises| == Horizon && ValidNoises(env.noises)
    && 0.0 <= env.draw < 1.0
  }

  predicate ValidEvent(e: Event)
  {
    e.Settle? ==> ValidEnv(e.env)
  }

  predicate AllValid(es: seq<Event>)
  {
    forall i :: 0 <= i < |es| ==> ValidEvent(es[i])
  }

  /** The page once the script has loaded. */
  function Init(): (p: Page)
    ensures p.status == Idle && p.sent == []
    ensures Disciplined(p.canvas) && p.canvas.chart.None?
  {
    Page(Idle, IdleMessage, Display(Placeholder, Placeholder, Placeholder), Canvas(Wrappers.None, 0, 0), [])
  }

  /** The chart `updateChart(base)` draws. */
  function ChartFor(base: JsNumber, env: Env): (c: ChartData)
    requires ValidEnv(env)
  {
    Project(base, env.hour, env.sines, env.noises)
  }

  /** The result panel for a fallback estimate: every field tagged as demo data. */
  function DemoDisplay(e: Estimate): (d: Display)
    requires 50 <= e.demand && 0 <= e.taxis
  {
    var t := DemoTexts(e);
    Display(Text(t.0), Text(t.1), Text(t.2))
  }

  /** What a step may change: never back to idle, the chart discipline kept, at most one request appended. */
  predicate Advances(p: Page, r: Page)
  {
    && r.status != Idle
    && (Disciplined(p.canvas) ==> Disciplined(r.canvas))
    && |p.sent| <= |r.sent| <= |p.sent| + 1 && r.sent[..|p.sent|] == p.sent
  }

  /** One step of the page; the chart discipline holds after it if it held before. */
  function Step(p: Page, e: Event): (r: Page)
    requires ValidEvent(e)
    ensures r.status != Idle
    ensures Disciplined(p.canvas) ==> Disciplined(r.canvas)
    ensures |p.sent| <= |r.sent| <= |p.sent| + 1 && r.sent[..|p.sent|] == p.sent
  {
    match e
    case Submit(f) => Submitted(p, f)
    case Settle(t, env) =>
      match Interpret(t)
      case Ok(d, x) => Succeeded(p, d, x, env)
      case Failed(_) => FellBack(p, env)
  }

  /** Lines 87-98: validate, then either show the validation error or send the request. */
  function Submitted(p: Page, f: Form): (r: Page)
    ensures Advances(p, r)
    ensures r.display == p.display && r.canvas == p.canvas
    ensures r.status == Error <==> Validate(f).Failure?
    ensures |r.sent| == |p.sent| + (if Validate(f).Success? then 1 else 0)
  {
    var v := Validate(f);
    if v.Failure? then p.(status := Error, message := MissingFieldMessage)
    else p.(status := Loading, message := LoadingMessage, sent := p.sent + [v.value])
  }

  /** Lines 118-125: show the server's values and the level, and chart the demand. */
  function Succeeded(p: Page, d: JsValue, x: JsValue, env: Env): (r: Page)
    requires ValidEnv(env)
    ensures Advances(p, r) && r.sent == p.sent
    ensures r.status == Success && r.display.demand == Raw(d) && r.display.taxis == Raw(x)
    ensures r.display.level == Text(Label(Classify(ToNumber(d))))
  {
    var n := ToNumber(d);
    p.(status := Success, message := SuccessMessage,
       display := Display(Text(Label(Classify(n))), Raw(d), Raw(x)),
       canvas := Redraw(p.canvas, ChartFor(n, env)))
  }

  /** Lines 128-140: draw a fallback, show it tagged as demo data, and chart it. */
  function FellBack(p: Page, env: Env): (r: Page)
    requires ValidEnv(env)
    ensures Advances(p, r) && r.sent == p.sent
    ensures r.status == Error && r.display == DemoDisplay(Draw(env.draw))
  {
    var fb := Draw(env.draw);
    p.(status := Error, message := FallbackMessage,
       display := DemoDisplay(fb),
       canvas := Redraw(p.canvas, ChartFor(Finite(fb.demand as real), env)))
  }

  /**
   * The page after a sequence of events.  Submissions and settlements may
   * interleave in any order: settlements are applied in the order the
   * requests complete, as the handler's `await` resumes, and a `Settle` is not
   * matched to the request it answers.  Requests are only ever appended, the
   * chart discipline is kept, and after any event the page is no longer idle.
   */
  function Run(p: Page, es: seq<Event>): (r: Page)
    requires AllValid(es)
    ensures |p.sent| <= |r.sent| && r.sent[..|p.sent|] == p.sent
    ensures Disciplined(p.canvas) ==> Disciplined(r.canvas)
    ensures es != [] ==> r.status != Idle
    decreases |es|
  {
    if es == [] then p else Run(Step(p, es[0]), es[1..])
  }

  // ---------------------------------------------------------------------------
  // Submission
  // ---------------------------------------------------------------------------

  /**
   * A submission with a blank city or an empty datetime shows the validation
   * message and changes nothing else: no request, same result panel, same chart.
   */
  lemma InvalidSubmitChangesOnlyStatus(p: Page, f: Form)
    requires AllWhiteSpace(f.city) || f.datetime == []
    ensures Step(p, Submit(f)) == p.(status := Error, message := MissingFieldMessage)
  {
    RejectsExactlyBlank(f);
  }

  /**
   * A request is sent exactly when the form is valid; it carries the trimmed
   * city and the other fields as read, and the page shows the loading status.
   */
  lemma SubmitSendsIffValid(p: Page, f: Form)
    ensures var r := Step(p, Submit(f));
            (r.sent != p.sent <==> !AllWhiteSpace(f.city) && f.datetime != [])
    ensures var r := Step(p, Submit(f));
            r.sent != p.sent ==>
              && r.sent == p.sent + [Query(Trim(f.city), f.datetime, f.weather, f.traffic, f.event)]
              && r.status == Loading && r.message == LoadingMessage
              && r.display == p.display && r.canvas == p.canvas
  {
    RejectsExactlyBlank(f);
  }

  // ---------------------------------------------------------------------------
  // Settling
  // ---------------------------------------------------------------------------

  /** Whether a text ends with the demo tag. */
  predicate EndsWithDemo(s: string)
  {
    |s| >= |DemoSuffix| && s[|s| - |DemoSuffix|..] == DemoSuffix
  }

  /** All three result fields are texts tagged as demo data. */
  predicate ShowsDemo(d: Display)
  {
    && d.level.Text? && EndsWithDemo(d.level.text)
    && d.demand.Text? && EndsWithDemo(d.demand.text)
    && d.taxis.Text? && EndsWithDemo(d.taxis.text)
  }

  /**
   * On success the server's two values are shown as they came, whatever they
   * are (a missing field included), beside the level they classify to; the
   * chart is drawn from the demand, and nothing is tagged as demo data.
   */
  lemma SettleOk(p: Page, t: Transport, env: Env)
    requires ValidEnv(env) && Interpret(t).Ok?
    ensures var r := Step(p, Settle(t, env));
            var d := t.body.predictedDemand;
            && r.status == Success && r.message == SuccessMessage
            && r.display.demand == Raw(d) && r.display.taxis == Raw(t.body.taxisRequired)
            && r.display.level == Text(Label(Classify(ToNumber(d))))
            && !EndsWithDemo(r.display.level.text)
            && r.canvas.chart == Wrappers.Some(ChartFor(ToNumber(d), env))
            && r.sent == p.sent
  {
    var d, x := t.body.predictedDemand, t.body.taxisRequired;
    assert Interpret(t) == Ok(d, x);
    assert Step(p, Settle(t, env)) == Succeeded(p, d, x, env);
    LabelIsNotDemo(Classify(ToNumber(d)));
  }

  /** No level's text ends with the demo tag. */
  lemma LabelIsNotDemo(l: Level)
    ensures !EndsWithDemo(Label(l))
  {
    match l
    case Low =>
    case Medium => assert "Medium"[0] != DemoSuffix[0];
    case High =>
    case VeryHigh => assert "Very High"[2] != DemoSuffix[2];
  }

  /**
   * On any failure a fallback in 50..149 is drawn; its level, demand and taxi
   * count are shown, each followed by " (demo)", the status is the error one,
   * and the chart is drawn from the fallback demand.
   */
  lemma SettleFailed(p: Page, t: Transport, env: Env)
    requires ValidEnv(env) && Interpret(t).Failed?
    ensures var r := Step(p, Settle(t, env));
            var fb := Draw(env.draw);
            && 50 <= fb.demand <= 149 && fb.taxis == Round(0.7 * fb.demand as real)
            && r.status == Error && r.message == FallbackMessage
            && r.display.level == Text(Label(Classify(Finite(fb.demand as real))) + DemoSuffix)
            && r.display.demand == Text(NatToDecimal(fb.demand) + DemoSuffix)
            && r.display.taxis == Text(NatToDecimal(fb.taxis) + DemoSuffix)
            && ShowsDemo(r.display)
            && r.canvas.chart == Wrappers.Some(ChartFor(Finite(fb.demand as real), env))
            && r.sent == p.sent
  {
  }

  /** After settling, demo data is shown exactly when the request failed. */
  lemma DemoIffFailed(p: Page, t: Transport, env: Env)
    requires ValidEnv(env)
    ensures var r := Step(p, Settle(t, env));
            && (ShowsDemo(r.display) <==> Interpret(t).Failed?)
            && (r.status == Error <==> Interpret(t).Failed?)
  {
    if Interpret(t).Ok? {
      SettleOk(p, t, env);
    } else {
      SettleFailed(p, t, env);
    }
  }

  // ---------------------------------------------------------------------------
  // Runs
  // ---------------------------------------------------------------------------

  /** Number of submissions in `es` that pass validation. */
  function ValidSubmits(es: seq<Event>): (n: nat)
  {
    if es == [] then 0
    else (if es[0].Submit? && Validate(es[0].form).Success? then 1 else 0) + ValidSubmits(es[1..])
  }

  /** Requests are only ever appended, one per valid submission. */
  lemma {:induction false} RunSendsOnePerValidSubmit(p: Page, es: seq<Event>)
    requires AllValid(es)
    ensures |Run(p, es).sent| == |p.sent| + ValidSubmits(es)
    ensures Run(p, es).sent[..|p.sent|] == p.sent
    decreases |es|
  {
    if es != [] {
      var q := Step(p, es[0]);
      assert |q.sent| == |p.sent| + (if es[0].Submit? && Validate(es[0].form).Success? then 1 else 0);
      RunSendsOnePerValidSubmit(q, es[1..]);
      assert Run(p, es).sent[..|q.sent|] == q.sent;
      assert q.sent[..|p.sent|] == p.sent;
    }
  }

  /** However many submissions there are, at most one chart instance is ever alive. */
  lemma {:induction false} RunKeepsOneChart(p: Page, es: seq<Event>)
    requires AllValid(es) && Disciplined(p.canvas)
    ensures Disciplined(Run(p, es).canvas) && Live(Run(p, es).canvas) <= 1
    decreases |es|
  {
    if es != [] {
      RunKeepsOneChart(Step(p, es[0]), es[1..]);
    }
  }

  /** The page is idle only before its first event. */
  lemma {:induction false} IdleOnlyAtStart(es: seq<Event>)
    requires AllValid(es)
    ensures Run(Init(), es).status == Idle <==> es == []
  {
    var p := Init();
    if es != [] {
      var q := Step(p, es[0]);
      assert Run(p, es) == Run(q, es[1..]);
      StepNeverIdle(q, es[1..]);
    }
  }

  lemma {:induction false} StepNeverIdle(p: Page, es: seq<Event>)
    requires AllValid(es) && p.status != Idle
    ensures Run(p, es).status != Idle
    decreases |es|
  {
    if es != [] {
      StepNeverIdle(Step(p, es[0]), es[1..]);
    }
  }
}
