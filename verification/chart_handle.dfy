/**
 * The global chart handle of `updateChart` (`app.js` lines 7 and 45-47).
 * The handle is the current chart, if any; the two counters record how many
 * chart instances were ever created and destroyed, so that their difference
 * is the number of instances alive.
 */
module ChartHandle {
  import opened Wrappers
  import opened Series

  datatype Canvas = Canvas(chart: Option<ChartData>, created: nat, destroyed: nat)

  /** Chart instances created and not yet destroyed. */
  function Live(c: Canvas): (n: int)
  {
    c.created - c.destroyed
  }

  /** Exactly the instance in the handle is alive, so at most one is. */
  predicate Disciplined(c: Canvas)
  {
    Live(c) == (if c.chart.Some? then 1 else 0)
  }

  /**
   * `if (chartInstance) chartInstance.destroy()`: the chart in the handle,
   * if any, stops being alive. The handle then holds no live chart; the
   * script overwrites the stale reference at once, so it is modelled as
   * empty.
   */
  function Destroy(c: Canvas): (r: Canvas)
    ensures r.chart.None? && r.created == c.created
    ensures r.destroyed == c.destroyed + (if c.chart.Some? then 1 else 0)
    ensures Disciplined(c) ==> Disciplined(r) && Live(r) == 0
  {
    if c.chart.Some? then Canvas(None, c.created, c.destroyed + 1) else c
  }

  /** `chartInstance = new Chart(...)`: one more instance is alive, and the handle points to it. */
  function Create(c: Canvas, data: ChartData): (r: Canvas)
    ensures r.chart == Some(data) && r.created == c.created + 1 && r.destroyed == c.destroyed
    ensures Live(r) == Live(c) + 1
    ensures Disciplined(c) && c.chart.None? ==> Disciplined(r)
  {
    Canvas(Some(data), c.created + 1, c.destroyed)
  }

  /**
   * Destroy the current chart, if there is one, then create one for `data`:
   * the new chart is the only live instance.
   */
  function Redraw(c: Canvas, data: ChartData): (r: Canvas)
    ensures r.chart == Some(data)
    ensures r.created == c.created + 1
    ensures r.destroyed == c.destroyed + (if c.chart.Some? then 1 else 0)
    ensures Disciplined(c) ==> Disciplined(r) && Live(r) == 1
  {
    Create(Destroy(c), data)
  }

  /**
   * The update never has two charts alive: after the destroy none is, and
   * after the create only the new one is.
   */
  lemma DestroyBeforeCreate(c: Canvas, data: ChartData)
    requires Disciplined(c)
    ensures Redraw(c, data) == Create(Destroy(c), data)
    ensures Live(Destroy(c)) == 0 && Live(Redraw(c, data)) == 1
  {
  }

  /** Creating over a live chart without destroying it first leaves two instances alive. */
  lemma CreateWithoutDestroyLeaks(c: Canvas, data: ChartData)
    requires Disciplined(c) && c.chart.Some?
    ensures Live(Create(c, data)) == 2 && !Disciplined(Create(c, data))
  {
  }
}
