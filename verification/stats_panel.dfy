/** The statistics panel: the four tiles, the completion percentage, and
    the filter each tile selects. */
module StatsPanel {
  import opened Wrappers
  import Crud

  /** The statistics object as the frontend holds it; `overdue` may be
      missing. */
  datatype StatsView = StatsView(total: int, active: int, completed: int, overdue: Option<int>)

  /** What the panel shows. */
  datatype Panel = Panel(total: int, active: int, completed: int, rate: int, overdue: int)

  datatype Tile = TotalTile | ActiveTile | CompletedTile | OverdueTile

  /** `Math.round(completed / total * 100)` in exact arithmetic, 0 when
      `total` is not positive: the integer nearest to the percentage, halves
      rounded up. */
  function CompletionRate(total: int, completed: int): (r: int)
    ensures total <= 0 ==> r == 0
    ensures total > 0 ==> 2 * r * total - total <= 200 * completed < 2 * r * total + total
  {
    if total > 0 then
      var r := (200 * completed + total) / (2 * total);
      DivBounds(200 * completed + total, 2 * total);
      assert 2 * r * total == r * (2 * total);
      r
    else 0
  }

  lemma DivBounds(n: int, d: int)
    requires d > 0
    ensures (n / d) * d <= n < (n / d) * d + d
  {
  }

  lemma MulLeCancel(a: int, b: int, t: int)
    requires t > 0 && a * t <= b * t
    ensures a <= b
  {
  }

  lemma MulLtCancel(a: int, b: int, t: int)
    requires t > 0 && a * t < b * t
    ensures a < b
  {
  }

  /** A count of completed todos between 0 and the total gives a
      percentage between 0 and 100. */
  lemma RateInRange(total: int, completed: int)
    requires 0 <= completed <= total
    ensures 0 <= CompletionRate(total, completed) <= 100
  {
    if total > 0 {
      var r := CompletionRate(total, completed);
      assert (2 * r - 1) * total <= 200 * total;
      MulLeCancel(2 * r - 1, 200, total);
      assert 0 * total < (2 * r + 1) * total;
      MulLtCancel(0, 2 * r + 1, total);
    }
  }

  /** All done shows 100%. */
  lemma AllDoneIsHundred(total: int)
    requires total > 0
    ensures CompletionRate(total, total) == 100
  {
    var r := CompletionRate(total, total);
    assert (2 * r - 1) * total <= 200 * total;
    MulLeCancel(2 * r - 1, 200, total);
    assert 200 * total < (2 * r + 1) * total;
    MulLtCancel(200, 2 * r + 1, total);
  }

  /** 100% shows only when at least 99.5% of the todos are done; below 200
      todos that means all of them. */
  lemma HundredMeansNearlyAllDone(total: int, completed: int)
    requires 0 <= completed <= total && total > 0
    requires CompletionRate(total, completed) == 100
    ensures 199 * total <= 200 * completed
    ensures total < 200 ==> completed == total
  {
  }

  /** 100% does not imply that every todo is done: 199 of 200 rounds up. */
  lemma HundredWithOneLeft()
    ensures CompletionRate(200, 199) == 100
  {
  }

  /** For a fixed total, more completed todos never show a lower percentage. */
  lemma RateMonotone(total: int, c1: int, c2: int)
    requires c1 <= c2
    ensures CompletionRate(total, c1) <= CompletionRate(total, c2)
  {
    if total > 0 {
      var r1 := CompletionRate(total, c1);
      var r2 := CompletionRate(total, c2);
      assert (2 * r1 - 1) * total < (2 * r2 + 1) * total;
      MulLtCancel(2 * r1 - 1, 2 * r2 + 1, total);
    }
  }

  /** Worked figures: no todos, a quarter done, a third done. */
  lemma RateExamples()
    ensures CompletionRate(0, 0) == 0
    ensures CompletionRate(4, 1) == 25
    ensures CompletionRate(3, 1) == 33
  {
  }

  /** The panel: nothing without statistics; otherwise the counts, the
      completion percentage, and a missing overdue count shown as 0. */
  function Render(stats: Option<StatsView>): (p: Option<Panel>)
    ensures stats.None? <==> p.None?
    ensures p.Some? ==>
      && p.value.total == stats.value.total
      && p.value.active == stats.value.active
      && p.value.completed == stats.value.completed
      && p.value.rate == CompletionRate(stats.value.total, stats.value.completed)
      && (stats.value.overdue.None? ==> p.value.overdue == 0)
      && (stats.value.overdue.Some? ==> p.value.overdue == stats.value.overdue.value)
  {
    match stats
    case None => None
    case Some(s) => Some(Panel(s.total, s.active, s.completed,
                               CompletionRate(s.total, s.completed), s.overdue.GetOr(0)))
  }

  /** The filter a click on a tile selects; the overdue tile has no click
      handler. */
  function TileFilter(tile: Tile): (f: Option<string>)
    ensures f.None? <==> tile == OverdueTile
    ensures tile == TotalTile ==> f == Some("all")
    ensures tile == ActiveTile ==> f == Some("active")
    ensures tile == CompletedTile ==> f == Some("completed")
  {
    match tile
    case TotalTile => Some("all")
    case ActiveTile => Some("active")
    case CompletedTile => Some("completed")
    case OverdueTile => None
  }

  /** The statistics object the server sends, as the frontend reads it. */
  function FromServer(s: Crud.Stats): (v: StatsView)
    ensures v.total == s.total && v.active == s.active && v.completed == s.completed
    ensures v.overdue == Some(s.overdue)
  {
    StatsView(s.total, s.active, s.completed, Some(s.overdue))
  }

  /** For statistics computed by the server the panel's percentage lies
      between 0 and 100, and the overdue tile never exceeds the active one. */
  lemma ServerStatsRenderSanely(rows: Crud.Table, now: int)
    ensures var p := Render(Some(FromServer(Crud.Statistics(rows, now)))).value;
      && 0 <= p.rate <= 100
      && p.overdue <= p.active
      && p.active + p.completed == p.total
  {
    var s := Crud.Statistics(rows, now);
    RateInRange(s.total, s.completed);
  }
}
