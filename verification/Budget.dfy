/** Budget periods: internal/budget/period.go over the modelled calendar. */
module Periods {
  import opened Common
  import opened Calendar

  /** The accepted period names; any other string is Unknown. */
  datatype Period = Hourly | Daily | Weekly | Monthly | Lifetime | Unknown(name: string)

  predicate Recurring(period: Period) {
    period.Hourly? || period.Daily? || period.Weekly? || period.Monthly?
  }

  /** now.AddDate(0, 0, n): the date moves, the time of day stays. */
  function AddDays(t: int, n: int): int {
    var c := CivilOf(DayOf(t));
    Date(c.year, c.month, c.day + n, 0) + t % DAY
  }

  function Monday(now: int): int {
    var weekday := Weekday(DayOf(now));
    AddDays(now, -((if weekday == 0 then 7 else weekday) - 1))
  }

  function Midnight(t: int): int {
    var c := CivilOf(DayOf(t));
    Date(c.year, c.month, c.day, 0)
  }

  /** None is the error for an unknown period; a lifetime starts at Go's zero time. */
  function PeriodStart(period: Period, now: int): Option<int> {
    var c := CivilOf(DayOf(now));
    match period
    case Hourly => Some(Date(c.year, c.month, c.day, HourOf(now)))
    case Daily => Some(Date(c.year, c.month, c.day, 0))
    case Weekly => Some(Midnight(Monday(now)))
    case Monthly => Some(Date(c.year, c.month, 1, 0))
    case Lifetime => Some(Date(1, 1, 1, 0))
    case Unknown(_) => None
  }

  function PeriodEnd(period: Period, now: int): Option<int> {
    var c := CivilOf(DayOf(now));
    match period
    case Hourly => Some(Date(c.year, c.month, c.day, HourOf(now) + 1))
    case Daily => Some(Date(c.year, c.month, c.day + 1, 0))
    case Weekly => Some(Midnight(AddDays(Monday(now), 7)))
    case Monthly => Some(Date(c.year, c.month + 1, 1, 0))
    case Lifetime => Some(Date(9999, 12, 31, 23) + 3599)
    case Unknown(_) => None
  }

  // ----- periods are cells of a partition of time

  /** The number of the cell that contains t. */
  function Cell(period: Period, t: int): int
    requires Recurring(period)
  {
    match period
    case Hourly => t / HOUR
    case Daily => DayOf(t)
    case Weekly => (DayOf(t) + 3) / 7
    case _ => MonthIndex(DayOf(t))
  }

  /** Where cell k begins. */
  function Boundary(period: Period, k: int): int
    requires Recurring(period)
  {
    match period
    case Hourly => k * HOUR
    case Daily => k * DAY
    case Weekly => (7 * k - 3) * DAY
    case _ => MonthStart(k) * DAY
  }

  /** A date computed from the civil fields of a day is that day. */
  lemma DateOfDay(day: int, n: int, h: int)
    ensures var c := CivilOf(day); Date(c.year, c.month, c.day + n, h) == (day + n) * DAY + h * HOUR
  {
    var c := CivilOf(day);
    CivilCounts(day);
    DayNumberCounts(c.year, c.month, c.day + n);
  }

  lemma AddDaysAdds(t: int, n: int)
    ensures AddDays(t, n) == t + n * DAY && DayOf(t + n * DAY) == DayOf(t) + n
  {
    DateOfDay(DayOf(t), n, 0);
    ShiftDays(t, n);
  }

  lemma ShiftDays(t: int, n: int)
    ensures (t + n * DAY) / DAY == t / DAY + n && t / DAY * DAY + t % DAY == t
  {
  }

  lemma MidnightOfDay(t: int)
    ensures Midnight(t) == DayOf(t) * DAY
  {
    DateOfDay(DayOf(t), 0, 0);
  }

  lemma HourlyCell(now: int)
    ensures PeriodStart(Hourly, now) == Some(Boundary(Hourly, Cell(Hourly, now)))
    ensures PeriodEnd(Hourly, now) == Some(Boundary(Hourly, Cell(Hourly, now) + 1))
  {
    DateOfDay(DayOf(now), 0, HourOf(now));
    DateOfDay(DayOf(now), 0, HourOf(now) + 1);
    HourSplit(now);
  }

  lemma HourSplit(t: int)
    ensures t / DAY * DAY + (t % DAY) / HOUR * HOUR == t / HOUR * HOUR
  {
    assert t / DAY * 24 + (t % DAY) / HOUR == t / HOUR;
  }

  lemma WeeklyCell(now: int)
    ensures PeriodStart(Weekly, now) == Some(Boundary(Weekly, Cell(Weekly, now)))
    ensures PeriodEnd(Weekly, now) == Some(Boundary(Weekly, Cell(Weekly, now) + 1))
  {
    MondayIs(now);
    MidnightOfDay(Monday(now));
    AddDaysAdds(Monday(now), 7);
    MidnightOfDay(AddDays(Monday(now), 7));
  }

  lemma MondayIs(now: int)
    ensures DayOf(Monday(now)) == 7 * Cell(Weekly, now) - 3
  {
    var weekday := Weekday(DayOf(now));
    AddDaysAdds(now, -((if weekday == 0 then 7 else weekday) - 1));
    MondayOf(DayOf(now));
  }

  lemma MondayOf(day: int)
    ensures var w := Weekday(day); day - ((if w == 0 then 7 else w) - 1) == 7 * ((day + 3) / 7) - 3
  {
  }

  lemma MonthlyCell(now: int)
    ensures PeriodStart(Monthly, now) == Some(Boundary(Monthly, Cell(Monthly, now)))
    ensures PeriodEnd(Monthly, now) == Some(Boundary(Monthly, Cell(Monthly, now) + 1))
  {
    var c := CivilOf(DayOf(now));
    DayNumberCounts(c.year, c.month, 1);
    DayNumberCounts(c.year, c.month + 1, 1);
  }

  /** The code's case analysis and date arithmetic compute the cell of now. */
  lemma CellOf(period: Period, now: int)
    requires Recurring(period)
    ensures PeriodStart(period, now) == Some(Boundary(period, Cell(period, now)))
    ensures PeriodEnd(period, now) == Some(Boundary(period, Cell(period, now) + 1))
  {
    match period {
      case Hourly => HourlyCell(now);
      case Daily =>
        DateOfDay(DayOf(now), 0, 0);
        DateOfDay(DayOf(now), 1, 0);
      case Weekly => WeeklyCell(now);
      case _ => MonthlyCell(now);
    }
  }

  lemma InCell(period: Period, t: int)
    requires Recurring(period)
    ensures Boundary(period, Cell(period, t)) <= t < Boundary(period, Cell(period, t) + 1)
  {
    if period.Monthly? {
      CivilCounts(DayOf(t));
    }
  }

  lemma BoundariesAdvance(period: Period, i: int, j: int)
    requires Recurring(period) && i < j
    ensures Boundary(period, i) < Boundary(period, j)
  {
    if period.Monthly? {
      MonthsAdvance(i, j);
    }
  }

  /** Time cut into cells at boundaries. */
  datatype Grid = Grid(cell: int -> int, boundary: int -> int)

  ghost predicate Advances(g: Grid) {
    forall i, j {:trigger g.boundary(i), g.boundary(j)} :: i < j ==> g.boundary(i) < g.boundary(j)
  }

  ghost predicate Covers(g: Grid) {
    forall t {:trigger g.cell(t)} :: g.boundary(g.cell(t)) <= t < g.boundary(g.cell(t) + 1)
  }

  ghost predicate Tiles(g: Grid) {
    Advances(g) && Covers(g)
  }

  /** An instant between two neighbouring boundaries is in the cell between them. */
  lemma GridUnique(g: Grid, t: int, k: int)
    requires Tiles(g) && g.boundary(k) <= t < g.boundary(k + 1)
    ensures g.cell(t) == k
  {
    var c := g.cell(t);
    assert g.boundary(c) <= t < g.boundary(c + 1);
  }

  function GridOf(period: Period): Grid
    requires Recurring(period)
  {
    Grid((t: int) => Cell(period, t), (k: int) => Boundary(period, k))
  }

  lemma GridAdvances(period: Period)
    requires Recurring(period)
    ensures Advances(GridOf(period))
  {
    var g := GridOf(period);
    forall i, j | i < j ensures g.boundary(i) < g.boundary(j) {
      BoundariesAdvance(period, i, j);
    }
  }

  lemma GridCovers(period: Period)
    requires Recurring(period)
    ensures Covers(GridOf(period))
  {
    var g := GridOf(period);
    forall t ensures g.boundary(g.cell(t)) <= t < g.boundary(g.cell(t) + 1) {
      InCell(period, t);
    }
  }

  /** The two functions of period.go, as the store uses them. */
  datatype Bounds = Bounds(start: (Period, int) -> Option<int>, end: (Period, int) -> Option<int>)

  const CALENDAR := Bounds(PeriodStart, PeriodEnd)

  /** Starts are the lower, ends the upper boundaries of the cells of g, for one period. */
  ghost predicate StartsOn(b: Bounds, period: Period, g: Grid) {
    forall t {:trigger b.start(period, t)} :: b.start(period, t) == Some(g.boundary(g.cell(t)))
  }

  ghost predicate EndsOn(b: Bounds, period: Period, g: Grid) {
    forall t {:trigger b.end(period, t)} :: b.end(period, t) == Some(g.boundary(g.cell(t) + 1))
  }

  ghost predicate Follows(b: Bounds, period: Period, g: Grid) {
    StartsOn(b, period, g) && EndsOn(b, period, g)
  }

  lemma CalendarStarts(period: Period)
    requires Recurring(period)
    ensures StartsOn(CALENDAR, period, GridOf(period))
  {
    forall t ensures CALENDAR.start(period, t) == Some(GridOf(period).boundary(GridOf(period).cell(t))) {
      CellOf(period, t);
    }
  }

  lemma EndAt(period: Period, t: int)
    requires Recurring(period)
    ensures CALENDAR.end(period, t) == Some(GridOf(period).boundary(GridOf(period).cell(t) + 1))
  {
    CellOf(period, t);
  }

  lemma CalendarEnds(period: Period)
    requires Recurring(period)
    ensures EndsOn(CALENDAR, period, GridOf(period))
  {
    forall t ensures CALENDAR.end(period, t) == Some(GridOf(period).boundary(GridOf(period).cell(t) + 1)) {
      EndAt(period, t);
    }
  }

  lemma CalendarFollows(period: Period)
    requires Recurring(period)
    ensures Follows(CALENDAR, period, GridOf(period)) && Tiles(GridOf(period))
  {
    CalendarStarts(period);
    CalendarEnds(period);
    GridAdvances(period);
    GridCovers(period);
  }

  /** t is in its period, every instant of it has the same one, and the next begins at its end. */
  ghost predicate TiledAt(b: Bounds, period: Period, t: int) {
    var s, e := b.start(period, t), b.end(period, t);
    && s.Some? && e.Some? && s.value <= t < e.value
    && b.start(period, e.value) == e
    && forall u :: s.value <= u < e.value ==> b.start(period, u) == s && b.end(period, u) == e
  }

  lemma TilesAt(b: Bounds, period: Period, g: Grid, t: int)
    requires Follows(b, period, g) && Tiles(g)
    ensures TiledAt(b, period, t)
  {
    var k := g.cell(t);
    forall u | g.boundary(k) <= u < g.boundary(k + 1)
      ensures b.start(period, u) == b.start(period, t) && b.end(period, u) == b.end(period, t)
    {
      GridUnique(g, u, k);
    }
    assert g.boundary(k + 1) < g.boundary(k + 2);
    GridUnique(g, g.boundary(k + 1), k + 1);
  }

  /** The periods of the code tile time, over the whole calendar. */
  lemma PeriodsTile(period: Period, t: int)
    requires Recurring(period)
    ensures TiledAt(CALENDAR, period, t)
  {
    CalendarFollows(period);
    TilesAt(CALENDAR, period, GridOf(period), t);
  }

  /** Hours and days start on their multiples, weeks on a Monday, months on the first. */
  lemma CellsStart(now: int)
    ensures Boundary(Hourly, Cell(Hourly, now)) == now / 3_600 * 3_600
    ensures Boundary(Daily, Cell(Daily, now)) == now / 86_400 * 86_400
    ensures var day := (now / 86_400 + 3) / 7 * 7 - 3;
            Boundary(Weekly, Cell(Weekly, now)) == day * 86_400 && Weekday(day) == 1
  {
    WeekStarts((now / 86_400 + 3) / 7);
  }

  lemma WeekStarts(k: int)
    ensures Weekday(7 * k - 3) == 1
  {
  }

  lemma MonthStarts(now: int)
    ensures Boundary(Monthly, Cell(Monthly, now)) == MonthStart(MonthIndex(DayOf(now))) * 86_400
    ensures CivilOf(MonthStart(MonthIndex(DayOf(now)))).day == 1
  {
    var c := CivilOf(DayOf(now));
    DayNumberCounts(c.year, c.month, 1);
    CivilInverts(c.year, c.month, 1);
  }

  /** How long cells are. */
  lemma CellsLast(k: int)
    ensures Boundary(Hourly, k + 1) - Boundary(Hourly, k) == 3_600
    ensures Boundary(Daily, k + 1) - Boundary(Daily, k) == 86_400
    ensures Boundary(Weekly, k + 1) - Boundary(Weekly, k) == 7 * 86_400
    ensures Boundary(Monthly, k + 1) - Boundary(Monthly, k) == DaysIn(k / 12, k % 12 + 1) * 86_400
  {
    MonthStep(k);
  }

  /** A lifetime runs from Go's zero time to the last second of the year 9999. */
  lemma LifetimeBounds(now: int)
    ensures PeriodStart(Lifetime, now) == Some(-62_135_596_800) && PeriodEnd(Lifetime, now) == Some(253_402_300_799)
  {
    KnownDate(1, 1, 1, 0, -719_162);
    KnownDate(9999, 12, 31, 23, 2_932_896);
  }

  lemma KnownDate(y: int, m: int, d: int, h: int, day: int)
    requires DayFormula(y, m, d) == day
    ensures Date(y, m, d, h) == day * 86_400 + h * 3_600
  {
    DateClosedForm(y, m, d, h);
  }

  /** A month ends where the next begins: for an instant on day d of month m, at the first of month m + 1. */
  lemma MonthEnds(now: int, y: int, m: int, d: int)
    requires 1 <= m <= 12 && 1 <= d <= DaysIn(y, m) && DayOf(now) == DayFormula(y, m, d)
    ensures PeriodEnd(Monthly, now) == Some(Date(y, m + 1, 1, 0))
  {
    DayClosedForm(y, m, d);
    CivilInverts(y, m, d);
  }
}

/** The budget rows of internal/store/postgres/budget_store.go and their reset at period ends. */
module BudgetStore {
  import opened Common
  import opened Periods

  datatype Row = Row(period: Period, spend: real, start: int, end: int)

  predicate Expired(r: Row, now: int) {
    r.period != Lifetime && r.end <= now
  }

  /** What ResetExpired does to one row. */
  function ResetRow(b: Bounds, r: Row, now: int): Row {
    var start, end := b.start(r.period, now), b.end(r.period, now);
    if Expired(r, now) && start.Some? && end.Some? then r.(spend := 0.0, start := start.value, end := end.value) else r
  }

  class Store {
    var rows: map<int, Row>
    const bounds: Bounds

    constructor (bounds: Bounds)
      ensures rows == map[] && this.bounds == bounds
    {
      this.bounds := bounds;
      rows := map[];
    }

    /** UPDATE ... SET current_spend = current_spend + amount; no row, no effect. */
    method AddSpend(id: int, amount: real)
      modifies this
      ensures rows.Keys == old(rows.Keys)
      ensures forall i :: i in rows ==>
                rows[i] == if i == id then old(rows[i]).(spend := old(rows[i]).spend + amount) else old(rows[i])
    {
      if id in rows {
        rows := rows[id := rows[id].(spend := rows[id].spend + amount)];
      }
    }

    /** `expired` is the query's answer: the ids of the expired rows, in some order. */
    method ResetExpired(now: int, expired: seq<int>) returns (count: nat)
      requires forall i :: i in expired <==> i in rows && Expired(rows[i], now)
      requires forall i, j :: 0 <= i < j < |expired| ==> expired[i] != expired[j]
      modifies this
      ensures rows.Keys == old(rows.Keys)
      ensures forall i :: i in rows ==> rows[i] == ResetRow(bounds, old(rows[i]), now)
      ensures count == Known(bounds, now, old(rows), expired)
    {
      ghost var before := rows;
      count := 0;
      for n := 0 to |expired|
        invariant rows.Keys == before.Keys && count == Known(bounds, now, before, expired[..n])
        invariant forall i :: i in before && i !in expired[..n] ==> rows[i] == before[i]
        invariant forall i :: i in before && i in expired[..n] ==> rows[i] == ResetRow(bounds, before[i], now)
      {
        var id := expired[n];
        assert id !in expired[..n];
        assert expired[..n + 1] == expired[..n] + [id];
        var start, end := bounds.start(rows[id].period, now), bounds.end(rows[id].period, now);
        if start.None? || end.None? {
          continue;
        }
        rows := rows[id := rows[id].(spend := 0.0, start := start.value, end := end.value)];
        count := count + 1;
      }
      assert expired[..|expired|] == expired;
    }
  }

  /** How many of these rows have a period with a start and an end. */
  ghost function Known(b: Bounds, now: int, rows: map<int, Row>, ids: seq<int>): nat {
    if ids == [] then 0
    else
      var id := ids[|ids| - 1];
      Known(b, now, rows, ids[..|ids| - 1])
      + if id in rows && b.start(rows[id].period, now).Some? && b.end(rows[id].period, now).Some? then 1 else 0
  }

  // ----- a row over a whole run

  datatype Event = Tick(now: int) | Spend(amount: real)

  function RowAfter(b: Bounds, r: Row, h: seq<Event>): Row {
    if h == [] then r
    else
      var q := RowAfter(b, r, h[..|h| - 1]);
      match h[|h| - 1]
      case Tick(now) => ResetRow(b, q, now)
      case Spend(amount) => q.(spend := q.spend + amount)
  }

  /** The time of the last tick, or when the row was made. */
  function LastTick(h: seq<Event>, made: int): int {
    if h == [] then made
    else if h[|h| - 1].Tick? then h[|h| - 1].now
    else LastTick(h[..|h| - 1], made)
  }

  predicate Clocked(h: seq<Event>, made: int) {
    h == [] || (Clocked(h[..|h| - 1], made)
                && (h[|h| - 1].Tick? ==> LastTick(h[..|h| - 1], made) <= h[|h| - 1].now))
  }

  /** Spend since the last tick that found itself in another period than the tick before it. */
  function SpentSince(g: Grid, h: seq<Event>, made: int): real {
    if h == [] then 0.0
    else
      var p := h[..|h| - 1];
      match h[|h| - 1]
      case Spend(amount) => SpentSince(g, p, made) + amount
      case Tick(now) => if g.cell(now) == g.cell(LastTick(p, made)) then SpentSince(g, p, made) else 0.0
  }

  /** The row holds the whole period that contains t. */
  predicate Holds(b: Bounds, r: Row, t: int) {
    Some(r.start) == b.start(r.period, t) && Some(r.end) == b.end(r.period, t)
  }

  /**
    One tick: a row holding the period of an earlier instant then holds the period of now, and its spend
    is set to zero exactly if that is another period.
   */
  lemma TickHolds(b: Bounds, g: Grid, r: Row, t: int, now: int)
    requires Recurring(r.period) && Follows(b, r.period, g) && Tiles(g) && Holds(b, r, t) && t <= now
    ensures var r' := ResetRow(b, r, now);
            && r'.period == r.period && Holds(b, r', now)
            && r'.spend == if g.cell(now) == g.cell(t) then r.spend else 0.0
  {
    if r.end > now {
      GridUnique(g, now, g.cell(t));
    } else {
      assert g.boundary(g.cell(now) + 1) > now;
    }
  }

  lemma {:induction false} RowRun(b: Bounds, g: Grid, r: Row, h: seq<Event>, made: int)
    requires Recurring(r.period) && Follows(b, r.period, g) && Tiles(g)
    requires Holds(b, r, made) && r.spend == 0.0 && Clocked(h, made)
    ensures var q := RowAfter(b, r, h);
            && q.period == r.period && Holds(b, q, LastTick(h, made))
            && q.spend == SpentSince(g, h, made)
  {
    if h != [] {
      var p := h[..|h| - 1];
      RowRun(b, g, r, p, made);
      if h[|h| - 1].Tick? {
        TickHolds(b, g, RowAfter(b, r, p), LastTick(p, made), h[|h| - 1].now);
      }
    }
  }

  /**
    Over every run of spends and ticks with a nondecreasing clock: a row made at `made` for its current
    period holds, after the last tick, that tick's whole period, and counts exactly what was spent since
    a tick first fell into it.
   */
  lemma RowFollowsPeriods(r: Row, h: seq<Event>, made: int)
    requires Recurring(r.period) && Holds(CALENDAR, r, made) && r.spend == 0.0 && Clocked(h, made)
    ensures var q := RowAfter(CALENDAR, r, h);
            && Holds(CALENDAR, q, LastTick(h, made)) && q.period == r.period
            && q.spend == SpentSince(GridOf(r.period), h, made)
  {
    CalendarFollows(r.period);
    RowRun(CALENDAR, GridOf(r.period), r, h, made);
  }
}
