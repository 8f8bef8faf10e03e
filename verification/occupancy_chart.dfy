/** The occupancy chart's data preparation: month names to dates, points grouped
    by year in the order the years first occur, each group in date order, and
    one line colour per group. */
module OccupancyChart {
  import opened Wrappers
  import opened Sequences
  import opened StableSort

  const Months: seq<string> := ["Jan", "Feb", "Mar", "Apr", "May", "Jun", "Jul", "Aug", "Sep", "Oct", "Nov", "Dec"]
  const Colors: seq<string> := ["#2563EB", "#0D9488", "#F97316", "#22C55E", "#F59E0B"]

  /** A point of the input series. */
  datatype OccupancyPoint = OccupancyPoint(month: string, year: int, rate: real)

  /** A point with its date added. A date is a count of months since the start
      of year 0, which orders dates as their time values do. */
  datatype DatedPoint = DatedPoint(point: OccupancyPoint, date: int)
  {
    function Year(): int { point.year }
  }

  /** One line of the chart. */
  datatype YearGroup = YearGroup(year: int, points: seq<DatedPoint>)

  /** `months.indexOf(month)`: the position of the name, or -1. */
  function MonthIndex(month: string): (r: int)
    ensures -1 <= r < |Months|
    ensures r >= 0 ==> Months[r] == month
    ensures r == -1 <==> month !in Months
  {
    match FindIndex(Months, (m: string) => m == month)
    case None => -1
    case Some(i) => i
  }

  lemma MonthsDistinct()
    ensures forall i, j :: 0 <= i < j < |Months| ==> Months[i] != Months[j]
  {
  }

  /** Every month name is found at its own position. */
  lemma MonthIndexOfMonths()
    ensures forall i :: 0 <= i < |Months| ==> MonthIndex(Months[i]) == i
  {
    MonthsDistinct();
    forall i | 0 <= i < |Months| ensures MonthIndex(Months[i]) == i {
      var r := MonthIndex(Months[i]);
      assert Months[r] == Months[i];
    }
  }

  /** The year `new Date(year, month)` lays out: years 0 to 99 are read as 1900
      to 1999. */
  function FullYear(year: int): (r: int)
    ensures 0 <= year <= 99 ==> r == 1900 + year
    ensures (year < 0 || 99 < year) ==> r == year
  {
    if 0 <= year <= 99 then 1900 + year else year
  }

  /** `parseDate`: `new Date(year, months.indexOf(month))` as a month count. A
      month index of -1 falls into December of the year before. */
  function ParseDate(month: string, year: int): (r: int)
    ensures month in Months ==> r / 12 == FullYear(year) && Months[r % 12] == month
    ensures month !in Months ==> r / 12 == FullYear(year) - 1 && Months[r % 12] == "Dec"
  {
    FullYear(year) * 12 + MonthIndex(month)
  }

  /** Within one year the dates follow the month order, and an unrecognised
      month comes before every month of the list. */
  lemma ParseDateMonthOrder(m1: string, m2: string, year: int)
    ensures ParseDate(m1, year) <= ParseDate(m2, year) <==> MonthIndex(m1) <= MonthIndex(m2)
    ensures m1 !in Months && m2 in Months ==> ParseDate(m1, year) < ParseDate(m2, year)
  {
  }

  /** An unrecognised month gives the date of December of the year before, for
      every year except 0 (whose December before is 1899, not year -1) and 100
      (whose year before, 99, is read as 1999). */
  lemma UnknownMonthIsPreviousDecember(month: string, year: int)
    requires month !in Months
    requires year != 0 && year != 100
    ensures ParseDate(month, year) == ParseDate("Dec", year - 1)
  {
    MonthIndexOfMonths();
    assert Months[11] == "Dec";
  }

  /** `processedData`: each point extended with its date. */
  function Process(data: seq<OccupancyPoint>): (r: seq<DatedPoint>)
    ensures |r| == |data|
    ensures forall i :: 0 <= i < |r| ==> r[i].point == data[i]
    ensures forall i :: 0 <= i < |r| ==> r[i].date == ParseDate(data[i].month, data[i].year)
  {
    seq(|data|, i requires 0 <= i < |data| => DatedPoint(data[i], ParseDate(data[i].month, data[i].year)))
  }

  /** The points without their dates. */
  function Strip(ps: seq<DatedPoint>): (r: seq<OccupancyPoint>)
    ensures |r| == |ps|
  {
    seq(|ps|, i requires 0 <= i < |ps| => ps[i].point)
  }

  /** Adding the dates keeps the points and their order. */
  lemma StripProcess(data: seq<OccupancyPoint>)
    ensures Strip(Process(data)) == data
  {
  }

  /** The comparator `a.date - b.date`, read as "a may stay before b". */
  function ByDate(): (DatedPoint, DatedPoint) -> bool {
    (a: DatedPoint, b: DatedPoint) => a.date - b.date <= 0
  }

  lemma ByDateIsTotalPreorder()
    ensures TotalPreorder(ByDate())
  {
  }

  /** The years of `ps`, each once, in the order of their first occurrence. */
  function Years(ps: seq<DatedPoint>): seq<int>
    decreases |ps|
  {
    if ps == [] then []
    else
      var ys := Years(ps[..|ps| - 1]);
      if ps[|ps| - 1].Year() in ys then ys else ys + [ps[|ps| - 1].Year()]
  }

  /** The points of one year, in input order. */
  function OfYear(ps: seq<DatedPoint>, year: int): seq<DatedPoint>
    decreases |ps|
  {
    if ps == [] then []
    else
      OfYear(ps[..|ps| - 1], year) + (if ps[|ps| - 1].Year() == year then [ps[|ps| - 1]] else [])
  }

  /** `points.sort((a, b) => a.date.getTime() - b.date.getTime())`. */
  function SortByDate(points: seq<DatedPoint>): seq<DatedPoint> {
    Sort(points, ByDate())
  }

  /** One group per year, in first-occurrence order, each sorted by date. */
  function GroupedByYear(ps: seq<DatedPoint>): seq<YearGroup> {
    var ys := Years(ps);
    seq(|ys|, i requires 0 <= i < |ys| => YearGroup(ys[i], SortByDate(OfYear(ps, ys[i]))))
  }

  /** A year is listed exactly when some point has it. */
  lemma {:induction false} YearsListed(ps: seq<DatedPoint>, year: int)
    ensures year in Years(ps) <==> OfYear(ps, year) != []
    decreases |ps|
  {
    if ps != [] {
      YearsListed(ps[..|ps| - 1], year);
    }
  }

  /** The `forEach` loop of `dataByYear`: a map from year to the points pushed so
      far, and the order in which the years were first set (a `Map` iterates in
      insertion order). */
  method CollectByYear(ps: seq<DatedPoint>) returns (grouped: map<int, seq<DatedPoint>>, order: seq<int>)
    ensures order == Years(ps)
    ensures forall y :: y in grouped <==> y in order
    ensures forall y :: y in grouped ==> grouped[y] == OfYear(ps, y)
    ensures forall j :: 0 <= j < |order| ==> order[j] in grouped && grouped[order[j]] == OfYear(ps, order[j])
  {
    grouped := map[];
    order := [];
    for i := 0 to |ps|
      invariant order == Years(ps[..i])
      invariant forall y :: y in grouped <==> y in order
      invariant forall y :: y in grouped ==> grouped[y] == OfYear(ps[..i], y)
    {
      var d := ps[i];
      assert ps[..i + 1][..i] == ps[..i];
      if d.Year() !in grouped {
        YearsListed(ps[..i], d.Year());
        grouped := grouped[d.Year() := []];
        order := order + [d.Year()];
      }
      grouped := grouped[d.Year() := grouped[d.Year()] + [d]];
    }
    assert ps[..|ps|] == ps;
  }

  /** `dataByYear`: the map's entries in its order, each group sorted by date. */
  method GroupByYear(ps: seq<DatedPoint>) returns (groups: seq<YearGroup>)
    ensures groups == GroupedByYear(ps)
  {
    var grouped, order := CollectByYear(ps);
    groups := seq(|order|, j requires 0 <= j < |order| && order[j] in grouped => YearGroup(order[j], SortByDate(grouped[order[j]])));
  }

  /** The points of a year are the input's points of that year, as often as
      they occur. */
  lemma {:induction false} OfYearContents(ps: seq<DatedPoint>, year: int)
    ensures forall d :: multiset(OfYear(ps, year))[d] == if d.Year() == year then multiset(ps)[d] else 0
    decreases |ps|
  {
    if ps != [] {
      var n := |ps| - 1;
      OfYearContents(ps[..n], year);
      assert ps == ps[..n] + [ps[n]];
    }
  }

  /** No year is listed twice. */
  lemma {:induction false} YearsDistinct(ps: seq<DatedPoint>)
    ensures forall i, j :: 0 <= i < j < |Years(ps)| ==> Years(ps)[i] != Years(ps)[j]
    decreases |ps|
  {
    if ps != [] {
      YearsDistinct(ps[..|ps| - 1]);
    }
  }

  /** The first position of a point of the year, if any. */
  function HasYear(year: int): DatedPoint -> bool {
    (d: DatedPoint) => d.Year() == year
  }

  function FirstOfYear(ps: seq<DatedPoint>, year: int): Option<nat> {
    FindIndex(ps, HasYear(year))
  }

  /** Appending a point changes only the first position of a year not seen
      before. */
  lemma FirstOfYearSnoc(front: seq<DatedPoint>, d: DatedPoint, year: int)
    ensures FirstOfYear(front + [d], year) ==
      if FirstOfYear(front, year).Some? then FirstOfYear(front, year)
      else if d.Year() == year then Some(|front|)
      else None
  {
    var ps := front + [d];
    if FirstOfYear(front, year).Some? {
      FindIndexFirst(ps, HasYear(year), FirstOfYear(front, year).value);
    } else if d.Year() == year {
      FindIndexFirst(ps, HasYear(year), |front|);
    } else {
      assert forall k :: 0 <= k < |front| ==> ps[k] == front[k];
    }
  }

  /** The years are listed in the order of their first occurrence in the input,
      as a `Map` lists keys in the order they were first set. */
  lemma {:induction false} YearsInFirstOccurrenceOrder(ps: seq<DatedPoint>)
    ensures forall y :: y in Years(ps) <==> FirstOfYear(ps, y).Some?
    ensures forall i, j :: 0 <= i < j < |Years(ps)| ==>
      FirstOfYear(ps, Years(ps)[i]).Some? && FirstOfYear(ps, Years(ps)[j]).Some?
      && FirstOfYear(ps, Years(ps)[i]).value < FirstOfYear(ps, Years(ps)[j]).value
    decreases |ps|
  {
    if ps != [] {
      var n := |ps| - 1;
      var front, d := ps[..n], ps[n];
      assert ps == front + [d];
      YearsInFirstOccurrenceOrder(front);
      forall y ensures FirstOfYear(ps, y) ==
        if FirstOfYear(front, y).Some? then FirstOfYear(front, y)
        else if d.Year() == y then Some(n)
        else None
      {
        FirstOfYearSnoc(front, d, y);
      }
    }
  }

  /** The points of a group sum, over all groups, to the input length. */
  function TotalSize(groups: seq<YearGroup>): nat {
    if groups == [] then 0 else |groups[0].points| + TotalSize(groups[1..])
  }

  /** The number of points of the years `ys`. */
  function SizeOfYears(ys: seq<int>, ps: seq<DatedPoint>): nat {
    if ys == [] then 0 else |OfYear(ps, ys[0])| + SizeOfYears(ys[1..], ps)
  }

  function Count(ys: seq<int>, year: int): nat {
    if ys == [] then 0 else (if ys[0] == year then 1 else 0) + Count(ys[1..], year)
  }

  lemma {:induction false} SizeOfYearsSnoc(ys: seq<int>, ps: seq<DatedPoint>, d: DatedPoint)
    ensures SizeOfYears(ys, ps + [d]) == SizeOfYears(ys, ps) + Count(ys, d.Year())
    decreases |ys|
  {
    if ys != [] {
      SizeOfYearsSnoc(ys[1..], ps, d);
      assert (ps + [d])[..|ps|] == ps;
    }
  }

  lemma {:induction false} SizeOfYearsEmpty(ys: seq<int>)
    ensures SizeOfYears(ys, []) == 0
    decreases |ys|
  {
    if ys != [] {
      SizeOfYearsEmpty(ys[1..]);
    }
  }

  lemma {:induction false} CountDistinct(ys: seq<int>, year: int)
    requires forall i, j :: 0 <= i < j < |ys| ==> ys[i] != ys[j]
    ensures Count(ys, year) == if year in ys then 1 else 0
    decreases |ys|
  {
    if ys != [] {
      CountDistinct(ys[1..], year);
      if ys[0] == year {
        assert year !in ys[1..] by {
          forall k | 0 <= k < |ys| - 1 ensures ys[1..][k] != year {
            assert ys[1..][k] == ys[k + 1];
          }
        }
      }
    }
  }

  /** Distinct years covering every point account for every point once. */
  lemma {:induction false} SizeOfCoveringYears(ys: seq<int>, ps: seq<DatedPoint>)
    requires forall i, j :: 0 <= i < j < |ys| ==> ys[i] != ys[j]
    requires forall d :: d in ps ==> d.Year() in ys
    ensures SizeOfYears(ys, ps) == |ps|
    decreases |ps|
  {
    if ps == [] {
      SizeOfYearsEmpty(ys);
    } else {
      var n := |ps| - 1;
      assert ps == ps[..n] + [ps[n]];
      SizeOfCoveringYears(ys, ps[..n]);
      SizeOfYearsSnoc(ys, ps[..n], ps[n]);
      CountDistinct(ys, ps[n].Year());
    }
  }

  lemma {:induction false} TotalSizeSuffix(ps: seq<DatedPoint>, k: nat)
    requires k <= |Years(ps)|
    ensures TotalSize(GroupedByYear(ps)[k..]) == SizeOfYears(Years(ps)[k..], ps)
    decreases |Years(ps)| - k
  {
    var gs, ys := GroupedByYear(ps), Years(ps);
    if k < |ys| {
      TotalSizeSuffix(ps, k + 1);
      assert gs[k..][1..] == gs[k + 1..];
      assert ys[k..][1..] == ys[k + 1..];
    }
  }

  /** The points of each group are the points of the group's year, as often as
      they occur. */
  lemma GroupContents(ps: seq<DatedPoint>, i: nat)
    requires i < |GroupedByYear(ps)|
    ensures var g := GroupedByYear(ps)[i];
      forall d :: multiset(g.points)[d] == if d.Year() == g.year then multiset(ps)[d] else 0
  {
    OfYearContents(ps, Years(ps)[i]);
  }

  /** Each group holds points of the input of its own year, and nothing else. */
  lemma GroupsHoldTheirYear(ps: seq<DatedPoint>)
    ensures var gs := GroupedByYear(ps);
      forall i, d :: 0 <= i < |gs| && d in gs[i].points ==> d in ps && d.Year() == gs[i].year
  {
    var gs := GroupedByYear(ps);
    forall i, d | 0 <= i < |gs| && d in gs[i].points ensures d in ps && d.Year() == gs[i].year {
      GroupContents(ps, i);
      assert d in multiset(gs[i].points);
    }
  }

  /** Every point is in the group of its year. */
  lemma EveryPointGrouped(ps: seq<DatedPoint>)
    ensures var gs := GroupedByYear(ps);
      forall d :: d in ps ==> exists i :: 0 <= i < |gs| && gs[i].year == d.Year() && d in gs[i].points
  {
    var gs, ys := GroupedByYear(ps), Years(ps);
    forall d | d in ps ensures exists i :: 0 <= i < |gs| && gs[i].year == d.Year() && d in gs[i].points {
      OfYearContents(ps, d.Year());
      YearsListed(ps, d.Year());
      assert d in multiset(OfYear(ps, d.Year()));
      var i :| 0 <= i < |ys| && ys[i] == d.Year();
      GroupContents(ps, i);
      assert d in multiset(gs[i].points);
    }
  }

  /** The group sizes add up to the number of points. */
  lemma GroupSizesSum(ps: seq<DatedPoint>)
    ensures TotalSize(GroupedByYear(ps)) == |ps|
  {
    var gs, ys := GroupedByYear(ps), Years(ps);
    forall d | d in ps ensures d.Year() in ys {
      OfYearContents(ps, d.Year());
      YearsListed(ps, d.Year());
      assert d in multiset(OfYear(ps, d.Year()));
    }
    YearsDistinct(ps);
    SizeOfCoveringYears(ys, ps);
    TotalSizeSuffix(ps, 0);
    assert gs[0..] == gs && ys[0..] == ys;
  }

  /** Each group is in date order, and points with the same date keep their input
      order. */
  lemma GroupsSortedByDate(ps: seq<DatedPoint>)
    ensures var gs := GroupedByYear(ps);
      forall i :: 0 <= i < |gs| ==>
        && (forall a, b :: 0 <= a < b < |gs[i].points| ==> gs[i].points[a].date <= gs[i].points[b].date)
        && (forall k :: Class(gs[i].points, ByDate(), k) == Class(OfYear(ps, gs[i].year), ByDate(), k))
  {
    var gs := GroupedByYear(ps);
    ByDateIsTotalPreorder();
    forall i | 0 <= i < |gs|
      ensures Sorted(gs[i].points, ByDate())
      ensures forall k :: Class(gs[i].points, ByDate(), k) == Class(OfYear(ps, gs[i].year), ByDate(), k)
    {
      SortIsStable(OfYear(ps, gs[i].year), ByDate());
    }
  }

  /** The points carry the dates `parseDate` gives them. */
  ghost predicate Dated(ps: seq<DatedPoint>) {
    forall d :: d in ps ==> d.date == ParseDate(d.point.month, d.point.year)
  }

  lemma ProcessDated(data: seq<OccupancyPoint>)
    ensures Dated(Process(data))
  {
    var ps := Process(data);
    forall d | d in ps ensures d.date == ParseDate(d.point.month, d.point.year) {
      var k :| 0 <= k < |ps| && ps[k] == d;
    }
  }

  /** In a sequence sorted by date, a strictly earlier date sits at a smaller
      position. */
  lemma EarlierDateFirst(points: seq<DatedPoint>, a: nat, b: nat)
    requires Sorted(points, ByDate())
    requires a < |points| && b < |points| && points[a].date < points[b].date
    ensures a < b
  {
    var x, y := points[a], points[b];
    assert b < a ==> ByDate()(y, x);
  }

  /** Of two points of one year, one with an unknown month name is dated before
      one with a known month. */
  lemma UnknownMonthEarlier(ps: seq<DatedPoint>, x: DatedPoint, y: DatedPoint)
    requires Dated(ps) && x in ps && y in ps && x.Year() == y.Year()
    requires x.point.month !in Months && y.point.month in Months
    ensures x.date < y.date
  {
    ParseDateMonthOrder(x.point.month, y.point.month, x.Year());
  }

  /** In every group, a point whose month name is not in the list comes before
      every point whose month is. */
  lemma UnknownMonthFirst(ps: seq<DatedPoint>, i: nat)
    requires Dated(ps) && i < |GroupedByYear(ps)|
    ensures var g := GroupedByYear(ps)[i];
      forall a, b :: 0 <= a < |g.points| && 0 <= b < |g.points| ==>
        (g.points[a].point.month !in Months && g.points[b].point.month in Months ==> a < b)
  {
    var g := GroupedByYear(ps)[i];
    GroupContents(ps, i);
    ByDateIsTotalPreorder();
    SortIsStable(OfYear(ps, g.year), ByDate());
    forall a, b | 0 <= a < |g.points| && 0 <= b < |g.points|
        && g.points[a].point.month !in Months && g.points[b].point.month in Months
      ensures a < b
    {
      var x, y := g.points[a], g.points[b];
      assert x in multiset(g.points) && y in multiset(g.points);
      UnknownMonthEarlier(ps, x, y);
      EarlierDateFirst(g.points, a, b);
    }
  }

  /** `colors[i % colors.length]`: the stroke of the i-th line. */
  function LineColor(i: nat): (r: string)
    ensures r in Colors
  {
    Colors[i % |Colors|]
  }

  lemma ColorsDistinct()
    ensures forall i, j :: 0 <= i < j < |Colors| ==> Colors[i] != Colors[j]
  {
  }

  /** The colours repeat after five lines, and any five consecutive lines have
      five different colours. */
  lemma LineColorsCycle(i: nat, j: nat)
    ensures LineColor(i + |Colors|) == LineColor(i)
    ensures i < j < i + |Colors| ==> LineColor(i) != LineColor(j)
  {
    ColorsDistinct();
    if i < j < i + |Colors| {
      assert i % |Colors| != j % |Colors|;
    }
  }
}
