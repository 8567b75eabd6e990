/** Per-key request counters, kept for 35 days (web/lib/keyUsageStore.ts). Days are numbered. */
module KeyUsage {
  import opened Prelude
  import opened Sorting

  const RETENTION_DAYS: nat := 35

  datatype StatusClass = Success | Redirect | ClientError | ServerError

  datatype Counts = Counts(c2: nat, c3: nat, c4: nat, c5: nat)

  datatype Row = Row(route: string, counts: Counts)

  datatype Bucket = Bucket(day: int, routes: seq<Row>)

  datatype Usage = Usage(keyId: string, total: nat, lastRequestAt: Option<int>, buckets: seq<Bucket>)

  /** One authenticated request; `at` is the moment, `day` its UTC day. */
  datatype Call = Call(route: string, status: int, day: int, at: int)

  function Classify(status: int): StatusClass {
    if status >= 500 then ServerError
    else if status >= 400 then ClientError
    else if status >= 300 then Redirect
    else Success
  }

  function RouteOf(c: Call): string {
    if c.route == "" then "other" else c.route
  }

  /** One more request of class `k`. */
  function Bumped(c: Counts, k: StatusClass): Counts {
    Counts(if k.Success? then c.c2 + 1 else c.c2,
           if k.Redirect? then c.c3 + 1 else c.c3,
           if k.ClientError? then c.c4 + 1 else c.c4,
           if k.ServerError? then c.c5 + 1 else c.c5)
  }

  /** Position of the row of this route; the number of rows when there is none. */
  function RowAt(rows: seq<Row>, route: string): (i: nat)
    ensures i <= |rows|
    ensures i < |rows| ==> rows[i].route == route
  {
    if rows == [] || rows[0].route == route then 0 else 1 + RowAt(rows[1..], route)
  }

  function Bump(rows: seq<Row>, route: string, k: StatusClass): seq<Row> {
    var i := RowAt(rows, route);
    if i < |rows| then rows[i := Row(route, Bumped(rows[i].counts, k))]
    else rows + [Row(route, Bumped(Counts(0, 0, 0, 0), k))]
  }

  function BucketAt(buckets: seq<Bucket>, day: int): (i: nat)
    ensures i <= |buckets|
    ensures i < |buckets| ==> buckets[i].day == day
    ensures i == |buckets| ==> forall b :: b in buckets ==> b.day != day
  {
    if buckets == [] || buckets[0].day == day then 0 else 1 + BucketAt(buckets[1..], day)
  }

  function Counted(buckets: seq<Bucket>, c: Call): seq<Bucket> {
    var i := BucketAt(buckets, c.day);
    if i < |buckets| then buckets[i := Bucket(c.day, Bump(buckets[i].routes, RouteOf(c), Classify(c.status)))]
    else buckets + [Bucket(c.day, Bump([], RouteOf(c), Classify(c.status)))]
  }

  predicate NotAfter(a: Bucket, b: Bucket) {
    a.day <= b.day
  }

  function Prune(buckets: seq<Bucket>): seq<Bucket> {
    if |buckets| <= RETENTION_DAYS then buckets
    else Sort(buckets, NotAfter)[|buckets| - RETENTION_DAYS..]
  }

  function Recorded(u: Option<Usage>, id: string, c: Call): Usage {
    var entry := if u.Some? then u.value else Usage(id, 0, None, []);
    Usage(entry.keyId, entry.total + 1, Some(c.at), Prune(Counted(entry.buckets, c)))
  }

  // ----- the summary ---------------------------------------------------------------------------

  datatype Tally = Tally(total: nat, success: nat, client: nat, server: nat)

  const ZERO := Tally(0, 0, 0, 0)

  function Plus(a: Tally, b: Tally): Tally {
    Tally(a.total + b.total, a.success + b.success, a.client + b.client, a.server + b.server)
  }

  function TallyOf(c: Counts): Tally {
    Tally(c.c2 + c.c3 + c.c4 + c.c5, c.c2 + c.c3, c.c4, c.c5)
  }

  datatype Point = Point(day: int, tally: Tally)

  datatype RouteTotal = RouteTotal(route: string, tally: Tally)

  datatype Summary = Summary(
    keyId: string,
    total: nat,
    lastRequestAt: Option<int>,
    windowDays: nat,
    window: Tally,
    daily: seq<Point>,
    byRoute: seq<RouteTotal>)

  function Window(days: real): (w: nat)
    ensures 1 <= w <= RETENTION_DAYS
  {
    Max(1, Min(RETENTION_DAYS, days.Floor))
  }

  /** The rows of a day; the later bucket counts, should a day have two. */
  function RowsOn(buckets: seq<Bucket>, day: int): seq<Row> {
    if buckets == [] then []
    else if buckets[|buckets| - 1].day == day then buckets[|buckets| - 1].routes
    else RowsOn(buckets[..|buckets| - 1], day)
  }

  function SumRows(rows: seq<Row>): Tally {
    if rows == [] then ZERO else Plus(SumRows(rows[..|rows| - 1]), TallyOf(rows[|rows| - 1].counts))
  }

  /** The points of the `n` days from `first` on. */
  function Points(buckets: seq<Bucket>, first: int, n: nat): (p: seq<Point>)
    ensures |p| == n
  {
    if n == 0 then []
    else Points(buckets, first, n - 1) + [Point(first + n - 1, SumRows(RowsOn(buckets, first + n - 1)))]
  }

  function TotalAt(acc: seq<RouteTotal>, route: string): (i: nat)
    ensures i <= |acc|
    ensures i < |acc| ==> acc[i].route == route
    ensures i == |acc| ==> forall a :: a in acc ==> a.route != route
  {
    if acc == [] || acc[0].route == route then 0 else 1 + TotalAt(acc[1..], route)
  }

  function AddRoute(acc: seq<RouteTotal>, route: string, t: Tally): seq<RouteTotal> {
    var i := TotalAt(acc, route);
    if i < |acc| then acc[i := RouteTotal(route, Plus(acc[i].tally, t))]
    else acc + [RouteTotal(route, Plus(ZERO, t))]
  }

  function AddRows(acc: seq<RouteTotal>, rows: seq<Row>): seq<RouteTotal> {
    if rows == [] then acc
    else AddRoute(AddRows(acc, rows[..|rows| - 1]), rows[|rows| - 1].route, TallyOf(rows[|rows| - 1].counts))
  }

  function RouteTotals(buckets: seq<Bucket>, first: int, n: nat): seq<RouteTotal> {
    if n == 0 then [] else AddRows(RouteTotals(buckets, first, n - 1), RowsOn(buckets, first + n - 1))
  }

  function SumPoints(p: seq<Point>): Tally {
    if p == [] then ZERO else Plus(SumPoints(p[..|p| - 1]), p[|p| - 1].tally)
  }

  predicate NotLess(a: RouteTotal, b: RouteTotal) {
    a.tally.total >= b.tally.total
  }

  function Summarised(u: Option<Usage>, days: real, today: int): Summary {
    var w := Window(days);
    var entry := if u.Some? then u.value else Usage("", 0, None, []);
    var daily := Points(entry.buckets, today - w + 1, w);
    Summary(entry.keyId, entry.total, entry.lastRequestAt, w, SumPoints(daily), daily,
            Sort(RouteTotals(entry.buckets, today - w + 1, w), NotLess))
  }

  class KeyUsageStore {
    var keys: map<string, Usage>

    constructor ()
      ensures keys == map[]
    {
      keys := map[];
    }

    function Get(id: string): Option<Usage>
      reads this
    {
      if id in keys then Some(keys[id]) else None
    }

    method RecordRequest(id: string, c: Call)
      modifies this
      ensures keys == old(keys)[id := Recorded(old(Get(id)), id, c)]
    {
      hide Bump, Prune, BucketAt, Classify;
      var routeClass := if c.route == "" then "other" else c.route;
      var entry := if id in keys then keys[id] else Usage(id, 0, None, []);
      var buckets := entry.buckets;
      var i := BucketAt(buckets, c.day);
      if i == |buckets| {
        buckets := buckets + [Bucket(c.day, [])];
      }
      var rows := Bump(buckets[i].routes, routeClass, Classify(c.status));
      buckets := buckets[i := Bucket(c.day, rows)];
      assert buckets == Counted(entry.buckets, c);
      entry := entry.(total := entry.total + 1, lastRequestAt := Some(c.at), buckets := Prune(buckets));
      keys := keys[id := entry];
    }

    method Summarise(id: string, days: real, today: int) returns (s: Summary)
      ensures s == Summarised(Get(id), days, today)
    {
      s := SummariseUsage(Get(id), days, today);
    }
  }

  method SummariseUsage(u: Option<Usage>, days: real, today: int) returns (s: Summary)
    ensures s == Summarised(u, days, today)
  {
    hide Points, RouteTotals, SumPoints, Sort, AddRows, Window;
    var w := Window(days);
    var entry := if u.Some? then u.value else Usage("", 0, None, []);
    var daily, acc := DailyAndRoutes(entry.buckets, today - w + 1, w);
    var window := WindowTotals(daily);
    s := Summary(entry.keyId, entry.total, entry.lastRequestAt, w, window, daily, Sort(acc, NotLess));
  }

  method DailyAndRoutes(buckets: seq<Bucket>, first: int, w: nat) returns (daily: seq<Point>, acc: seq<RouteTotal>)
    ensures daily == Points(buckets, first, w)
    ensures acc == RouteTotals(buckets, first, w)
  {
    daily, acc := [], [];
    for i := 0 to w
      invariant daily == Points(buckets, first, i)
      invariant acc == RouteTotals(buckets, first, i)
    {
      hide SumRows, AddRows, RowsOn;
      var rows := RowsOn(buckets, first + i);
      var t;
      t, acc := AddDay(rows, acc);
      daily := daily + [Point(first + i, t)];
    }
  }

  method AddDay(rows: seq<Row>, acc0: seq<RouteTotal>) returns (t: Tally, acc: seq<RouteTotal>)
    ensures t == SumRows(rows)
    ensures acc == AddRows(acc0, rows)
  {
    hide TotalAt;
    t, acc := ZERO, acc0;
    for i := 0 to |rows|
      invariant t == SumRows(rows[..i])
      invariant acc == AddRows(acc0, rows[..i])
    {
      assert rows[..i + 1][..i] == rows[..i];
      var c := rows[i].counts;
      var sum := c.c2 + c.c3 + c.c4 + c.c5;
      t := Tally(t.total + sum, t.success + c.c2 + c.c3, t.client + c.c4, t.server + c.c5);
      var k := TotalAt(acc, rows[i].route);
      var r := if k < |acc| then acc[k].tally else ZERO;
      r := Tally(r.total + sum, r.success + c.c2 + c.c3, r.client + c.c4, r.server + c.c5);
      if k < |acc| {
        acc := acc[k := RouteTotal(rows[i].route, r)];
      } else {
        acc := acc + [RouteTotal(rows[i].route, r)];
      }
    }
    assert rows[..|rows|] == rows;
  }

  method WindowTotals(daily: seq<Point>) returns (t: Tally)
    ensures t == SumPoints(daily)
  {
    t := ZERO;
    for i := 0 to |daily|
      invariant t == SumPoints(daily[..i])
    {
      assert daily[..i + 1][..i] == daily[..i];
      t := Plus(t, daily[i].tally);
    }
    assert daily[..|daily|] == daily;
  }
}
