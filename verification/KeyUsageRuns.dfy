/** The pruned counters against the full request log (web/lib/keyUsageStore.ts). */
module KeyUsageRuns {
  import opened Prelude
  import opened Sorting
  import opened KeyUsage

  function Run(id: string, log: seq<Call>): Option<Usage> {
    if log == [] then None else Some(Recorded(Run(id, log[..|log| - 1]), id, log[|log| - 1]))
  }

  function Buckets(id: string, log: seq<Call>): seq<Bucket> {
    if log == [] then [] else Run(id, log).value.buckets
  }

  /** The buckets as they would be if none were ever dropped. */
  function Unpruned(log: seq<Call>): seq<Bucket> {
    if log == [] then [] else Counted(Unpruned(log[..|log| - 1]), log[|log| - 1])
  }

  // ----- pruning -------------------------------------------------------------------------------

  ghost predicate DistinctDays(b: seq<Bucket>) {
    forall i, j :: 0 <= i < j < |b| ==> b[i].day != b[j].day
  }

  lemma {:induction false} InsertDistinct(x: Bucket, b: seq<Bucket>)
    requires DistinctDays(b) && forall y :: y in b ==> y.day != x.day
    ensures DistinctDays(Insert(x, b, NotAfter))
    ensures forall y :: y in Insert(x, b, NotAfter) <==> y == x || y in b
  {
    if b == [] || NotAfter(x, b[0]) {
    } else {
      InsertDistinct(x, b[1..]);
      var r := Insert(x, b[1..], NotAfter);
      forall i | 0 <= i < |r| ensures r[i].day != b[0].day {
        assert r[i] in r;
      }
    }
  }

  lemma {:induction false} SortDistinct(b: seq<Bucket>)
    requires DistinctDays(b)
    ensures DistinctDays(Sort(b, NotAfter))
    ensures forall y :: y in Sort(b, NotAfter) <==> y in b
  {
    if b != [] {
      SortDistinct(b[1..]);
      InsertDistinct(b[0], Sort(b[1..], NotAfter));
    }
  }

  lemma {:induction false} WithoutFirst(s: seq<Bucket>)
    requires s != [] && DistinctDays(s) && SortedBy(s, NotAfter)
    ensures DistinctDays(s[1..])
    ensures forall x :: x in s[1..] ==> s[0].day < x.day
    ensures forall x :: x in s[1..] <==> x in s && x != s[0]
  {
    forall i | 0 < i < |s| ensures s[0].day < s[i].day {
      assert NotAfter(s[0], s[i]);
    }
    assert s == [s[0]] + s[1..];
  }

  /** Pruning one bucket too many drops the oldest one and nothing else. */
  lemma PruneDropsOldest(b: seq<Bucket>) returns (m: Bucket)
    requires DistinctDays(b) && |b| == RETENTION_DAYS + 1
    ensures m in b && forall x :: x in b && x != m ==> m.day < x.day
    ensures forall x :: x in Prune(b) <==> x in b && x != m
    ensures DistinctDays(Prune(b)) && |Prune(b)| == RETENTION_DAYS
  {
    hide Sort, DistinctDays, SortedBy;
    SortDistinct(b);
    SortSorted(b, NotAfter);
    var s := Sort(b, NotAfter);
    m := s[0];
    WithoutFirst(s);
  }

  /** The kept buckets are buckets of the full list, and a bucket is missing only when there are as
      many newer ones as are kept. */
  ghost predicate Newest(kept: seq<Bucket>, full: seq<Bucket>) {
    && DistinctDays(kept) && DistinctDays(full)
    && |kept| <= RETENTION_DAYS
    && (forall b :: b in kept ==> b in full)
    && (forall b, k :: b in full && b !in kept && k in kept ==> b.day < k.day)
    && (forall b :: b in full && b !in kept ==> |kept| == RETENTION_DAYS)
  }

  lemma SameDay(full: seq<Bucket>, a: Bucket, b: Bucket)
    requires DistinctDays(full) && a in full && b in full && a.day == b.day
    ensures a == b
  {
  }

  lemma CountedMembers(full: seq<Bucket>, c: Call)
    requires DistinctDays(full)
    ensures DistinctDays(Counted(full, c))
    ensures forall b: Bucket :: b.day != c.day ==> (b in Counted(full, c) <==> b in full)
    ensures forall b: Bucket :: b.day == c.day && b in Counted(full, c) ==>
              b == Bucket(c.day, Bump(RowsOn(full, c.day), RouteOf(c), Classify(c.status)))
    ensures Bucket(c.day, Bump(RowsOn(full, c.day), RouteOf(c), Classify(c.status))) in Counted(full, c)
    ensures |Counted(full, c)| == |full| + if BucketAt(full, c.day) == |full| then 1 else 0
  {
    hide Bump;
    var i := BucketAt(full, c.day);
    if i < |full| {
      RowsFound(full, i);
      var g := Counted(full, c);
      assert g[i] in g;
      forall b: Bucket | b.day != c.day ensures b in g <==> b in full {
        if b in full {
          var j :| 0 <= j < |full| && full[j] == b;
          assert g[j] == b;
        }
      }
    } else {
      RowsMissing(full, c.day);
    }
  }

  lemma {:induction false} RowsFound(b: seq<Bucket>, i: nat)
    requires DistinctDays(b) && i < |b|
    ensures RowsOn(b, b[i].day) == b[i].routes
  {
    if i < |b| - 1 {
      RowsFound(b[..|b| - 1], i);
    }
  }

  lemma {:induction false} RowsMissing(b: seq<Bucket>, day: int)
    requires forall x :: x in b ==> x.day != day
    ensures RowsOn(b, day) == []
  {
    if b != [] {
      RowsMissing(b[..|b| - 1], day);
    }
  }

  function After(b: seq<Bucket>, c: Call): Bucket {
    Bucket(c.day, Bump(RowsOn(b, c.day), RouteOf(c), Classify(c.status)))
  }

  /** The request's day is already kept: both lists change the same bucket. */
  lemma KnownDay(kept: seq<Bucket>, full: seq<Bucket>, c: Call, k: Bucket)
    requires Newest(kept, full) && k in kept && k.day == c.day
    ensures Newest(Counted(kept, c), Counted(full, c))
  {
    hide Bump, RowsOn, Counted, Classify, BucketAt;
    CountedMembers(kept, c);
    CountedMembers(full, c);
    SameRows(kept, full, k);
  }

  lemma {:induction false} SameRows(kept: seq<Bucket>, full: seq<Bucket>, k: Bucket)
    requires DistinctDays(kept) && DistinctDays(full) && k in kept && k in full
    ensures RowsOn(kept, k.day) == k.routes && RowsOn(full, k.day) == k.routes
  {
    var i :| 0 <= i < |kept| && kept[i] == k;
    RowsFound(kept, i);
    var j :| 0 <= j < |full| && full[j] == k;
    RowsFound(full, j);
  }

  /** The request's day was dropped earlier: it is dropped again at once. */
  lemma DroppedDay(kept: seq<Bucket>, full: seq<Bucket>, c: Call, f: Bucket)
    requires Newest(kept, full) && f in full && f.day == c.day && forall k :: k in kept ==> k.day != c.day
    ensures Newest(Prune(Counted(kept, c)), Counted(full, c))
  {
    hide Bump, RowsOn, Counted, Classify, BucketAt, Prune, DistinctDays;
    CountedMembers(kept, c);
    CountedMembers(full, c);
    assert f !in kept;
    var m := PruneDropsOldest(Counted(kept, c));
    assert m.day == c.day;
  }

  /** A day never seen before. */
  lemma {:induction false} NewDay(kept: seq<Bucket>, full: seq<Bucket>, c: Call)
    requires Newest(kept, full) && forall f :: f in full ==> f.day != c.day
    ensures Newest(Prune(Counted(kept, c)), Counted(full, c))
  {
    hide Bump, RowsOn, Counted, Classify, BucketAt, DistinctDays, Sort;
    CountedMembers(kept, c);
    CountedMembers(full, c);
    NoRows(kept, c.day);
    NoRows(full, c.day);
    if |kept| == RETENTION_DAYS {
      hide Prune;
      var m := PruneDropsOldest(Counted(kept, c));
      NewDayFull(kept, full, c, m);
    } else {
      forall b | b in Counted(full, c) ensures b in Counted(kept, c) {
        assert b.day != c.day ==> b in full;
      }
    }
  }

  lemma {:induction false} NoRows(b: seq<Bucket>, day: int)
    requires forall x :: x in b ==> x.day != day
    ensures RowsOn(b, day) == [] && BucketAt(b, day) == |b|
  {
    RowsMissing(b, day);
  }

  lemma NewDayFull(kept: seq<Bucket>, full: seq<Bucket>, c: Call, m: Bucket)
    requires Newest(kept, full) && |kept| == RETENTION_DAYS
    requires (forall f :: f in full ==> f.day != c.day) && RowsOn(kept, c.day) == RowsOn(full, c.day)
    requires m in Counted(kept, c) && forall x :: x in Counted(kept, c) && x != m ==> m.day < x.day
    requires forall x :: x in Prune(Counted(kept, c)) <==> x in Counted(kept, c) && x != m
    requires DistinctDays(Prune(Counted(kept, c))) && |Prune(Counted(kept, c))| == RETENTION_DAYS
    ensures Newest(Prune(Counted(kept, c)), Counted(full, c))
  {
    hide Bump, RowsOn, Counted, Classify, BucketAt, DistinctDays, Prune;
    CountedMembers(kept, c);
    CountedMembers(full, c);
    var after := Prune(Counted(kept, c));
    forall b, k | b in Counted(full, c) && b !in after && k in after ensures b.day < k.day {
      if b in kept || b.day == c.day {
        assert b in Counted(kept, c);
      } else {
        assert b in full && b !in kept;
        assert m.day == c.day || m in kept;
      }
    }
  }

  lemma StepNewest(kept: seq<Bucket>, full: seq<Bucket>, c: Call)
    requires Newest(kept, full)
    ensures Newest(Prune(Counted(kept, c)), Counted(full, c))
  {
    hide Bump, RowsOn, Classify, Newest;
    var i, j := BucketAt(kept, c.day), BucketAt(full, c.day);
    if i < |kept| {
      KnownDay(kept, full, c, kept[i]);
      assert |Counted(kept, c)| == |kept|;
      KeptBound(kept, full);
    } else if j < |full| {
      DroppedDay(kept, full, c, full[j]);
    } else {
      NewDay(kept, full, c);
    }
  }

  lemma KeptBound(kept: seq<Bucket>, full: seq<Bucket>)
    requires Newest(kept, full)
    ensures |kept| <= RETENTION_DAYS
  {
  }

  lemma BucketsStep(id: string, log: seq<Call>)
    requires log != []
    ensures Buckets(id, log) == Prune(Counted(Buckets(id, log[..|log| - 1]), log[|log| - 1]))
  {
    hide Prune, Counted;
    assert Run(id, log[..|log| - 1]).Some? <==> |log| > 1;
  }

  lemma {:induction false} RunNewest(id: string, log: seq<Call>)
    ensures Newest(Buckets(id, log), Unpruned(log))
  {
    hide Newest, Counted, Prune, Run;
    if log == [] {
      EmptyNewest();
    } else {
      hide Buckets;
      BucketsStep(id, log);
      RunNewest(id, log[..|log| - 1]);
      StepNewest(Buckets(id, log[..|log| - 1]), Unpruned(log[..|log| - 1]), log[|log| - 1]);
    }
  }

  lemma EmptyNewest()
    ensures Newest([], [])
  {
  }

  // ----- the window lies within what is kept ---------------------------------------------------

  lemma {:induction false} Pigeonhole(days: set<int>, lo: int, hi: int)
    requires forall d :: d in days ==> lo < d <= hi
    requires lo <= hi
    ensures |days| <= hi - lo
    decreases hi - lo
  {
    if lo < hi {
      Pigeonhole(days - {hi}, lo, hi - 1);
    } else {
      assert forall d :: d !in days;
      assert days == {};
    }
  }

  function DaysOf(b: seq<Bucket>): set<int> {
    set x | x in b :: x.day
  }

  lemma {:induction false} DistinctDayCount(b: seq<Bucket>)
    requires DistinctDays(b)
    ensures |DaysOf(b)| == |b|
  {
    if b != [] {
      DistinctDayCount(b[1..]);
      assert b == [b[0]] + b[1..];
      assert DaysOf(b) == DaysOf(b[1..]) + {b[0].day};
      assert b[0].day !in DaysOf(b[1..]);
    }
  }

  ghost predicate NoneAfter(log: seq<Call>, today: int) {
    forall c :: c in log ==> c.day <= today
  }

  lemma {:induction false} BucketDays(log: seq<Call>, today: int)
    requires NoneAfter(log, today)
    ensures DistinctDays(Unpruned(log))
    ensures forall b :: b in Unpruned(log) ==> b.day <= today
  {
    if log != [] {
      hide Counted, RowsOn, Bump;
      var init, c := log[..|log| - 1], log[|log| - 1];
      BucketDays(init, today);
      CountedMembers(Unpruned(init), c);
    }
  }

  /** Within the last 35 days nothing has been dropped. */
  lemma KeptInWindow(kept: seq<Bucket>, full: seq<Bucket>, day: int, today: int)
    requires Newest(kept, full) && forall b :: b in full ==> b.day <= today
    requires today - RETENTION_DAYS < day <= today
    ensures RowsOn(kept, day) == RowsOn(full, day)
  {
    hide DistinctDays, RowsOn;
    var j := BucketAt(full, day);
    if j == |full| {
      RowsMissing(full, day);
      RowsMissing(kept, day);
    } else if full[j] in kept {
      SameRows(kept, full, full[j]);
    } else {
      DistinctDayCount(kept);
      Pigeonhole(DaysOf(kept), day, today);
      assert false;
    }
  }

  lemma {:induction false} PointsKept(id: string, log: seq<Call>, first: int, n: nat, today: int)
    requires NoneAfter(log, today) && today - RETENTION_DAYS < first && first + n - 1 <= today
    ensures Points(Buckets(id, log), first, n) == Points(Unpruned(log), first, n)
    ensures RouteTotals(Buckets(id, log), first, n) == RouteTotals(Unpruned(log), first, n)
  {
    hide Buckets, Unpruned, RowsOn, AddRows, SumRows, Newest;
    if n > 0 {
      PointsKept(id, log, first, n - 1, today);
      RunNewest(id, log);
      BucketDays(log, today);
      KeptInWindow(Buckets(id, log), Unpruned(log), first + n - 1, today);
    }
  }

  /** The usage record a store that never prunes would hold. */
  function FullUsage(id: string, log: seq<Call>): Option<Usage> {
    if log == [] then None
    else Some(Usage(id, |log|, Some(log[|log| - 1].at), Unpruned(log)))
  }

  lemma {:induction false} RunFields(id: string, log: seq<Call>)
    requires log != []
    ensures var u := Run(id, log).value;
            u.keyId == id && u.total == |log| && u.lastRequestAt == Some(log[|log| - 1].at)
  {
    hide Prune, Counted;
    if |log| > 1 {
      RunFields(id, log[..|log| - 1]);
    }
  }

  lemma {:induction false} SameSummary(u: Usage, v: Usage, days: real, today: int)
    requires u.keyId == v.keyId && u.total == v.total && u.lastRequestAt == v.lastRequestAt
    requires var w := Window(days);
             && Points(u.buckets, today - w + 1, w) == Points(v.buckets, today - w + 1, w)
             && RouteTotals(u.buckets, today - w + 1, w) == RouteTotals(v.buckets, today - w + 1, w)
    ensures Summarised(Some(u), days, today) == Summarised(Some(v), days, today)
  {
    hide Points, RouteTotals, Sort, SumPoints, Window;
  }

  /** When no request is dated after today, dropping old buckets cannot be seen in any summary. */
  lemma {:induction false} PruningIsInvisible(id: string, log: seq<Call>, days: real, today: int)
    requires NoneAfter(log, today)
    ensures Summarised(Run(id, log), days, today) == Summarised(FullUsage(id, log), days, today)
  {
    hide Unpruned, Points, RouteTotals, Window, NoneAfter, Recorded, Summarised;
    if log != [] {
      RunFields(id, log);
      PointsKept(id, log, today - Window(days) + 1, Window(days), today);
      SameSummary(Run(id, log).value, FullUsage(id, log).value, days, today);
    }
  }

  // ----- exactly which days are kept -----------------------------------------------------------

  function LogDays(log: seq<Call>): set<int> {
    set c | c in log :: c.day
  }

  function NewerDays(log: seq<Call>, day: int): set<int> {
    set d | d in LogDays(log) && d > day
  }

  lemma LogDaysSnoc(log: seq<Call>, c: Call)
    ensures LogDays(log + [c]) == LogDays(log) + {c.day}
  {
  }

  lemma {:induction false} UnprunedDays(log: seq<Call>)
    ensures DistinctDays(Unpruned(log))
    ensures DaysOf(Unpruned(log)) == LogDays(log)
    ensures forall b :: b in Unpruned(log) ==> b.routes != []
  {
    if log != [] {
      var init, c := log[..|log| - 1], log[|log| - 1];
      hide Counted, DistinctDays, DaysOf;
      UnprunedDays(init);
      assert log == init + [c];
      LogDaysSnoc(init, c);
      hide LogDays;
      CountedDays(Unpruned(init), c);
    }
  }

  lemma CountedDays(full: seq<Bucket>, c: Call)
    requires DistinctDays(full) && forall b :: b in full ==> b.routes != []
    ensures DistinctDays(Counted(full, c))
    ensures DaysOf(Counted(full, c)) == DaysOf(full) + {c.day}
    ensures forall b :: b in Counted(full, c) ==> b.routes != []
  {
    CountedMembers(full, c);
    assert After(full, c).routes != [];
    hide Counted, RowsOn, Bump, DistinctDays;
    var g := Counted(full, c);
    forall d ensures d in DaysOf(g) <==> d in DaysOf(full) || d == c.day {
      if d in DaysOf(full) && d != c.day {
        var b :| b in full && b.day == d;
        assert b in g;
      }
      if d == c.day {
        assert After(full, c) in g;
      }
    }
  }

  lemma KeptNewer(kept: seq<Bucket>, full: seq<Bucket>, b: Bucket, newer: set<int>)
    requires Newest(kept, full) && b in full
    requires newer == set d | d in DaysOf(full) && d > b.day
    ensures b in kept <==> |newer| < RETENTION_DAYS
  {
    DistinctDayCount(kept);
    hide DistinctDays;
    if b in kept {
      forall d | d in newer ensures d in DaysOf(kept) - {b.day} {
        var f :| f in full && f.day == d;
        assert f in kept;
      }
      Subset(newer, DaysOf(kept) - {b.day});
    } else {
      Subset(DaysOf(kept), newer);
    }
  }

  lemma Subset(a: set<int>, b: set<int>)
    requires a <= b
    ensures |a| <= |b|
  {
    assert b == a + (b - a);
  }

  /** Fewer than 35 later days had requests, or the day itself had none. */
  predicate Complete(log: seq<Call>, day: int) {
    day !in LogDays(log) || |NewerDays(log, day)| < 35
  }

  /** Exactly when the counters of a day are still complete; otherwise they are gone altogether. */
  lemma {:induction false} DayIsKeptIff(id: string, log: seq<Call>, day: int)
    ensures day in LogDays(log) ==> RowsOn(Unpruned(log), day) != []
    ensures RowsOn(Buckets(id, log), day) == if Complete(log, day) then RowsOn(Unpruned(log), day) else []
  {
    RunNewest(id, log);
    UnprunedDays(log);
    DayIsKept(Buckets(id, log), Unpruned(log), day, log);
  }

  lemma {:induction false} DayIsKept(kept: seq<Bucket>, full: seq<Bucket>, day: int, log: seq<Call>)
    requires Newest(kept, full) && DaysOf(full) == LogDays(log) && forall b :: b in full ==> b.routes != []
    ensures day in LogDays(log) ==> RowsOn(full, day) != []
    ensures RowsOn(kept, day) == if Complete(log, day) then RowsOn(full, day) else []
  {
    hide DistinctDays, RowsOn, LogDays;
    var j := BucketAt(full, day);
    if j == |full| {
      RowsMissing(full, day);
      RowsMissing(kept, day);
    } else {
      KeptNewer(kept, full, full[j], NewerDays(log, day));
      RowsFound(full, j);
      if full[j] in kept {
        SameRows(kept, full, full[j]);
      } else {
        DroppedRows(kept, full, full[j]);
      }
    }
  }

  lemma DroppedRows(kept: seq<Bucket>, full: seq<Bucket>, b: Bucket)
    requires Newest(kept, full) && b in full && b !in kept
    ensures RowsOn(kept, b.day) == []
  {
    forall k | k in kept ensures k.day != b.day {
      if k.day == b.day {
        SameDay(full, k, b);
      }
    }
    RowsMissing(kept, b.day);
  }

  // ----- the summary counts requests -----------------------------------------------------------

  /** One request of this class. */
  function OneOf(k: StatusClass): Tally {
    match k
    case Success => Tally(1, 1, 0, 0)
    case Redirect => Tally(1, 1, 0, 0)
    case ClientError => Tally(1, 0, 1, 0)
    case ServerError => Tally(1, 0, 0, 1)
  }

  /** Below 400 a success, below 500 an error of the client, otherwise one of the server. */
  function One(c: Call): Tally {
    Tally(1, if c.status < 400 then 1 else 0, if 400 <= c.status < 500 then 1 else 0, if c.status >= 500 then 1 else 0)
  }

  lemma OneIs(c: Call)
    ensures One(c) == OneOf(Classify(c.status))
  {
  }

  /** Requests without a route are counted as "other". */
  predicate AsRoute(c: Call, route: string) {
    if c.route == "" then route == "other" else route == c.route
  }

  lemma AsRouteIff(c: Call, route: string)
    ensures AsRoute(c, route) <==> RouteOf(c) == route
  {
  }

  /** The requests that satisfy `p`, counted one by one. */
  function Count(log: seq<Call>, p: Call -> bool): Tally {
    if log == [] then ZERO
    else
      var init, c := Count(log[..|log| - 1], p), log[|log| - 1];
      if p(c) then Plus(init, One(c)) else init
  }

  function OnDay(day: int): Call -> bool {
    (c: Call) => c.day == day
  }

  function OnDayRoute(day: int, route: string): Call -> bool {
    (c: Call) => c.day == day && AsRoute(c, route)
  }

  function Within(first: int, n: nat): Call -> bool {
    (c: Call) => first <= c.day < first + n
  }

  function WithinRoute(first: int, n: nat, route: string): Call -> bool {
    (c: Call) => first <= c.day < first + n && AsRoute(c, route)
  }

  lemma PlusLaws(a: Tally, b: Tally, x: Tally)
    ensures Plus(Plus(a, b), x) == Plus(a, Plus(b, x))
    ensures Plus(Plus(a, x), b) == Plus(a, Plus(b, x))
    ensures Plus(a, ZERO) == a && Plus(ZERO, a) == a
  {
  }

  lemma {:induction false} CountSplits(log: seq<Call>, p: Call -> bool, q: Call -> bool, r: Call -> bool)
    requires forall c :: p(c) == (q(c) || r(c))
    requires forall c :: !(q(c) && r(c))
    ensures Count(log, p) == Plus(Count(log, q), Count(log, r))
  {
    if log == [] {
      PlusLaws(ZERO, ZERO, ZERO);
    } else {
      hide One, Plus;
      var init, c := log[..|log| - 1], log[|log| - 1];
      CountSplits(init, p, q, r);
      PlusLaws(Count(init, q), Count(init, r), One(c));
    }
  }

  lemma {:induction false} CountNone(log: seq<Call>, p: Call -> bool)
    requires forall c :: !p(c)
    ensures Count(log, p) == ZERO
  {
    if log != [] {
      CountNone(log[..|log| - 1], p);
    }
  }

  /** Every request is a success, a client error or a server error. */
  lemma {:induction false} CountParts(log: seq<Call>, p: Call -> bool)
    ensures var t := Count(log, p); t.total == t.success + t.client + t.server
  {
    if log != [] {
      CountParts(log[..|log| - 1], p);
    }
  }

  /** What the rows of one route add up to. */
  function RouteSum(rows: seq<Row>, route: string): Tally {
    if rows == [] then ZERO
    else
      var init, x := RouteSum(rows[..|rows| - 1], route), rows[|rows| - 1];
      if x.route == route then Plus(init, TallyOf(x.counts)) else init
  }

  lemma BumpedTally(c: Counts, k: StatusClass)
    ensures TallyOf(Bumped(c, k)) == Plus(TallyOf(c), OneOf(k))
  {
  }

  lemma {:induction false} SumUpdate(rows: seq<Row>, i: nat, x: Row, t: Tally, route: string)
    requires i < |rows| && x.route == rows[i].route && TallyOf(x.counts) == Plus(TallyOf(rows[i].counts), t)
    ensures SumRows(rows[i := x]) == Plus(SumRows(rows), t)
    ensures RouteSum(rows[i := x], route) ==
            if x.route == route then Plus(RouteSum(rows, route), t) else RouteSum(rows, route)
  {
    hide TallyOf;
    var init, after := rows[..|rows| - 1], rows[i := x];
    if i < |rows| - 1 {
      assert after[..|rows| - 1] == init[i := x];
      SumUpdate(init, i, x, t, route);
    } else {
      assert after[..|rows| - 1] == init;
    }
  }

  lemma SumAppend(rows: seq<Row>, x: Row, route: string)
    ensures SumRows(rows + [x]) == Plus(SumRows(rows), TallyOf(x.counts))
    ensures RouteSum(rows + [x], route) ==
            if x.route == route then Plus(RouteSum(rows, route), TallyOf(x.counts)) else RouteSum(rows, route)
  {
    hide TallyOf, Plus;
    assert (rows + [x])[..|rows|] == rows;
  }

  lemma FirstTally(k: StatusClass)
    ensures TallyOf(Bumped(Counts(0, 0, 0, 0), k)) == OneOf(k)
  {
    match k
    case Success => assert Bumped(Counts(0, 0, 0, 0), k) == Counts(1, 0, 0, 0);
    case Redirect => assert Bumped(Counts(0, 0, 0, 0), k) == Counts(0, 1, 0, 0);
    case ClientError => assert Bumped(Counts(0, 0, 0, 0), k) == Counts(0, 0, 1, 0);
    case ServerError => assert Bumped(Counts(0, 0, 0, 0), k) == Counts(0, 0, 0, 1);
  }

  lemma BumpSums(rows: seq<Row>, c: Call, route: string)
    ensures var after := Bump(rows, RouteOf(c), Classify(c.status));
            && SumRows(after) == Plus(SumRows(rows), One(c))
            && RouteSum(after, route) ==
               if RouteOf(c) == route then Plus(RouteSum(rows, route), One(c)) else RouteSum(rows, route)
  {
    hide TallyOf, Bumped, RowAt, Classify, RouteOf, SumRows, RouteSum, OneOf, One, Plus;
    var r, k := RouteOf(c), Classify(c.status);
    OneIs(c);
    var i := RowAt(rows, r);
    if i < |rows| {
      BumpedTally(rows[i].counts, k);
      SumUpdate(rows, i, Row(r, Bumped(rows[i].counts, k)), One(c), route);
    } else {
      FirstTally(k);
      SumAppend(rows, Row(r, Bumped(Counts(0, 0, 0, 0), k)), route);
    }
  }

  /** Counting a request changes the rows of its own day only. */
  lemma RowsOnCounted(full: seq<Bucket>, c: Call, day: int)
    requires DistinctDays(full)
    ensures RowsOn(Counted(full, c), day) ==
            if day == c.day then Bump(RowsOn(full, day), RouteOf(c), Classify(c.status)) else RowsOn(full, day)
  {
    hide Bump, RowsOn, Counted, Classify, BucketAt;
    CountedMembers(full, c);
    var g := Counted(full, c);
    if day == c.day {
      RowsOfMember(g, After(full, c));
    } else {
      var i := BucketAt(full, day);
      if i < |full| {
        RowsOfMember(full, full[i]);
        RowsOfMember(g, full[i]);
      } else {
        RowsMissing(full, day);
        RowsMissing(g, day);
      }
    }
  }

  lemma {:induction false} RowsOfMember(b: seq<Bucket>, x: Bucket)
    requires DistinctDays(b) && x in b
    ensures RowsOn(b, x.day) == x.routes
  {
    var i :| 0 <= i < |b| && b[i] == x;
    RowsFound(b, i);
  }

  lemma {:induction false} RowsCount(log: seq<Call>, day: int, route: string)
    ensures SumRows(RowsOn(Unpruned(log), day)) == Count(log, OnDay(day))
    ensures RouteSum(RowsOn(Unpruned(log), day), route) == Count(log, OnDayRoute(day, route))
  {
    if log != [] {
      var init, c := log[..|log| - 1], log[|log| - 1];
      UnprunedDays(init);
      RowsCount(init, day, route);
      RowsOnCounted(Unpruned(init), c, day);
      AsRouteIff(c, route);
      BumpSums(RowsOn(Unpruned(init), day), c, route);
      hide Counted, Bump, RowsOn, SumRows, RouteSum, Plus, One, RouteOf, Classify;
    }
  }

  ghost predicate Positive(rows: seq<Row>) {
    forall x :: x in rows ==> TallyOf(x.counts).total > 0
  }

  lemma BumpPositive(rows: seq<Row>, route: string, k: StatusClass)
    requires Positive(rows)
    ensures Positive(Bump(rows, route, k))
  {
  }

  lemma {:induction false} RowsPositive(log: seq<Call>, day: int)
    ensures Positive(RowsOn(Unpruned(log), day))
  {
    hide RowsOn, Counted, Bump, Positive;
    if log == [] {
      RowsMissing([], day);
      NothingPositive();
    } else {
      var init, c := log[..|log| - 1], log[|log| - 1];
      UnprunedDays(init);
      RowsPositive(init, day);
      RowsOnCounted(Unpruned(init), c, day);
      BumpPositive(RowsOn(Unpruned(init), day), RouteOf(c), Classify(c.status));
    }
  }

  lemma NothingPositive()
    ensures Positive([])
  {
  }

  // ----- totals per route ----------------------------------------------------------------------

  function ValueOf(acc: seq<RouteTotal>, route: string): Tally {
    if TotalAt(acc, route) < |acc| then acc[TotalAt(acc, route)].tally else ZERO
  }

  function SumTotals(acc: seq<RouteTotal>): Tally {
    if acc == [] then ZERO else Plus(acc[0].tally, SumTotals(acc[1..]))
  }

  ghost predicate DistinctRoutes(acc: seq<RouteTotal>) {
    forall i, j :: 0 <= i < j < |acc| ==> acc[i].route != acc[j].route
  }

  ghost predicate Listed(acc: seq<RouteTotal>) {
    DistinctRoutes(acc) && forall a :: a in acc ==> a.tally.total > 0
  }

  lemma {:induction false} TotalFound(acc: seq<RouteTotal>, i: nat)
    requires DistinctRoutes(acc) && i < |acc|
    ensures TotalAt(acc, acc[i].route) == i
  {
    if i > 0 {
      TotalFound(acc[1..], i - 1);
    }
  }

  lemma {:induction false} AddRouteListed(acc: seq<RouteTotal>, route: string, t: Tally)
    requires Listed(acc) && t.total > 0
    ensures Listed(AddRoute(acc, route, t))
  {
    hide TotalAt;
  }

  lemma AddRouteValue(acc: seq<RouteTotal>, route: string, t: Tally, r: string)
    requires DistinctRoutes(acc)
    ensures ValueOf(AddRoute(acc, route, t), r) ==
            if r == route then Plus(ValueOf(acc, r), t) else ValueOf(acc, r)
  {
    hide Plus, TotalAt;
    var i, after := TotalAt(acc, route), AddRoute(acc, route, t);
    assert DistinctRoutes(after);
    if r == route {
      TotalFound(after, i);
    } else {
      var k := TotalAt(acc, r);
      if k < |acc| {
        TotalFound(after, k);
      } else {
        assert forall a :: a in after ==> a.route != r;
        assert TotalAt(after, r) == |after|;
      }
    }
  }

  lemma {:induction false} SumTotalsUpdate(acc: seq<RouteTotal>, i: nat, x: RouteTotal, t: Tally)
    requires i < |acc| && x.tally == Plus(acc[i].tally, t)
    ensures SumTotals(acc[i := x]) == Plus(SumTotals(acc), t)
  {
    hide Plus;
    if i == 0 {
      assert acc[i := x][1..] == acc[1..];
      PlusLaws(acc[0].tally, SumTotals(acc[1..]), t);
    } else {
      assert acc[i := x][1..] == acc[1..][i - 1 := x];
      SumTotalsUpdate(acc[1..], i - 1, x, t);
      PlusLaws(acc[0].tally, SumTotals(acc[1..]), t);
    }
  }

  lemma {:induction false} SumTotalsAppend(acc: seq<RouteTotal>, x: RouteTotal)
    ensures SumTotals(acc + [x]) == Plus(SumTotals(acc), x.tally)
  {
    hide Plus;
    if acc == [] {
      assert (acc + [x])[1..] == [];
      PlusLaws(x.tally, ZERO, ZERO);
    } else {
      assert (acc + [x])[1..] == acc[1..] + [x];
      SumTotalsAppend(acc[1..], x);
      PlusLaws(acc[0].tally, SumTotals(acc[1..]), x.tally);
    }
  }

  lemma AddRouteSum(acc: seq<RouteTotal>, route: string, t: Tally)
    ensures SumTotals(AddRoute(acc, route, t)) == Plus(SumTotals(acc), t)
  {
    hide Plus, SumTotals;
    PlusLaws(t, t, t);
    var i := TotalAt(acc, route);
    if i < |acc| {
      SumTotalsUpdate(acc, i, RouteTotal(route, Plus(acc[i].tally, t)), t);
    } else {
      SumTotalsAppend(acc, RouteTotal(route, Plus(ZERO, t)));
    }
  }

  lemma {:induction false} AddRowsListed(acc: seq<RouteTotal>, rows: seq<Row>)
    requires Listed(acc) && Positive(rows)
    ensures Listed(AddRows(acc, rows))
  {
    hide Listed, AddRoute, TallyOf;
    if rows != [] {
      AddRowsListed(acc, rows[..|rows| - 1]);
      AddRouteListed(AddRows(acc, rows[..|rows| - 1]), rows[|rows| - 1].route, TallyOf(rows[|rows| - 1].counts));
    }
  }

  lemma ListedDistinct(acc: seq<RouteTotal>)
    requires Listed(acc)
    ensures DistinctRoutes(acc)
  {
  }

  lemma {:induction false} AddRowsValue(acc: seq<RouteTotal>, rows: seq<Row>, r: string)
    requires Listed(acc) && Positive(rows)
    ensures ValueOf(AddRows(acc, rows), r) == Plus(ValueOf(acc, r), RouteSum(rows, r))
    ensures SumTotals(AddRows(acc, rows)) == Plus(SumTotals(acc), SumRows(rows))
  {
    hide Listed, AddRoute, TallyOf, Plus, ValueOf, SumTotals, DistinctRoutes;
    if rows == [] {
      PlusLaws(ValueOf(acc, r), ZERO, ZERO);
      PlusLaws(SumTotals(acc), ZERO, ZERO);
    } else {
      var init, x := rows[..|rows| - 1], rows[|rows| - 1];
      var mid, t := AddRows(acc, init), TallyOf(x.counts);
      AddRowsListed(acc, init);
      ListedDistinct(mid);
      AddRowsValue(acc, init, r);
      AddRouteValue(mid, x.route, t, r);
      AddRouteSum(mid, x.route, t);
      PlusLaws(ValueOf(acc, r), RouteSum(init, r), t);
      PlusLaws(SumTotals(acc), SumRows(init), t);
    }
  }

  // ----- windows -------------------------------------------------------------------------------

  lemma {:induction false} WindowStep(log: seq<Call>, first: int, n: nat, route: string)
    requires n > 0
    ensures Count(log, Within(first, n)) == Plus(Count(log, Within(first, n - 1)), Count(log, OnDay(first + n - 1)))
    ensures Count(log, WithinRoute(first, n, route)) ==
            Plus(Count(log, WithinRoute(first, n - 1, route)), Count(log, OnDayRoute(first + n - 1, route)))
  {
    hide Count, Plus, RouteOf;
    CountSplits(log, Within(first, n), Within(first, n - 1), OnDay(first + n - 1));
    CountSplits(log, WithinRoute(first, n, route), WithinRoute(first, n - 1, route), OnDayRoute(first + n - 1, route));
  }

  lemma {:induction false} EmptyWindow(log: seq<Call>, first: int, route: string)
    ensures Count(log, Within(first, 0)) == ZERO
    ensures Count(log, WithinRoute(first, 0, route)) == ZERO
    ensures Listed([]) && ValueOf([], route) == ZERO && SumTotals([]) == ZERO
  {
    hide RouteOf;
    CountNone(log, WithinRoute(first, 0, route));
    CountNone(log, Within(first, 0));
  }

  lemma {:induction false} TotalsCount(log: seq<Call>, first: int, n: nat, route: string)
    ensures Listed(RouteTotals(Unpruned(log), first, n))
    ensures ValueOf(RouteTotals(Unpruned(log), first, n), route) == Count(log, WithinRoute(first, n, route))
    ensures SumTotals(RouteTotals(Unpruned(log), first, n)) == Count(log, Within(first, n))
  {
    hide Unpruned, AddRows, Listed, ValueOf, SumTotals, Count, RowsOn, Positive, Plus, RouteSum, SumRows;
    hide Within, WithinRoute, OnDay, OnDayRoute;
    if n == 0 {
      EmptyWindow(log, first, route);
    } else {
      var acc, rows := RouteTotals(Unpruned(log), first, n - 1), RowsOn(Unpruned(log), first + n - 1);
      TotalsCount(log, first, n - 1, route);
      RowsPositive(log, first + n - 1);
      RowsCount(log, first + n - 1, route);
      AddRowsListed(acc, rows);
      AddRowsValue(acc, rows, route);
      WindowStep(log, first, n, route);
    }
  }

  lemma {:induction false} PointsCount(log: seq<Call>, first: int, n: nat)
    ensures forall i :: 0 <= i < n ==>
              Points(Unpruned(log), first, n)[i] == Point(first + i, Count(log, OnDay(first + i)))
  {
    hide Unpruned, Count, RowsOn, SumRows, OnDay;
    if n > 0 {
      PointsCount(log, first, n - 1);
      RowsCount(log, first + n - 1, "");
    }
  }

  lemma {:induction false} PointsSum(log: seq<Call>, first: int, n: nat)
    ensures SumPoints(Points(Unpruned(log), first, n)) == Count(log, Within(first, n))
  {
    hide Unpruned, Count, RowsOn, Plus, SumRows, Within, OnDay, WithinRoute, OnDayRoute;
    if n == 0 {
      EmptyWindow(log, first, "");
    } else {
      PointsSum(log, first, n - 1);
      RowsCount(log, first + n - 1, "");
      WindowStep(log, first, n, "");
      var p := Points(Unpruned(log), first, n);
      assert p[..n - 1] == Points(Unpruned(log), first, n - 1);
    }
  }

  // ----- sorting the routes --------------------------------------------------------------------

  lemma {:induction false} InsertTotals(x: RouteTotal, acc: seq<RouteTotal>)
    requires DistinctRoutes(acc) && forall a :: a in acc ==> a.route != x.route
    ensures DistinctRoutes(Insert(x, acc, NotLess))
    ensures forall a :: a in Insert(x, acc, NotLess) <==> a == x || a in acc
    ensures SumTotals(Insert(x, acc, NotLess)) == Plus(x.tally, SumTotals(acc))
  {
    hide Plus, NotLess;
    if acc == [] || NotLess(x, acc[0]) {
      assert ([x] + acc)[1..] == acc;
    } else {
      InsertTotals(x, acc[1..]);
      var r := Insert(x, acc[1..], NotLess);
      forall i | 0 <= i < |r| ensures r[i].route != acc[0].route {
        assert r[i] in r;
      }
      assert ([acc[0]] + r)[1..] == r;
      PlusSwap(acc[0].tally, x.tally, SumTotals(acc[1..]));
    }
  }

  lemma PlusSwap(a: Tally, b: Tally, c: Tally)
    ensures Plus(a, Plus(b, c)) == Plus(b, Plus(a, c))
  {
  }

  lemma {:induction false} SortTotals(acc: seq<RouteTotal>)
    requires DistinctRoutes(acc)
    ensures DistinctRoutes(Sort(acc, NotLess))
    ensures forall a :: a in Sort(acc, NotLess) <==> a in acc
    ensures SumTotals(Sort(acc, NotLess)) == SumTotals(acc)
  {
    hide Plus, NotLess;
    if acc != [] {
      SortTotals(acc[1..]);
      InsertTotals(acc[0], Sort(acc[1..], NotLess));
    }
  }

  // ----- main results --------------------------------------------------------------------------

  /** The request totals of a summary, by themselves: each is the number of matching requests ever
      made with the key, and the days, the routes and the window add up to one another. */
  ghost predicate CountsRequests(s: Summary, log: seq<Call>, first: int, w: nat) {
    && s.total == |log|
    && s.windowDays == w && |s.daily| == w
    && (forall i :: 0 <= i < w ==> s.daily[i] == Point(first + i, Count(log, OnDay(first + i))))
    && s.window == Count(log, Within(first, w))
    && SumPoints(s.daily) == s.window && SumTotals(s.byRoute) == s.window
    && s.window.total == s.window.success + s.window.client + s.window.server
  }

  ghost predicate RoutesCounted(byRoute: seq<RouteTotal>, log: seq<Call>, first: int, w: nat) {
    && (forall i, j :: 0 <= i < j < |byRoute| ==> byRoute[i].tally.total >= byRoute[j].tally.total)
    && DistinctRoutes(byRoute)
    && (forall a :: a in byRoute ==> a.tally == Count(log, WithinRoute(first, w, a.route)) && a.tally.total > 0)
    && (forall c :: c in log && first <= c.day < first + w ==> exists a :: a in byRoute && AsRoute(c, a.route))
  }

  lemma OneTotal(c: Call)
    ensures One(c).total == 1
  {
  }

  lemma {:induction false} CountHas(log: seq<Call>, p: Call -> bool, c: Call)
    requires c in log && p(c)
    ensures Count(log, p).total > 0
  {
    hide One;
    var init, last := log[..|log| - 1], log[|log| - 1];
    OneTotal(last);
    if last != c {
      assert log == init + [last];
      CountHas(init, p, c);
    }
  }

  lemma {:induction false} TotalsRoutes(log: seq<Call>, first: int, n: nat)
    ensures RoutesCounted(Sort(RouteTotals(Unpruned(log), first, n), NotLess), log, first, n)
    ensures SumTotals(Sort(RouteTotals(Unpruned(log), first, n), NotLess)) == Count(log, Within(first, n))
  {
    hide RouteTotals, Unpruned, Count, Sort, SumTotals;
    var acc := RouteTotals(Unpruned(log), first, n);
    TotalsCount(log, first, n, "");
    SortTotals(acc);
    SortSorted(acc, NotLess);
    hide DistinctRoutes, SortedBy;
    forall a | a in acc ensures a.tally == Count(log, WithinRoute(first, n, a.route)) {
      TotalsCount(log, first, n, a.route);
    }
    forall c | c in log && first <= c.day < first + n ensures exists a :: a in acc && AsRoute(c, a.route) {
      TotalsCount(log, first, n, RouteOf(c));
      AsRouteIff(c, RouteOf(c));
      CountHas(log, WithinRoute(first, n, RouteOf(c)), c);
    }
  }

  /** The window is `days` cut to whole days, but at least 1 and at most 35. */
  ghost predicate WholeDays(days: real, w: nat) {
    if days < 1.0 then w == 1
    else if days >= 35.0 then w == 35
    else w as real <= days < w as real + 1.0
  }

  lemma WindowIs(days: real)
    ensures WholeDays(days, Window(days))
  {
  }

  /** When no request is dated after today, a summary of the pruned store counts every request ever
      made: per day, per route and over the whole window, for every window of 1 to 35 days. */
  lemma SummaryCounts(id: string, log: seq<Call>, days: real, today: int)
    requires NoneAfter(log, today)
    ensures var s, w := Summarised(Run(id, log), days, today), Window(days);
            && CountsRequests(s, log, today - w + 1, w) && RoutesCounted(s.byRoute, log, today - w + 1, w)
            && WholeDays(days, w)
            && s.keyId == (if log == [] then "" else id)
            && s.lastRequestAt == if log == [] then None else Some(log[|log| - 1].at)
  {
    hide Run, Unpruned, Points, RouteTotals, Sort, Window, Count, SumPoints, SumTotals, RoutesCounted, NoneAfter;
    var w := Window(days);
    WindowIs(days);
    PruningIsInvisible(id, log, days, today);
    PointsCount(log, today - w + 1, w);
    PointsSum(log, today - w + 1, w);
    TotalsRoutes(log, today - w + 1, w);
    CountParts(log, Within(today - w + 1, w));
    NothingUnpruned();
  }

  lemma NothingUnpruned()
    ensures Unpruned([]) == []
  {
  }

  // ----- the raw counters ----------------------------------------------------------------------

  /** The counters of one route; zeros when it has none. */
  function CountersOf(rows: seq<Row>, route: string): Counts {
    var i := RowAt(rows, route);
    if i < |rows| then rows[i].counts else Counts(0, 0, 0, 0)
  }

  /** How many requests of the day and route had each kind of status. */
  function StatusCounts(log: seq<Call>, day: int, route: string): Counts {
    if log == [] then Counts(0, 0, 0, 0)
    else
      var n, c := StatusCounts(log[..|log| - 1], day, route), log[|log| - 1];
      if c.day != day || !AsRoute(c, route) then n
      else Counts(if c.status < 300 then n.c2 + 1 else n.c2,
                  if 300 <= c.status < 400 then n.c3 + 1 else n.c3,
                  if 400 <= c.status < 500 then n.c4 + 1 else n.c4,
                  if c.status >= 500 then n.c5 + 1 else n.c5)
  }

  lemma {:induction false} RowAtKept(rows: seq<Row>, i: nat, x: Row, route: string)
    requires i == RowAt(rows, x.route) && i < |rows|
    ensures RowAt(rows[i := x], route) == RowAt(rows, route)
  {
    if i > 0 {
      assert rows[i := x][1..] == rows[1..][i - 1 := x];
      if rows[0].route != route {
        RowAtKept(rows[1..], i - 1, x, route);
      }
    } else {
      assert rows[i := x][1..] == rows[1..];
    }
  }

  lemma {:induction false} RowAtAppend(rows: seq<Row>, x: Row, route: string)
    requires RowAt(rows, x.route) == |rows|
    ensures RowAt(rows + [x], route) == if route == x.route then |rows|
                                        else if RowAt(rows, route) < |rows| then RowAt(rows, route) else |rows| + 1
  {
    if rows != [] {
      assert (rows + [x])[1..] == rows[1..] + [x];
      RowAtAppend(rows[1..], x, route);
    }
  }

  lemma BumpCounters(rows: seq<Row>, r: string, k: StatusClass, route: string)
    ensures CountersOf(Bump(rows, r, k), route) ==
            if r == route then Bumped(CountersOf(rows, route), k) else CountersOf(rows, route)
  {
    hide Bumped, RowAt;
    var i := RowAt(rows, r);
    var x := Row(r, Bumped(CountersOf(rows, r), k));
    if i < |rows| {
      RowAtKept(rows, i, x, route);
    } else {
      RowAtAppend(rows, x, route);
    }
  }

  lemma {:induction false} CountersAre(log: seq<Call>, day: int, route: string)
    ensures CountersOf(RowsOn(Unpruned(log), day), route) == StatusCounts(log, day, route)
  {
    if log == [] {
      assert RowsOn(Unpruned(log), day) == [];
    } else {
      var init, c := log[..|log| - 1], log[|log| - 1];
      UnprunedDays(init);
      CountersAre(init, day, route);
      RowsOnCounted(Unpruned(init), c, day);
      AsRouteIff(c, route);
      hide Counted, Bump, RowsOn, CountersOf, RouteOf;
      BumpCounters(RowsOn(Unpruned(init), day), RouteOf(c), Classify(c.status), route);
    }
  }

  /** The stored counters of a day, for as long as it is kept, are the numbers of its requests. */
  lemma StoredCounters(id: string, log: seq<Call>, day: int, route: string)
    requires Complete(log, day)
    ensures CountersOf(RowsOn(Buckets(id, log), day), route) == StatusCounts(log, day, route)
  {
    hide CountersOf, RowsOn, Unpruned, Buckets, StatusCounts, Complete;
    DayIsKeptIff(id, log, day);
    CountersAre(log, day, route);
  }

  // ----- many keys -----------------------------------------------------------------------------

  datatype Request = Request(id: string, call: Call)

  /** The whole store after a log of requests made with any keys. */
  function RunStore(log: seq<Request>): map<string, Usage> {
    if log == [] then map[]
    else
      var keys, r := RunStore(log[..|log| - 1]), log[|log| - 1];
      keys[r.id := Recorded(Stored(keys, r.id), r.id, r.call)]
  }

  function Stored(keys: map<string, Usage>, id: string): Option<Usage> {
    if id in keys then Some(keys[id]) else None
  }

  function Calls(log: seq<Request>, id: string): seq<Call> {
    if log == [] then []
    else
      var init, r := Calls(log[..|log| - 1], id), log[|log| - 1];
      if r.id == id then init + [r.call] else init
  }

  /** A key's usage depends on its own requests only. */
  lemma {:induction false} KeysAreIndependent(log: seq<Request>, id: string)
    ensures Stored(RunStore(log), id) == Run(id, Calls(log, id))
  {
    hide Recorded;
    if log != [] {
      var init, r := log[..|log| - 1], log[|log| - 1];
      KeysAreIndependent(init, id);
      assert r.id == id ==> Calls(log, id)[..|Calls(log, id)| - 1] == Calls(init, id);
    }
  }
}
