/** The per-minute rate limiter (web/lib/rateLimitStore.ts). */
module RateLimit {
  import opened Prelude
  import opened EpochCounters

  const WINDOW_SECONDS := 60
  const MAX_LIMIT := 100_000

  datatype Decision = Decision(
    allowed: bool,
    limit: int,
    remaining: int,
    resetAt: int,
    retryAfter: int,
    windowStart: int,
    used: nat)

  datatype Store = Store(limits: map<string, int>, counters: Counters)

  function WindowStart(now: int): int {
    now - now % WINDOW_SECONDS
  }

  function LimitOf(s: Store, default: int, key: string): int {
    if key in s.limits then s.limits[key] else default
  }

  function Decide(s: Store, default: int, key: string, now: int): Decision {
    var limit, w := LimitOf(s, default, key), WindowStart(now);
    var count := Current(s.counters, key, w);
    if count >= limit then
      Decision(false, limit, 0, w + WINDOW_SECONDS, Max(1, w + WINDOW_SECONDS - now), w, count)
    else
      Decision(true, limit, limit - (count + 1), w + WINDOW_SECONDS, 0, w, count + 1)
  }

  function Consumed(s: Store, default: int, key: string, now: int): Store {
    if Decide(s, default, key, now).allowed then s.(counters := Bump(s.counters, key, WindowStart(now))) else s
  }

  function SetLimit(s: Store, key: string, limit: Option<int>): Result<Store, ()> {
    match limit
    case None => Ok(s.(limits := s.limits - {key}))
    case Some(l) => if l < 1 || l > MAX_LIMIT then Err(()) else Ok(s.(limits := s.limits[key := l]))
  }

  class RateLimitStore {
    var limits: map<string, int>
    var counters: Counters
    const defaultPerMinute: int

    constructor (defaultPerMinute: int)
      ensures State() == Store(map[], map[]) && this.defaultPerMinute == defaultPerMinute
    {
      this.defaultPerMinute := defaultPerMinute;
      limits, counters := map[], map[];
    }

    function State(): Store
      reads this
    {
      Store(limits, counters)
    }

    method Consume(key: string, now: int) returns (d: Decision)
      modifies `counters
      ensures d == Decide(old(State()), defaultPerMinute, key, now)
      ensures State() == Consumed(old(State()), defaultPerMinute, key, now)
    {
      var limit := if key in limits then limits[key] else defaultPerMinute;
      var windowStart := now - now % WINDOW_SECONDS;
      var count := 0;
      if key in counters && counters[key].epoch == windowStart {
        count := counters[key].count;
      }
      var resetAt := windowStart + WINDOW_SECONDS;
      if count >= limit {
        return Decision(false, limit, 0, resetAt, Max(1, resetAt - now), windowStart, count);
      }
      counters := counters[key := Counter(windowStart, count + 1)];
      d := Decision(true, limit, limit - (count + 1), resetAt, 0, windowStart, count + 1);
    }

    method SetLimitForKey(key: string, limit: Option<int>) returns (r: Result<int, ()>)
      modifies `limits
      ensures r.Ok? <==> SetLimit(old(State()), key, limit).Ok?
      ensures r.Ok? ==> State() == SetLimit(old(State()), key, limit).value
      ensures r.Ok? ==> r.value == LimitOf(State(), defaultPerMinute, key)
      ensures r.Err? ==> State() == old(State())
    {
      if limit.None? {
        limits := limits - {key};
      } else {
        if limit.value < 1 || limit.value > MAX_LIMIT {
          return Err(());
        }
        limits := limits[key := limit.value];
      }
      r := Ok(if key in limits then limits[key] else defaultPerMinute);
    }
  }

  // ----- every run --------------------------------------------------------------------------

  datatype Call = Consume(key: string, now: int) | Configure(key: string, limit: Option<int>)

  datatype Trace = Trace(store: Store, log: seq<Admit>)

  function Step(default: int, t: Trace, c: Call): Trace {
    match c
    case Consume(key, now) =>
      Trace(
        Consumed(t.store, default, key, now),
        if Decide(t.store, default, key, now).allowed then t.log + [Admit(key, WindowStart(now), now)] else t.log)
    case Configure(key, limit) =>
      var r := SetLimit(t.store, key, limit);
      if r.Ok? then t.(store := r.value) else t
  }

  function Run(default: int, calls: seq<Call>): Trace {
    if calls == [] then Trace(Store(map[], map[]), [])
    else Step(default, Run(default, calls[..|calls| - 1]), calls[|calls| - 1])
  }

  /** The clock starts at 0 and does not run backwards. */
  predicate Timely(calls: seq<Call>) {
    && (forall i :: 0 <= i < |calls| && calls[i].Consume? ==> calls[i].now >= 0)
    && (forall i, j :: 0 <= i < j < |calls| && calls[i].Consume? && calls[j].Consume? ==> calls[i].now <= calls[j].now)
  }

  function LastTime(calls: seq<Call>): int {
    if calls == [] then 0
    else if calls[|calls| - 1].Consume? then calls[|calls| - 1].now
    else LastTime(calls[..|calls| - 1])
  }

  lemma {:induction false} LastTimeBefore(calls: seq<Call>, now: int)
    requires now >= 0 && forall i :: 0 <= i < |calls| && calls[i].Consume? ==> calls[i].now <= now
    ensures LastTime(calls) <= now
  {
    if calls != [] && calls[|calls| - 1].Configure? {
      LastTimeBefore(calls[..|calls| - 1], now);
    }
  }

  lemma {:induction false} RunInv(default: int, calls: seq<Call>)
    requires Timely(calls)
    ensures Inv(Run(default, calls).store.counters, Run(default, calls).log, WindowStart(LastTime(calls)))
  {
    if calls != [] {
      var init, c := calls[..|calls| - 1], calls[|calls| - 1];
      RunInv(default, init);
      if c.Consume? {
        var t := Run(default, init);
        LastTimeBefore(init, c.now);
        BumpKeeps(t.store.counters, t.log, WindowStart(c.now), Admit(c.key, WindowStart(c.now), c.now));
      }
    }
  }

  // ----- what the calls alone say ---------------------------------------------------------------

  /** The last limit set for the key, from 1 to 100,000; the default when none is set or it was
      taken away. Other limits are refused and change nothing. */
  function LimitSet(default: int, calls: seq<Call>, key: string): int {
    if calls == [] then default
    else
      var init, c := calls[..|calls| - 1], calls[|calls| - 1];
      if c.Consume? || c.key != key then LimitSet(default, init, key)
      else if c.limit == None then default
      else if 1 <= c.limit.value <= 100_000 then c.limit.value
      else LimitSet(default, init, key)
  }

  /** How many calls of the key in the 60 seconds from `w` on find fewer than its limit before them. */
  function Passed(default: int, calls: seq<Call>, key: string, w: int): nat {
    if calls == [] then 0
    else
      var init, c := calls[..|calls| - 1], calls[|calls| - 1];
      var before := Passed(default, init, key, w);
      if c.Consume? && c.key == key && w <= c.now < w + 60 && before < LimitSet(default, init, key)
      then before + 1 else before
  }

  lemma {:induction false} LimitIsSet(default: int, calls: seq<Call>, key: string)
    ensures LimitOf(Run(default, calls).store, default, key) == LimitSet(default, calls, key)
  {
    if calls != [] {
      LimitIsSet(default, calls[..|calls| - 1], key);
    }
  }

  lemma WindowOf(w: int, now: int)
    requires w % 60 == 0
    ensures WindowStart(now) == w <==> w <= now < w + 60
  {
  }

  lemma LogStep(default: int, init: seq<Call>, c: Call, key: string, w: int)
    requires c.Consume?
    ensures var t := Run(default, init);
            var counted := Decide(t.store, default, c.key, c.now).allowed && c.key == key && WindowStart(c.now) == w;
            Count(Run(default, init + [c]).log, key, w) == Count(t.log, key, w) + if counted then 1 else 0
  {
    hide WindowStart, LimitOf, Decide, Consumed, Count;
    assert (init + [c])[..|init|] == init;
    CountSnoc(Run(default, init).log, Admit(c.key, WindowStart(c.now), c.now), key, w);
  }

  lemma TimelyInit(calls: seq<Call>)
    requires Timely(calls) && calls != []
    ensures Timely(calls[..|calls| - 1]) && calls == calls[..|calls| - 1] + [calls[|calls| - 1]]
  {
  }

  lemma ConfigureLogs(default: int, init: seq<Call>, c: Call)
    requires c.Configure?
    ensures Run(default, init + [c]).log == Run(default, init).log
  {
    assert (init + [c])[..|init|] == init;
  }

  lemma {:induction false} PassedIsCount(default: int, calls: seq<Call>, key: string, w: int)
    requires Timely(calls) && w % 60 == 0
    ensures Passed(default, calls, key, w) == Count(Run(default, calls).log, key, w)
  {
    if calls == [] {
      assert Run(default, calls).log == [];
    } else {
      hide WindowStart, LimitOf, LimitSet, Timely, Run, Decide, Count;
      var init, c := calls[..|calls| - 1], calls[|calls| - 1];
      TimelyInit(calls);
      PassedIsCount(default, init, key, w);
      if c.Consume? {
        LogStep(default, init, c, key, w);
        AdmittedIff(default, init, c.key, c.now);
        WindowOf(w, c.now);
      } else {
        ConfigureLogs(default, init, c);
      }
    }
  }

  /** Every answer, from the calls before it. */
  lemma DecisionIs(default: int, calls: seq<Call>, key: string, now: int)
    requires Timely(calls + [Consume(key, now)])
    ensures var w := now - now % 60;
            var passed, limit := Passed(default, calls, key, w), LimitSet(default, calls, key);
            Decide(Run(default, calls).store, default, key, now) ==
            if passed < limit then Decision(true, limit, limit - passed - 1, w + 60, 0, w, passed + 1)
            else Decision(false, limit, 0, w + 60, w + 60 - now, w, passed)
  {
    hide Run, LimitOf, LimitSet, Current, Count, Passed;
    var w := now - now % 60;
    WindowOf(w, now);
    AdmittedIff(default, calls, key, now);
    assert Timely(calls) by {
      assert forall i :: 0 <= i < |calls| ==> calls[i] == (calls + [Consume(key, now)])[i];
    }
    PassedIsCount(default, calls, key, w);
    LimitIsSet(default, calls, key);
  }

  /** Which limits are accepted, and what then holds. */
  lemma ConfigureIs(default: int, calls: seq<Call>, key: string, limit: Option<int>)
    ensures var r := SetLimit(Run(default, calls).store, key, limit);
            && (r.Ok? <==> limit == None || 1 <= limit.value <= 100_000)
            && (r.Ok? ==> forall k :: LimitOf(r.value, default, k) == if k != key then LimitSet(default, calls, k)
                                      else if limit == None then default else limit.value)
  {
    hide Run;
    forall k: string ensures LimitOf(Run(default, calls).store, default, k) == LimitSet(default, calls, k) {
      LimitIsSet(default, calls, k);
    }
  }

  lemma StoredIsCount(default: int, calls: seq<Call>, key: string, now: int)
    requires Timely(calls + [Consume(key, now)])
    ensures var t := Run(default, calls);
            Current(t.store.counters, key, WindowStart(now)) == Count(t.log, key, WindowStart(now))
  {
    hide Run, Inv, LimitOf, Current, Count;
    var all := calls + [Consume(key, now)];
    assert all[|calls|] == Consume(key, now) && all[..|calls|] == calls;
    assert forall i :: 0 <= i < |calls| ==> calls[i] == all[i];
    RunInv(default, calls);
    LastTimeBefore(calls, now);
    var t := Run(default, calls);
    CurrentIsCount(t.store.counters, t.log, WindowStart(LastTime(calls)), key, WindowStart(now));
  }

  /** A call is admitted exactly when fewer than the key's limit were admitted in its window. */
  lemma AdmittedIff(default: int, calls: seq<Call>, key: string, now: int)
    requires Timely(calls + [Consume(key, now)])
    ensures var t := Run(default, calls);
            var d := Decide(t.store, default, key, now);
            var admitted := Count(t.log, key, WindowStart(now));
            && (d.allowed <==> admitted < LimitSet(default, calls, key))
            && d.used == admitted + (if d.allowed then 1 else 0)
  {
    hide Run, LimitOf, LimitSet, Current, Count, WindowStart, Timely;
    StoredIsCount(default, calls, key, now);
    LimitIsSet(default, calls, key);
  }

  /** The key's limit, however it is changed, is never above `limit`. */
  ghost predicate LimitedTo(default: int, calls: seq<Call>, key: string, limit: int) {
    forall i :: 0 <= i <= |calls| ==> LimitSet(default, calls[..i], key) <= limit
  }

  /** At most the largest limit is admitted in any aligned window. */
  lemma {:induction false} AlignedBound(default: int, calls: seq<Call>, key: string, limit: int, w: int)
    requires Timely(calls) && LimitedTo(default, calls, key, limit) && limit >= 0
    ensures Count(Run(default, calls).log, key, w) <= limit
  {
    if calls != [] {
      var init, c := calls[..|calls| - 1], calls[|calls| - 1];
      LimitedBefore(default, calls, key, limit);
      AlignedBound(default, init, key, limit, w);
      assert calls == init + [c];
      if c.Consume? {
        AdmittedIff(default, init, c.key, c.now);
        CountSnoc(Run(default, init).log, Admit(c.key, WindowStart(c.now), c.now), key, w);
      }
    }
  }

  lemma LimitedBefore(default: int, calls: seq<Call>, key: string, limit: int)
    requires calls != [] && LimitedTo(default, calls, key, limit)
    ensures LimitedTo(default, calls[..|calls| - 1], key, limit)
    ensures LimitSet(default, calls[..|calls| - 1], key) <= limit
  {
    hide LimitSet;
    var init := calls[..|calls| - 1];
    forall i | 0 <= i <= |init| ensures LimitSet(default, init[..i], key) <= limit {
      assert init[..i] == calls[..i];
    }
    assert init[..|init|] == init;
  }

  /** How many calls of the key were admitted from `from` on, for 60 seconds. */
  function CountSpan(log: seq<Admit>, key: string, from: int): nat {
    if log == [] then 0
    else
      var a := log[|log| - 1];
      (if a.key == key && from <= a.at < from + 60 then 1 else 0) + CountSpan(log[..|log| - 1], key, from)
  }

  lemma {:induction false} SpanOverlapsTwo(log: seq<Admit>, key: string, from: int)
    requires forall i :: 0 <= i < |log| ==> log[i].epoch == WindowStart(log[i].at)
    ensures CountSpan(log, key, from) <=
            Count(log, key, WindowStart(from)) + Count(log, key, WindowStart(from) + 60)
  {
    if log != [] {
      SpanOverlapsTwo(log[..|log| - 1], key, from);
      var a := log[|log| - 1];
      if from <= a.at < from + 60 {
        TwoWindows(from, a.at);
      }
    }
  }

  lemma TwoWindows(from: int, at: int)
    requires from <= at < from + 60
    ensures WindowStart(at) == WindowStart(from) || WindowStart(at) == WindowStart(from) + 60
  {
  }

  lemma {:induction false} EpochsAreWindows(default: int, calls: seq<Call>)
    ensures forall i :: 0 <= i < |Run(default, calls).log| ==>
              Run(default, calls).log[i].epoch == WindowStart(Run(default, calls).log[i].at)
  {
    if calls != [] {
      EpochsAreWindows(default, calls[..|calls| - 1]);
    }
  }

  /** At most twice the largest limit is admitted in any 60 consecutive seconds. */
  lemma {:induction false} RollingBound(default: int, calls: seq<Call>, key: string, limit: int, from: int)
    requires Timely(calls) && LimitedTo(default, calls, key, limit) && limit >= 0
    ensures CountSpan(Run(default, calls).log, key, from) <= 2 * limit
  {
    EpochsAreWindows(default, calls);
    SpanOverlapsTwo(Run(default, calls).log, key, from);
    AlignedBound(default, calls, key, limit, WindowStart(from));
    AlignedBound(default, calls, key, limit, WindowStart(from) + 60);
  }

  /** The wait advised to a refused caller is 1 to 60 seconds and ends on the window edge, where the
      next call is admitted if no other came first. */
  lemma RetryLandsOnEdge(s: Store, default: int, key: string, now: int)
    requires now >= 0 && LimitOf(s, default, key) >= 1
    requires !Decide(s, default, key, now).allowed
    ensures var d := Decide(s, default, key, now);
            && 1 <= d.retryAfter <= 60
            && now + d.retryAfter == d.resetAt == WindowStart(now + d.retryAfter)
            && Decide(s, default, key, now + d.retryAfter).allowed
  {
  }

  // ----- when the bound of one window holds for 60 seconds --------------------------------------

  lemma {:induction false} AlignedSpan(log: seq<Admit>, key: string, from: int)
    requires forall i :: 0 <= i < |log| ==> log[i].epoch == WindowStart(log[i].at)
    requires from % 60 == 0
    ensures CountSpan(log, key, from) == Count(log, key, from)
  {
    if log != [] {
      AlignedSpan(log[..|log| - 1], key, from);
      InAlignedWindow(from, log[|log| - 1].at);
    }
  }

  lemma InAlignedWindow(from: int, at: int)
    requires from % 60 == 0
    ensures from <= at < from + 60 <==> WindowStart(at) == from
  {
  }

  /** `n` calls of the key at one moment. */
  function Burst(key: string, now: int, n: nat): seq<Call> {
    if n == 0 then [] else Burst(key, now, n - 1) + [Consume(key, now)]
  }

  function Admits(key: string, now: int, n: nat): seq<Admit> {
    if n == 0 then [] else Admits(key, now, n - 1) + [Admit(key, WindowStart(now), now)]
  }

  lemma BurstStep(default: int, calls: seq<Call>, key: string, now: int, n: nat)
    requires n > 0
    ensures Run(default, calls + Burst(key, now, n)) ==
            Step(default, Run(default, calls + Burst(key, now, n - 1)), Consume(key, now))
  {
    hide Step;
    var before, all := calls + Burst(key, now, n - 1), calls + Burst(key, now, n);
    assert all == before + [Consume(key, now)];
    assert all[..|all| - 1] == before;
  }

  lemma ConsumeStep(default: int, t: Trace, key: string, now: int, n: nat)
    requires key !in t.store.limits && n < default
    requires Current(t.store.counters, key, WindowStart(now)) == n
    ensures var t' := Step(default, t, Consume(key, now));
            && t'.store.limits == t.store.limits
            && Current(t'.store.counters, key, WindowStart(now)) == n + 1
            && t'.log == t.log + [Admit(key, WindowStart(now), now)]
  {
    hide WindowStart;
  }

  /** A burst of at most the limit at the start of a window is admitted in full. */
  lemma {:induction false} BurstAdmits(default: int, calls: seq<Call>, key: string, now: int, n: nat)
    requires key !in Run(default, calls).store.limits && n <= default
    requires Current(Run(default, calls).store.counters, key, WindowStart(now)) == 0
    ensures var t := Run(default, calls + Burst(key, now, n));
            && t.store.limits == Run(default, calls).store.limits
            && Current(t.store.counters, key, WindowStart(now)) == n
            && t.log == Run(default, calls).log + Admits(key, now, n)
  {
    hide Run, Step, Current, WindowStart;
    if n == 0 {
      assert calls + Burst(key, now, n) == calls;
    } else {
      BurstAdmits(default, calls, key, now, n - 1);
      BurstStep(default, calls, key, now, n);
      ConsumeStep(default, Run(default, calls + Burst(key, now, n - 1)), key, now, n - 1);
    }
  }

  lemma {:induction false} AdmitsAre(key: string, now: int, n: nat)
    ensures |Admits(key, now, n)| == n
    ensures forall i :: 0 <= i < n ==> Admits(key, now, n)[i] == Admit(key, WindowStart(now), now)
  {
    if n > 0 {
      AdmitsAre(key, now, n - 1);
    }
  }

  lemma {:induction false} SpanOfAll(log: seq<Admit>, key: string, from: int)
    requires forall i :: 0 <= i < |log| ==> log[i].key == key && from <= log[i].at < from + 60
    ensures CountSpan(log, key, from) == |log|
  {
    if log != [] {
      SpanOfAll(log[..|log| - 1], key, from);
    }
  }

  /** Fills the window of `from` at that moment and the next one as it opens. */
  function TwoBursts(key: string, from: int, n: nat): seq<Call> {
    Burst(key, from, n) + Burst(key, WindowStart(from) + 60, n)
  }

  lemma {:induction false} CounterEpoch(default: int, key: string, now: int, n: nat)
    ensures var cs := Run(default, Burst(key, now, n)).store.counters;
            key in cs ==> cs[key].epoch == WindowStart(now)
  {
    hide WindowStart;
    if n > 0 {
      CounterEpoch(default, key, now, n - 1);
      var b := Burst(key, now, n);
      assert b[..|b| - 1] == Burst(key, now, n - 1) && b[|b| - 1] == Consume(key, now);
    }
  }

  lemma NextWindow(from: int)
    ensures var next := WindowStart(from) + 60;
            && WindowStart(next) == next && next > WindowStart(from) && next > from
            && (from % 60 != 0 <==> next < from + 60)
  {
  }

  lemma TwoBurstsLog(limit: nat, key: string, from: int)
    ensures Run(limit, TwoBursts(key, from, limit)).log ==
            Admits(key, from, limit) + Admits(key, WindowStart(from) + 60, limit)
  {
    var next, first := WindowStart(from) + 60, Burst(key, from, limit);
    NextWindow(from);
    assert Run(limit, []) == Trace(Store(map[], map[]), []);
    assert [] + first == first;
    BurstAdmits(limit, [], key, from, limit);
    CounterEpoch(limit, key, from, limit);
    hide Run, WindowStart;
    BurstAdmits(limit, first, key, next, limit);
    assert Run(limit, []).log + Admits(key, from, limit) == Admits(key, from, limit);
  }

  /** Whenever `from` is not a window edge, twice the limit can be admitted within 60 seconds. */
  lemma TwiceTheLimit(limit: nat, key: string, from: int)
    requires from % 60 != 0
    ensures CountSpan(Run(limit, TwoBursts(key, from, limit)).log, key, from) == 2 * limit
  {
    var next := WindowStart(from) + 60;
    NextWindow(from);
    TwoBurstsLog(limit, key, from);
    AdmitsAre(key, from, limit);
    AdmitsAre(key, next, limit);
    hide Run, WindowStart;
    SpanOfAll(Run(limit, TwoBursts(key, from, limit)).log, key, from);
  }

  lemma {:induction false} BurstTimely(key: string, now: int, n: nat)
    ensures |Burst(key, now, n)| == n
    ensures forall i :: 0 <= i < n ==> Burst(key, now, n)[i] == Consume(key, now)
  {
    if n > 0 {
      BurstTimely(key, now, n - 1);
    }
  }

  lemma {:induction false} LimitsUntouched(default: int, calls: seq<Call>, key: string)
    requires forall i :: 0 <= i < |calls| ==> calls[i].Consume?
    ensures LimitSet(default, calls, key) == default
  {
    if calls != [] {
      LimitsUntouched(default, calls[..|calls| - 1], key);
    }
  }

  lemma TwoBurstsAllowed(limit: nat, key: string, from: int)
    requires from >= 0
    ensures Timely(TwoBursts(key, from, limit)) && LimitedTo(limit, TwoBursts(key, from, limit), key, limit)
  {
    var calls := TwoBursts(key, from, limit);
    NextWindow(from);
    BurstTimely(key, from, limit);
    BurstTimely(key, WindowStart(from) + 60, limit);
    hide WindowStart, LimitSet;
    forall i | 0 <= i <= |calls| ensures LimitSet(limit, calls[..i], key) <= limit {
      LimitsUntouched(limit, calls[..i], key);
    }
  }

  /** At most `limit` calls of the key are admitted in the 60 seconds from `from` on, in any run. */
  ghost predicate SpanWithin(limit: nat, key: string, from: int) {
    forall default, calls :: Timely(calls) && LimitedTo(default, calls, key, limit) ==>
      CountSpan(Run(default, calls).log, key, from) <= limit
  }

  lemma AlignedWithin(default: int, calls: seq<Call>, key: string, limit: nat, from: int)
    requires Timely(calls) && LimitedTo(default, calls, key, limit) && from % 60 == 0
    ensures CountSpan(Run(default, calls).log, key, from) <= limit
  {
    hide Run, LimitedTo, Timely;
    EpochsAreWindows(default, calls);
    AlignedSpan(Run(default, calls).log, key, from);
    AlignedBound(default, calls, key, limit, from);
  }

  /** The window is fixed, not sliding: the limit holds for 60 consecutive seconds in every run if
      and only if they start on a window edge. */
  lemma LimitHoldsIff(limit: nat, key: string, from: int)
    requires limit >= 1 && from >= 0
    ensures SpanWithin(limit, key, from) <==> from % 60 == 0
  {
    hide Run, LimitedTo, Timely, CountSpan, TwoBursts;
    if from % 60 == 0 {
      forall default, calls | Timely(calls) && LimitedTo(default, calls, key, limit)
        ensures CountSpan(Run(default, calls).log, key, from) <= limit
      {
        AlignedWithin(default, calls, key, limit, from);
      }
    } else {
      TwiceTheLimit(limit, key, from);
      TwoBurstsAllowed(limit, key, from);
    }
  }

  /** For example, twice the limit can pass within two seconds. */
  lemma TwiceTheLimitInTwoSeconds(limit: nat, key: string)
    ensures CountSpan(Run(limit, Burst(key, 59, limit) + Burst(key, 60, limit)).log, key, 59) == 2 * limit
  {
    assert WindowStart(59) == 0;
    assert TwoBursts(key, 59, limit) == Burst(key, 59, limit) + Burst(key, 60, limit);
    hide CountSpan, Run, Burst, TwoBursts;
    TwiceTheLimit(limit, key, 59);
  }
}
