/** The monthly quota (web/lib/monthlyQuotaStore.ts). */
module MonthlyQuota {
  import opened Prelude
  import opened EpochCounters

  const MAX_QUOTA := 100_000_000

  /** `period` is the calendar month of the call, counted in months. */
  datatype Decision = Decision(allowed: bool, unlimited: bool, limit: int, used: nat, remaining: int, period: int)

  datatype Store = Store(quotas: map<string, int>, counters: Counters)

  function QuotaOf(s: Store, default: int, key: string): int {
    if key in s.quotas then s.quotas[key] else default
  }

  function Decide(s: Store, default: int, key: string, period: int): Decision {
    var limit, count := QuotaOf(s, default, key), Current(s.counters, key, period);
    if limit == 0 then Decision(true, true, 0, count + 1, 0, period)
    else if count >= limit then Decision(false, false, limit, count, 0, period)
    else Decision(true, false, limit, count + 1, Max(0, limit - (count + 1)), period)
  }

  function Reserved(s: Store, default: int, key: string, period: int): Store {
    if Decide(s, default, key, period).allowed then s.(counters := Bump(s.counters, key, period)) else s
  }

  function SetQuota(s: Store, key: string, quota: Option<int>): Result<Store, ()> {
    match quota
    case None => Ok(s.(quotas := s.quotas - {key}))
    case Some(q) => if q < 0 || q > MAX_QUOTA then Err(()) else Ok(s.(quotas := s.quotas[key := q]))
  }

  class QuotaStore {
    var quotas: map<string, int>
    var counters: Counters
    const defaultQuota: int

    constructor (defaultQuota: int)
      ensures State() == Store(map[], map[]) && this.defaultQuota == defaultQuota
    {
      this.defaultQuota := defaultQuota;
      quotas, counters := map[], map[];
    }

    function State(): Store
      reads this
    {
      Store(quotas, counters)
    }

    method Reserve(key: string, period: int) returns (d: Decision)
      modifies `counters
      ensures d == Decide(old(State()), defaultQuota, key, period)
      ensures State() == Reserved(old(State()), defaultQuota, key, period)
    {
      var limit := if key in quotas then quotas[key] else defaultQuota;
      var count := if key in counters && counters[key].epoch == period then counters[key].count else 0;
      if limit == 0 {
        counters := counters[key := Counter(period, count + 1)];
        return Decision(true, true, 0, count + 1, 0, period);
      }
      if count >= limit {
        return Decision(false, false, limit, count, 0, period);
      }
      counters := counters[key := Counter(period, count + 1)];
      d := Decision(true, false, limit, count + 1, Max(0, limit - (count + 1)), period);
    }

    method SetQuotaForKey(key: string, quota: Option<int>) returns (r: Result<int, ()>)
      modifies `quotas
      ensures r.Ok? <==> SetQuota(old(State()), key, quota).Ok?
      ensures r.Ok? ==> State() == SetQuota(old(State()), key, quota).value
      ensures r.Ok? ==> r.value == QuotaOf(State(), defaultQuota, key)
      ensures r.Err? ==> State() == old(State())
    {
      if quota.None? {
        quotas := quotas - {key};
      } else {
        if quota.value < 0 || quota.value > MAX_QUOTA {
          return Err(());
        }
        quotas := quotas[key := quota.value];
      }
      r := Ok(if key in quotas then quotas[key] else defaultQuota);
    }

    method GetUsage(key: string, period: int) returns (count: nat)
      ensures count == Current(counters, key, period)
    {
      count := if key !in counters || counters[key].epoch != period then 0 else counters[key].count;
    }
  }

  // ----- every run --------------------------------------------------------------------------

  datatype Call = Reserve(key: string, period: int) | Configure(key: string, quota: Option<int>)

  datatype Trace = Trace(store: Store, log: seq<Admit>)

  function Step(default: int, t: Trace, c: Call): Trace {
    match c
    case Reserve(key, period) =>
      Trace(
        Reserved(t.store, default, key, period),
        if Decide(t.store, default, key, period).allowed then t.log + [Admit(key, period, period)] else t.log)
    case Configure(key, quota) =>
      var r := SetQuota(t.store, key, quota);
      if r.Ok? then t.(store := r.value) else t
  }

  function Run(default: int, calls: seq<Call>): Trace {
    if calls == [] then Trace(Store(map[], map[]), [])
    else Step(default, Run(default, calls[..|calls| - 1]), calls[|calls| - 1])
  }

  predicate Timely(calls: seq<Call>) {
    && (forall i :: 0 <= i < |calls| && calls[i].Reserve? ==> calls[i].period >= 0)
    && (forall i, j :: 0 <= i < j < |calls| && calls[i].Reserve? && calls[j].Reserve? ==>
          calls[i].period <= calls[j].period)
  }

  function LastPeriod(calls: seq<Call>): int {
    if calls == [] then 0
    else if calls[|calls| - 1].Reserve? then calls[|calls| - 1].period
    else LastPeriod(calls[..|calls| - 1])
  }

  lemma {:induction false} LastPeriodBefore(calls: seq<Call>, period: int)
    requires period >= 0 && forall i :: 0 <= i < |calls| && calls[i].Reserve? ==> calls[i].period <= period
    ensures LastPeriod(calls) <= period
  {
    if calls != [] && calls[|calls| - 1].Configure? {
      LastPeriodBefore(calls[..|calls| - 1], period);
    }
  }

  lemma {:induction false} RunInv(default: int, calls: seq<Call>)
    requires Timely(calls)
    ensures Inv(Run(default, calls).store.counters, Run(default, calls).log, LastPeriod(calls))
  {
    if calls != [] {
      var init, c := calls[..|calls| - 1], calls[|calls| - 1];
      RunInv(default, init);
      if c.Reserve? {
        var t := Run(default, init);
        LastPeriodBefore(init, c.period);
        BumpKeeps(t.store.counters, t.log, c.period, Admit(c.key, c.period, c.period));
      }
    }
  }

  // ----- what the calls alone say ---------------------------------------------------------------

  /** The last quota set for the key, from 0 to 100,000,000; the default when none is set or it was
      taken away. Other quotas are refused and change nothing. */
  function QuotaSet(default: int, calls: seq<Call>, key: string): int {
    if calls == [] then default
    else
      var init, c := calls[..|calls| - 1], calls[|calls| - 1];
      if c.Reserve? || c.key != key then QuotaSet(default, init, key)
      else if c.quota == None then default
      else if 0 <= c.quota.value <= 100_000_000 then c.quota.value
      else QuotaSet(default, init, key)
  }

  /** How many calls of the key in the month find its quota off or not yet used up. */
  function Passed(default: int, calls: seq<Call>, key: string, period: int): nat {
    if calls == [] then 0
    else
      var init, c := calls[..|calls| - 1], calls[|calls| - 1];
      var before, quota := Passed(default, init, key, period), QuotaSet(default, init, key);
      if c.Reserve? && c.key == key && c.period == period && (quota == 0 || before < quota) then before + 1 else before
  }

  lemma {:induction false} QuotaIsSet(default: int, calls: seq<Call>, key: string)
    ensures QuotaOf(Run(default, calls).store, default, key) == QuotaSet(default, calls, key)
  {
    if calls != [] {
      QuotaIsSet(default, calls[..|calls| - 1], key);
    }
  }

  lemma {:induction false} PassedIsCount(default: int, calls: seq<Call>, key: string, period: int)
    requires Timely(calls)
    ensures Passed(default, calls, key, period) == Count(Run(default, calls).log, key, period)
  {
    hide QuotaOf;
    if calls != [] {
      var init, c := calls[..|calls| - 1], calls[|calls| - 1];
      PassedIsCount(default, init, key, period);
      assert calls == init + [c];
      if c.Reserve? {
        UsageIsAdmitted(default, init, c.key, c.period);
        CountSnoc(Run(default, init).log, Admit(c.key, c.period, c.period), key, period);
      }
    }
  }

  /** Every answer, and the usage shown, from the calls before it. */
  lemma DecisionIs(default: int, calls: seq<Call>, key: string, period: int)
    requires Timely(calls + [Reserve(key, period)])
    ensures var passed, quota := Passed(default, calls, key, period), QuotaSet(default, calls, key);
            && Current(Run(default, calls).store.counters, key, period) == passed
            && Decide(Run(default, calls).store, default, key, period) ==
               if quota == 0 then Decision(true, true, 0, passed + 1, 0, period)
               else if passed < quota then Decision(true, false, quota, passed + 1, quota - passed - 1, period)
               else Decision(false, false, quota, passed, 0, period)
  {
    UsageIsAdmitted(default, calls, key, period);
    assert Timely(calls) by {
      assert forall i :: 0 <= i < |calls| ==> calls[i] == (calls + [Reserve(key, period)])[i];
    }
    PassedIsCount(default, calls, key, period);
    QuotaIsSet(default, calls, key);
  }

  /** Which quotas are accepted, and what then holds. */
  lemma ConfigureIs(default: int, calls: seq<Call>, key: string, quota: Option<int>)
    ensures var r := SetQuota(Run(default, calls).store, key, quota);
            && (r.Ok? <==> quota == None || 0 <= quota.value <= 100_000_000)
            && (r.Ok? ==> forall k :: QuotaOf(r.value, default, k) == if k != key then QuotaSet(default, calls, k)
                                      else if quota == None then default else quota.value)
  {
    hide Run;
    forall k: string ensures QuotaOf(Run(default, calls).store, default, k) == QuotaSet(default, calls, k) {
      QuotaIsSet(default, calls, k);
    }
  }

  /** Whatever quotas are set meanwhile, usage is the number of calls admitted this month, and the
      next call is admitted exactly when the quota is off or not yet used up. */
  lemma {:induction false} UsageIsAdmitted(default: int, calls: seq<Call>, key: string, period: int)
    requires Timely(calls + [Reserve(key, period)])
    ensures var t := Run(default, calls);
            var admitted, quota := Count(t.log, key, period), QuotaSet(default, calls, key);
            var d := Decide(t.store, default, key, period);
            && Current(t.store.counters, key, period) == admitted
            && (d.allowed <==> quota == 0 || admitted < quota)
            && d.used == admitted + (if d.allowed then 1 else 0)
  {
    var all := calls + [Reserve(key, period)];
    assert all[|calls|] == Reserve(key, period);
    assert forall i :: 0 <= i < |calls| ==> calls[i] == all[i];
    RunInv(default, calls);
    LastPeriodBefore(calls, period);
    QuotaIsSet(default, calls, key);
    var t := Run(default, calls);
    CurrentIsCount(t.store.counters, t.log, LastPeriod(calls), key, period);
  }

  /** No key is ever admitted more often in a month than the largest positive quota it had. */
  lemma {:induction false} MonthlyBound(default: int, calls: seq<Call>, key: string, most: int, period: int)
    requires Timely(calls)
    requires forall i :: 0 <= i <= |calls| ==> 0 < QuotaSet(default, calls[..i], key) <= most
    ensures Count(Run(default, calls).log, key, period) <= most
  {
    assert calls[..|calls|] == calls;
    if calls != [] {
      var init, c := calls[..|calls| - 1], calls[|calls| - 1];
      forall i | 0 <= i <= |init| ensures 0 < QuotaSet(default, init[..i], key) <= most {
        assert init[..i] == calls[..i];
      }
      MonthlyBound(default, init, key, most, period);
      assert calls == init + [c] && init[..|init|] == init;
      if c.Reserve? {
        UsageIsAdmitted(default, init, c.key, c.period);
        CountSnoc(Run(default, init).log, Admit(c.key, c.period, c.period), key, period);
      }
    }
  }
}
