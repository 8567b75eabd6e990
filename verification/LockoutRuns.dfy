/** The lockout store against the complete log of failures (web/lib/authLockoutStore.ts). */
module LockoutRuns {
  import opened Prelude
  import opened Lockout

  // ----- one address: the reference keeps every failure ------------------------------------

  /** What happens to one address. */
  datatype Event = Fail(now: int) | Reset

  /** Nothing is ever pruned here: all failures since the last lock or reset, and the last lock. */
  datatype Full = Full(since: seq<int>, trippedAt: Option<int>)

  /** The failures inside the window that ends at `sec`. */
  function Recent(since: seq<int>, windowSeconds: int, sec: int): seq<int> {
    if since == [] then []
    else
      var init, t := Recent(since[..|since| - 1], windowSeconds, sec), since[|since| - 1];
      if sec - t <= windowSeconds then init + [t] else init
  }

  lemma {:induction false} RecentIs(since: seq<int>, windowSeconds: int, sec: int)
    ensures PruneFailures(since, windowSeconds, sec) == Recent(since, windowSeconds, sec)
  {
    if since != [] {
      RecentIs(since[..|since| - 1], windowSeconds, sec);
    }
  }

  function FullStep(cfg: Config, f: Full, e: Event): Full {
    match e
    case Reset => Full([], None)
    case Fail(now) =>
      var since := f.since + [now / 1000];
      if |Recent(since, cfg.windowSeconds, now / 1000)| >= cfg.threshold then Full([], Some(now))
      else Full(since, f.trippedAt)
  }

  function FullRun(cfg: Config, log: seq<Event>): Full {
    if log == [] then Full([], None) else FullStep(cfg, FullRun(cfg, log[..|log| - 1]), log[|log| - 1])
  }

  function StoredStep(cfg: Config, s: IpState, e: Event): IpState {
    match e
    case Reset => Cleared(s)
    case Fail(now) => Failed(cfg, s, now)
  }

  function StoredRun(cfg: Config, log: seq<Event>): IpState {
    if log == [] then UNSEEN else StoredStep(cfg, StoredRun(cfg, log[..|log| - 1]), log[|log| - 1])
  }

  predicate Timely(log: seq<Event>) {
    forall i, j :: 0 <= i < j < |log| && log[i].Fail? && log[j].Fail? ==> log[i].now <= log[j].now
  }

  /** Second of the last failure, before which nothing was stored. */
  function LastSec(log: seq<Event>): int {
    if log == [] then 0
    else if log[|log| - 1].Fail? then log[|log| - 1].now / 1000
    else LastSec(log[..|log| - 1])
  }

  lemma {:induction false} LastSecBefore(log: seq<Event>, now: int)
    requires now >= 0 && forall i :: 0 <= i < |log| && log[i].Fail? ==> log[i].now <= now
    ensures LastSec(log) <= now / 1000
  {
    if log != [] && log[|log| - 1].Reset? {
      LastSecBefore(log[..|log| - 1], now);
    }
  }

  lemma {:induction false} RecentTwice(s: seq<int>, w: int, a: int, b: int)
    requires a <= b
    ensures Recent(Recent(s, w, a), w, b) == Recent(s, w, b)
  {
    if s != [] {
      var init, x := s[..|s| - 1], s[|s| - 1];
      RecentTwice(init, w, a, b);
      RecentSnoc(init, x, w, a);
      RecentSnoc(init, x, w, b);
      assert s == init + [x];
      if x >= a - w {
        RecentSnoc(Recent(init, w, a), x, w, b);
      }
    }
  }

  lemma {:induction false} RecentSnoc(s: seq<int>, x: int, w: int, sec: int)
    ensures Recent(s + [x], w, sec) == Recent(s, w, sec) + (if x >= sec - w then [x] else [])
  {
    assert (s + [x])[..|s|] == s;
  }

  lemma RecentEmpty(w: int, sec: int)
    ensures Recent([], w, sec) == []
  {
  }

  /** The pruned list is the unpruned one seen through the window; the lock is the last trip. */
  ghost predicate Refines(cfg: Config, s: IpState, f: Full, sec: int) {
    && s.failures == Recent(f.since, cfg.windowSeconds, sec)
    && s.lockedUntil == (if f.trippedAt.None? then None else Some(f.trippedAt.value + cfg.cooldownSeconds * 1000))
    && |s.failures| < cfg.threshold
  }

  lemma {:induction false} StepRefines(cfg: Config, s: IpState, f: Full, sec: int, now: int)
    requires ValidConfig(cfg) && Refines(cfg, s, f, sec) && sec <= now / 1000
    ensures Refines(cfg, Failed(cfg, s, now), FullStep(cfg, f, Fail(now)), now / 1000)
    ensures Failed(cfg, s, now).failures == [] <==>
              |Recent(f.since + [now / 1000], cfg.windowSeconds, now / 1000)| >= cfg.threshold
  {
    hide PruneFailures, Recent;
    var nowSec := now / 1000;
    RecentIs(s.failures, cfg.windowSeconds, nowSec);
    RecentEmpty(cfg.windowSeconds, nowSec);
    RecentTwice(f.since, cfg.windowSeconds, sec, nowSec);
    RecentSnoc(f.since, nowSec, cfg.windowSeconds, nowSec);
  }

  /** With a clock that does not run backwards, what is stored for an address is its complete
      failure history since the last lock or reset, cut to the window; it stays below the threshold;
      and the address is locked by exactly the failure that completes a threshold inside a window. */
  lemma {:induction false} StoreRefinesLog(cfg: Config, log: seq<Event>)
    requires ValidConfig(cfg) && Timely(log)
    requires forall i :: 0 <= i < |log| && log[i].Fail? ==> log[i].now >= 0
    ensures Refines(cfg, StoredRun(cfg, log), FullRun(cfg, log), LastSec(log))
  {
    if log != [] {
      var init, e := log[..|log| - 1], log[|log| - 1];
      StoreRefinesLog(cfg, init);
      if e.Fail? {
        LastSecBefore(init, e.now);
        StepRefines(cfg, StoredRun(cfg, init), FullRun(cfg, init), LastSec(init), e.now);
      }
    }
  }

  // ----- what is shown of an address -------------------------------------------------------------

  /** The times of its failures, resets or not. */
  function FailureTimes(log: seq<Event>): seq<int> {
    if log == [] then []
    else
      var init, e := FailureTimes(log[..|log| - 1]), log[|log| - 1];
      if e.Fail? then init + [e.now] else init
  }

  /** Total, first and last failure count every failure; a reset or a lock does not touch them. */
  lemma {:induction false} StatsAre(cfg: Config, log: seq<Event>)
    ensures var s, times := StoredRun(cfg, log), FailureTimes(log);
            && s.totalFailures == |times|
            && s.firstFailureAt == (if times == [] then None else Some(times[0]))
            && s.lastFailureAt == (if times == [] then None else Some(times[|times| - 1]))
  {
    hide PruneFailures;
    if log != [] {
      StatsAre(cfg, log[..|log| - 1]);
    }
  }

  /** Absent settings mean 10 failures in 300 seconds and 900 seconds of cooldown; others are moved to
      the nearest allowed value. */
  lemma ConfigIs(threshold: Option<int>, window: Option<int>, cooldown: Option<int>, enabled: bool)
    ensures var c := ValidateConfig(threshold, window, cooldown, enabled);
            && c.enabled == enabled
            && Nearest(c.threshold, if threshold == None then 10 else threshold.value, 1, 1000)
            && Nearest(c.windowSeconds, if window == None then 300 else window.value, 10, 86400)
            && Nearest(c.cooldownSeconds, if cooldown == None then 900 else cooldown.value, 30, 86400)
  {
  }

  predicate Nearest(x: int, asked: int, lo: int, hi: int) {
    if asked < lo then x == lo else if asked > hi then x == hi else x == asked
  }

  /** Switched off, or without an address, nothing is recorded and nobody is refused. */
  lemma OffIsFree(cfg: Config, t: Table, ip: string, now: int)
    requires ValidTable(t) && (ip == "" || !cfg.enabled)
    ensures Apply(cfg, t, Failure(ip, now)) == t && Decide(cfg, t, ip, now) == Free
  {
  }

  // ----- the decision --------------------------------------------------------------------------

  /** The address is refused exactly while the cooldown after the last lock `f` runs; the advised wait
      is at least a second, never longer than the cooldown, and ends in the second in which the
      address is free again. */
  predicate RefusedInCooldown(cfg: Config, t: Table, ip: string, f: Full, now: int) {
    var d, length := Decide(cfg, t, ip, now), cfg.cooldownSeconds;
    && (d.Locked? <==> f.trippedAt.Some? && now < f.trippedAt.value + length * 1000)
    && (d.Locked? && f.trippedAt.value <= now ==>
          && d.until == f.trippedAt.value + length * 1000
          && 1 <= d.retryAfterSeconds <= length
          && Decide(cfg, t, ip, now + d.retryAfterSeconds * 1000) == Free
          && Decide(cfg, t, ip, now + (d.retryAfterSeconds - 1) * 1000).Locked?)
  }

  lemma StoredDecides(cfg: Config, t: Table, ip: string, f: Full, sec: int, now: int)
    requires ValidConfig(cfg) && cfg.enabled && ip != "" && ip in t.ips && Refines(cfg, t.ips[ip], f, sec)
    ensures RefusedInCooldown(cfg, t, ip, f, now)
  {
    var d := Decide(cfg, t, ip, now);
    if d.Locked? {
      assert d.retryAfterSeconds == (d.until - now + 999) / 1000;
      assert now + (d.retryAfterSeconds - 1) * 1000 < d.until <= now + d.retryAfterSeconds * 1000;
    }
  }

  // ----- the whole table -----------------------------------------------------------------------

  function Run(cfg: Config, calls: seq<Call>): (t: Table)
    ensures ValidTable(t)
    ensures |t.keys| <= 10_000
  {
    if calls == [] then Table([], map[])
    else
      var t := Run(cfg, calls[..|calls| - 1]);
      ApplyValid(cfg, t, calls[|calls| - 1]);
      Apply(cfg, t, calls[|calls| - 1])
  }

  /** Every call keeps the table well formed and within its bound. */
  lemma {:induction false} ApplyValid(cfg: Config, t: Table, c: Call)
    requires ValidTable(t) && |t.keys| <= 10_000
    ensures ValidTable(Apply(cfg, t, c)) && |Apply(cfg, t, c).keys| <= 10_000
  {
    if c.Failure? && c.ip !in t.ips && |t.keys| >= 10_000 {
      EvictValid(t, OldestKey(t.keys, t.ips));
    }
  }

  function CallIp(c: Call): string {
    c.ip
  }

  /** The addresses that fail in a run. */
  function Failing(calls: seq<Call>): set<string> {
    set c | c in calls && c.Failure? :: CallIp(c)
  }

  /** What a run does to one address; resets of an address that never failed do nothing. */
  function Project(calls: seq<Call>, ip: string): seq<Event> {
    if calls == [] then [] else Projected(Project(calls[..|calls| - 1], ip), calls[|calls| - 1], ip)
  }

  function Projected(log: seq<Event>, c: Call, ip: string): seq<Event> {
    if CallIp(c) != ip then log
    else if c.Failure? then log + [Fail(c.now)]
    else if log == [] then log
    else log + [Reset]
  }

  lemma {:induction false} FailingGrows(calls: seq<Call>)
    requires calls != []
    ensures var init, c := calls[..|calls| - 1], calls[|calls| - 1];
            Failing(calls) == Failing(init) + if c.Failure? then {CallIp(c)} else {}
  {
    var init, c := calls[..|calls| - 1], calls[|calls| - 1];
    assert calls == init + [c];
    assert c in calls;
    forall x | x in Failing(init) ensures x in Failing(calls) {
      var y :| y in init && y.Failure? && CallIp(y) == x;
      assert y in calls;
    }
  }

  lemma {:induction false} KeysFailed(cfg: Config, calls: seq<Call>)
    ensures forall k :: k in Run(cfg, calls).keys ==> k in Failing(calls)
  {
    if calls != [] {
      KeysFailed(cfg, calls[..|calls| - 1]);
      FailingGrows(calls);
    }
  }

  lemma {:induction false} DistinctCount(keys: seq<string>, bound: set<string>)
    requires forall i, j :: 0 <= i < j < |keys| ==> keys[i] != keys[j]
    requires forall k :: k in keys ==> k in bound
    ensures |keys| <= |bound|
  {
    if keys != [] {
      var last := keys[|keys| - 1];
      DistinctCount(keys[..|keys| - 1], bound - {last});
    }
  }

  /** Nothing is evicted as long as at most 10,000 addresses have failed. */
  lemma {:induction false} NoEviction(cfg: Config, calls: seq<Call>)
    requires calls != [] && |Failing(calls)| <= 10_000
    requires calls[|calls| - 1].Failure?
    ensures var t, ip := Run(cfg, calls[..|calls| - 1]), calls[|calls| - 1].ip; MakeRoom(t, ip) == t
  {
    var init, ip := calls[..|calls| - 1], calls[|calls| - 1].ip;
    var t := Run(cfg, init);
    KeysFailed(cfg, init);
    FailingGrows(calls);
    if ip !in t.ips {
      DistinctCount(t.keys, Failing(calls) - {ip});
    }
  }

  lemma StoredSnoc(cfg: Config, log: seq<Event>, e: Event)
    ensures StoredRun(cfg, log + [e]) == StoredStep(cfg, StoredRun(cfg, log), e)
  {
    hide StoredStep;
    assert (log + [e])[..|log|] == log;
  }

  lemma StepIndependent(cfg: Config, t: Table, c: Call, log: seq<Event>, ip: string)
    requires ValidTable(t) && cfg.enabled && ip != ""
    requires c.Failure? ==> MakeRoom(t, c.ip) == t
    requires (ip in t.ips <==> log != []) && Get(t, ip) == StoredRun(cfg, log)
    ensures ip in Apply(cfg, t, c).ips <==> Projected(log, c, ip) != []
    ensures Get(Apply(cfg, t, c), ip) == StoredRun(cfg, Projected(log, c, ip))
  {
    hide PruneFailures, MakeRoom, StoredRun;
    if c.Failure? {
      StoredSnoc(cfg, log, Fail(c.now));
    } else {
      StoredSnoc(cfg, log, Reset);
    }
  }

  /** The call makes room by dropping this address. */
  predicate Evicts(t: Table, c: Call, ip: string)
    requires forall x :: x in t.keys ==> x in t.ips
  {
    c.Failure? && c.ip != "" && ip in t.ips && ip !in MakeRoom(t, c.ip).ips
  }

  /** What a run does to one address since it was last evicted. */
  function Since(cfg: Config, calls: seq<Call>, ip: string): seq<Event> {
    if calls == [] then []
    else
      var init, c := calls[..|calls| - 1], calls[|calls| - 1];
      Projected(if Evicts(Run(cfg, init), c, ip) then [] else Since(cfg, init, ip), c, ip)
  }

  lemma RoomMade(t: Table, other: string)
    requires ValidTable(t) && |t.keys| <= 10_000
    ensures ValidTable(MakeRoom(t, other)) && MakeRoom(MakeRoom(t, other), other) == MakeRoom(t, other)
    ensures forall ip :: ip in MakeRoom(t, other).ips ==> ip in t.ips && MakeRoom(t, other).ips[ip] == t.ips[ip]
    ensures other in t.ips ==> MakeRoom(t, other) == t
  {
    if other !in t.ips && |t.keys| >= 10_000 {
      EvictValid(t, OldestKey(t.keys, t.ips));
    }
  }

  lemma ApplyToRoom(cfg: Config, t: Table, c: Call)
    requires ValidTable(t) && |t.keys| <= 10_000 && c.Failure?
    ensures ValidTable(MakeRoom(t, c.ip))
    ensures cfg.enabled && c.ip != "" ==> Apply(cfg, t, c) == Apply(cfg, MakeRoom(t, c.ip), c)
  {
    RoomMade(t, c.ip);
    hide MakeRoom, Failed;
  }

  lemma StepSince(cfg: Config, t: Table, c: Call, log: seq<Event>, ip: string)
    requires ValidTable(t) && |t.keys| <= 10_000 && cfg.enabled && ip != ""
    requires (ip in t.ips <==> log != []) && Get(t, ip) == StoredRun(cfg, log)
    ensures var now := Projected(if Evicts(t, c, ip) then [] else log, c, ip);
            && (ip in Apply(cfg, t, c).ips <==> now != [])
            && Get(Apply(cfg, t, c), ip) == StoredRun(cfg, now)
  {
    if c.Failure? && c.ip != "" {
      var room := MakeRoom(t, c.ip);
      RoomMade(t, c.ip);
      ApplyToRoom(cfg, t, c);
      hide Apply, MakeRoom, ValidTable, Projected;
      StepIndependent(cfg, room, c, if Evicts(t, c, ip) then [] else log, ip);
    } else if c.Clear? {
      hide MakeRoom;
      StepIndependent(cfg, t, c, log, ip);
    }
  }

  /** In every run, evictions or not, the table holds for each address exactly what its own history
      since its last eviction makes of it, whatever the other addresses do. */
  lemma {:induction false} HistorySinceEviction(cfg: Config, calls: seq<Call>, ip: string)
    requires cfg.enabled && ip != ""
    ensures var t, log := Run(cfg, calls), Since(cfg, calls, ip);
            && (ip in t.ips <==> log != [])
            && Get(t, ip) == StoredRun(cfg, log)
  {
    hide Apply, MakeRoom, Projected, Get, Evicts;
    if calls == [] {
      NothingStored(cfg, ip);
    } else {
      hide StoredRun;
      var init := calls[..|calls| - 1];
      HistorySinceEviction(cfg, init, ip);
      StepSince(cfg, Run(cfg, init), calls[|calls| - 1], Since(cfg, init, ip), ip);
    }
  }

  lemma NothingStored(cfg: Config, ip: string)
    ensures Get(Table([], map[]), ip) == StoredRun(cfg, [])
  {
  }

  /** No call of the run evicts the address. */
  ghost predicate NeverEvicted(cfg: Config, calls: seq<Call>, ip: string) {
    forall i :: 0 <= i < |calls| ==> !Evicts(Run(cfg, calls[..i]), calls[i], ip)
  }

  lemma {:induction false} SinceIsProject(cfg: Config, calls: seq<Call>, ip: string)
    requires NeverEvicted(cfg, calls, ip)
    ensures Since(cfg, calls, ip) == Project(calls, ip)
  {
    hide Run, Projected, Evicts;
    if calls != [] {
      var init := calls[..|calls| - 1];
      forall i | 0 <= i < |init| ensures !Evicts(Run(cfg, init[..i]), init[i], ip) {
        assert init[..i] == calls[..i];
      }
      SinceIsProject(cfg, init, ip);
    }
  }

  lemma FewFail(cfg: Config, calls: seq<Call>, ip: string)
    requires |Failing(calls)| <= 10_000
    ensures NeverEvicted(cfg, calls, ip)
  {
    hide MakeRoom, Run, Failing;
    forall i | 0 <= i < |calls| ensures !Evicts(Run(cfg, calls[..i]), calls[i], ip) {
      var part := calls[..i + 1];
      FailingOfPart(calls, i + 1);
      assert part[..|part| - 1] == calls[..i] && part[|part| - 1] == calls[i];
      if calls[i].Failure? {
        NoEviction(cfg, part);
      }
    }
  }

  lemma FailingOfPart(calls: seq<Call>, n: nat)
    requires n <= |calls|
    ensures |Failing(calls[..n])| <= |Failing(calls)|
  {
    assert forall c :: c in calls[..n] ==> c in calls;
    assert Failing(calls) == Failing(calls[..n]) + (Failing(calls) - Failing(calls[..n]));
  }

  /** As long as it is not evicted, and never while at most 10,000 addresses have failed, an address
      has the state that its complete history makes. */
  lemma AddressesAreIndependent(cfg: Config, calls: seq<Call>, ip: string)
    requires cfg.enabled && ip != ""
    ensures |Failing(calls)| <= 10_000 ==> NeverEvicted(cfg, calls, ip)
    ensures NeverEvicted(cfg, calls, ip) ==>
              (ip in Run(cfg, calls).ips <==> Project(calls, ip) != []) &&
              Get(Run(cfg, calls), ip) == StoredRun(cfg, Project(calls, ip))
  {
    hide Run, Project, Since, Failing, NeverEvicted, StoredRun, Get;
    HistorySinceEviction(cfg, calls, ip);
    if |Failing(calls)| <= 10_000 {
      FewFail(cfg, calls, ip);
    }
    if NeverEvicted(cfg, calls, ip) {
      SinceIsProject(cfg, calls, ip);
    }
  }

  /** The clock of the calls starts at 0 and does not run backwards. */
  predicate OnClock(calls: seq<Call>) {
    && (forall i :: 0 <= i < |calls| && calls[i].Failure? ==> calls[i].now >= 0)
    && (forall i, j :: 0 <= i < j < |calls| && calls[i].Failure? && calls[j].Failure? ==> calls[i].now <= calls[j].now)
  }

  lemma {:induction false} SinceTimes(cfg: Config, calls: seq<Call>, ip: string, lo: int, hi: int)
    requires forall i :: 0 <= i < |calls| && calls[i].Failure? ==> lo <= calls[i].now <= hi
    ensures forall e :: e in Since(cfg, calls, ip) && e.Fail? ==> lo <= e.now <= hi
  {
    hide Run, Evicts;
    if calls != [] {
      SinceTimes(cfg, calls[..|calls| - 1], ip, lo, hi);
    }
  }

  lemma {:induction false} SinceTimely(cfg: Config, calls: seq<Call>, ip: string)
    requires OnClock(calls)
    ensures Timely(Since(cfg, calls, ip))
    ensures forall e :: e in Since(cfg, calls, ip) && e.Fail? ==> e.now >= 0
  {
    hide Run, Evicts;
    if calls != [] {
      var init, c := calls[..|calls| - 1], calls[|calls| - 1];
      SinceTimely(cfg, init, ip);
      if c.Failure? {
        SinceTimes(cfg, init, ip, 0, c.now);
      }
      var before := Since(cfg, init, ip);
      assert forall i :: 0 <= i < |before| ==> before[i] in before;
    }
  }

  /** In every run on a clock that does not run backwards an address is refused exactly while the
      cooldown after its last lock runs, unless it was reset or evicted since. */
  lemma RefusedExactlyDuringCooldown(cfg: Config, calls: seq<Call>, ip: string, now: int)
    requires ValidConfig(cfg) && cfg.enabled && ip != "" && OnClock(calls)
    ensures RefusedInCooldown(cfg, Run(cfg, calls), ip, FullRun(cfg, Since(cfg, calls, ip)), now)
  {
    hide Run, Since, OnClock, RefusedInCooldown, Refines, Timely, FullRun, StoredRun;
    var t, log := Run(cfg, calls), Since(cfg, calls, ip);
    HistorySinceEviction(cfg, calls, ip);
    SinceTimely(cfg, calls, ip);
    assert forall i :: 0 <= i < |log| && log[i].Fail? ==> log[i] in log && log[i].now >= 0;
    StoreRefinesLog(cfg, log);
    if ip in t.ips {
      StoredDecides(cfg, t, ip, FullRun(cfg, log), LastSec(log), now);
    } else {
      UnseenDecides(cfg, t, ip, now);
    }
  }

  /** So, as long as it is not evicted, by its complete history. */
  lemma RefusedByOwnHistory(cfg: Config, calls: seq<Call>, ip: string, now: int)
    requires ValidConfig(cfg) && cfg.enabled && ip != "" && OnClock(calls)
    requires NeverEvicted(cfg, calls, ip)
    ensures RefusedInCooldown(cfg, Run(cfg, calls), ip, FullRun(cfg, Project(calls, ip)), now)
  {
    hide Run, Since, OnClock, RefusedInCooldown, FullRun, NeverEvicted, Project;
    RefusedExactlyDuringCooldown(cfg, calls, ip, now);
    SinceIsProject(cfg, calls, ip);
  }

  lemma UnseenDecides(cfg: Config, t: Table, ip: string, now: int)
    requires ip !in t.ips
    ensures RefusedInCooldown(cfg, t, ip, FullRun(cfg, []), now)
  {
  }

  /** Every address added before it failed more recently. */
  ghost predicate FirstOldest(keys: seq<string>, ips: map<string, IpState>, victim: string, i: nat)
    requires victim in ips && forall x :: x in keys ==> x in ips
  {
    i < |keys| && keys[i] == victim &&
    forall j :: 0 <= j < i ==> LastSeen(ips[victim]) < LastSeen(ips[keys[j]])
  }

  lemma FirstOldestGrows(init: seq<string>, x: string, ips: map<string, IpState>, victim: string, i: nat)
    requires victim in ips && x in ips && forall k :: k in init ==> k in ips
    requires FirstOldest(init, ips, victim, i)
    ensures FirstOldest(init + [x], ips, victim, i)
  {
    hide LastSeen;
    assert forall j :: 0 <= j < |init| ==> (init + [x])[j] == init[j];
  }

  lemma LastIsOldest(init: seq<string>, x: string, ips: map<string, IpState>)
    requires x in ips && forall k :: k in init ==> k in ips
    requires forall k :: k in init ==> LastSeen(ips[x]) < LastSeen(ips[k])
    ensures FirstOldest(init + [x], ips, x, |init|)
  {
    hide LastSeen;
    forall j | 0 <= j < |init| ensures LastSeen(ips[x]) < LastSeen(ips[(init + [x])[j]]) {
      assert (init + [x])[j] == init[j] && init[j] in init;
    }
  }

  lemma OldestStep(init: seq<string>, x: string, ips: map<string, IpState>, i: nat)
    requires init != [] && x in ips && forall k :: k in init ==> k in ips
    requires FirstOldest(init, ips, OldestKey(init, ips), i)
    ensures exists k: nat :: FirstOldest(init + [x], ips, OldestKey(init + [x], ips), k)
  {
    hide LastSeen, OldestKey, FirstOldest;
    OldestSnoc(init, x, ips);
    if LastSeen(ips[x]) < LastSeen(ips[OldestKey(init, ips)]) {
      LastIsOldest(init, x, ips);
    } else {
      FirstOldestGrows(init, x, ips, OldestKey(init, ips), i);
    }
  }

  lemma {:induction false} OldestIsFirst(keys: seq<string>, ips: map<string, IpState>)
    requires keys != [] && forall x :: x in keys ==> x in ips
    ensures exists i: nat :: FirstOldest(keys, ips, OldestKey(keys, ips), i)
  {
    if |keys| == 1 {
      assert FirstOldest(keys, ips, OldestKey(keys, ips), 0);
    } else {
      hide OldestKey;
      var init := keys[..|keys| - 1];
      OldestIsFirst(init, ips);
      var i: nat :| FirstOldest(init, ips, OldestKey(init, ips), i);
      hide FirstOldest;
      assert keys == init + [keys[|keys| - 1]];
      OldestStep(init, keys[|keys| - 1], ips, i);
    }
  }

  /** When the table is full, the address that makes room is one whose last failure is oldest. */
  lemma VictimIsOldest(t: Table, ip: string, kept: string)
    requires ValidTable(t) && |t.keys| >= 10_000 && ip !in t.ips
    ensures var victim := OldestKey(t.keys, t.ips);
            && victim in t.ips && victim !in MakeRoom(t, ip).ips
            && (kept in t.ips && kept != victim ==>
                  kept in MakeRoom(t, ip).ips && MakeRoom(t, ip).ips[kept] == t.ips[kept] &&
                  LastSeen(t.ips[victim]) <= LastSeen(t.ips[kept]))
            && exists i: nat :: FirstOldest(t.keys, t.ips, victim, i)
  {
    OldestIsFirst(t.keys, t.ips);
  }

  // ----- eviction ends a lock ------------------------------------------------------------------

  function Name(n: nat): (s: string)
    ensures |s| == n
  {
    if n == 0 then "" else Name(n - 1) + "x"
  }

  /** `n` addresses fail once each, the first one a millisecond before the others. */
  function Crowd(n: nat): seq<Call> {
    if n == 0 then [] else Crowd(n - 1) + [Failure(Name(n), if n == 1 then 0 else 1)]
  }

  /** The first address stands locked at time 0 in front of others that failed at time 1. */
  ghost predicate Crowded(cfg: Config, t: Table, n: nat) {
    && ValidTable(t) && |t.keys| == n >= 1
    && (forall i :: 0 <= i < n ==> |t.keys[i]| == i + 1)
    && Name(1) in t.ips && t.ips[Name(1)].lastFailureAt == Some(0)
    && t.ips[Name(1)].lockedUntil == Some(cfg.cooldownSeconds * 1000)
    && (forall k :: k in t.keys && k != Name(1) ==> t.ips[k].lastFailureAt == Some(1))
  }

  lemma FirstFails(cfg: Config, t: Table)
    requires cfg.enabled && cfg.threshold == 1 && t == Table([], map[])
    ensures Crowded(cfg, Apply(cfg, t, Failure(Name(1), 0)), 1)
  {
    hide PruneFailures;
    assert |Name(1)| == 1;
  }

  lemma NextFails(cfg: Config, t: Table, n: nat)
    requires cfg.enabled && Crowded(cfg, t, n) && n < 10_000
    ensures Crowded(cfg, Apply(cfg, t, Failure(Name(n + 1), 1)), n + 1)
  {
    hide PruneFailures, Name;
    var k := Name(n + 1);
    assert forall i :: 0 <= i < n ==> |t.keys[i]| != |k|;
    ApplyValid(cfg, t, Failure(k, 1));
  }

  lemma CrowdStart(cfg: Config)
    requires cfg.enabled && cfg.threshold == 1
    ensures Crowded(cfg, Run(cfg, Crowd(1)), 1)
  {
    hide Apply, Crowded, Name;
    FirstFails(cfg, Table([], map[]));
    var calls := Crowd(1);
    assert Crowd(0) == [] && calls[..0] == [] && calls[0] == Failure(Name(1), 0);
    assert Run(cfg, []) == Table([], map[]);
  }

  lemma {:induction false} CrowdTable(cfg: Config, n: nat)
    requires cfg.enabled && cfg.threshold == 1 && 1 <= n <= 10_000
    ensures Crowded(cfg, Run(cfg, Crowd(n)), n)
  {
    hide Apply, Crowded, Name, Run, Crowd;
    if n == 1 {
      CrowdStart(cfg);
    } else {
      CrowdTable(cfg, n - 1);
      NextFails(cfg, Run(cfg, Crowd(n - 1)), n - 1);
      CrowdStep(cfg, n - 1);
    }
  }

  lemma {:induction false} CrowdLength(n: nat)
    ensures |Crowd(n)| == n
  {
    if n > 0 {
      CrowdLength(n - 1);
    }
  }

  lemma FirstIsOldest(cfg: Config, t: Table, n: nat)
    requires Crowded(cfg, t, n)
    ensures OldestKey(t.keys, t.ips) == Name(1)
  {
    hide OldestKey;
    var k := OldestKey(t.keys, t.ips);
    assert LastSeen(t.ips[k]) <= LastSeen(t.ips[Name(1)]) == 0;
  }

  lemma CrowdedOut(cfg: Config, t: Table)
    requires cfg.enabled && Crowded(cfg, t, 10_000)
    ensures Name(1) !in Apply(cfg, t, Failure(Name(10_000 + 1), 1)).ips
  {
    hide PruneFailures, Name, OldestKey, LastSeen;
    FirstIsOldest(cfg, t, 10_000);
    var k := Name(10_000 + 1);
    assert forall i :: 0 <= i < |t.keys| ==> |t.keys[i]| != |k|;
    assert k != Name(1);
  }

  /** An address that is locked records no further failure, so it becomes the oldest: when 10,000 others
      fail after it, it is evicted and free again although its cooldown has hardly begun. */
  lemma EvictedWhileLocked(cfg: Config)
    requires ValidConfig(cfg) && cfg.enabled && cfg.threshold == 1
    ensures Decide(cfg, Run(cfg, Crowd(10_000)), Name(1), 1).Locked?
    ensures Decide(cfg, Run(cfg, Crowd(10_000 + 1)), Name(1), 1) == Free
    ensures OnClock(Crowd(10_000 + 1))
  {
    hide Apply, Name, Run;
    var n := 10_000;
    CrowdTable(cfg, n);
    CrowdedOut(cfg, Run(cfg, Crowd(n)));
    CrowdStep(cfg, n);
    CrowdOnClock(n + 1);
  }

  lemma CrowdStep(cfg: Config, n: nat)
    requires n >= 1
    ensures ValidTable(Run(cfg, Crowd(n)))
    ensures Run(cfg, Crowd(n + 1)) == Apply(cfg, Run(cfg, Crowd(n)), Failure(Name(n + 1), 1))
  {
    hide Apply, Name;
    CrowdLength(n + 1);
    var calls := Crowd(n + 1);
    assert calls[..n] == Crowd(n) && calls[n] == Failure(Name(n + 1), 1) by {
      CrowdLength(n);
    }
  }

  lemma {:induction false} CrowdOnClock(n: nat)
    ensures |Crowd(n)| == n
    ensures forall i :: 0 <= i < n ==> Crowd(n)[i].Failure? && Crowd(n)[i].now == if i == 0 then 0 else 1
  {
    hide Name;
    if n > 0 {
      CrowdOnClock(n - 1);
    }
  }
}
