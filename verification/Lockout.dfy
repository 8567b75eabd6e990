/** Brute-force lockout per source address (web/lib/authLockoutStore.ts). */
module Lockout {
  import opened Prelude
  import opened Sorting

  const MAX_TRACKED_IPS := 10_000

  datatype Config = Config(threshold: int, windowSeconds: int, cooldownSeconds: int, enabled: bool)

  function Clamp(lo: int, hi: int, v: int): int {
    Max(lo, Min(hi, v))
  }

  /** Out-of-range settings are pulled into range; absent ones take their defaults. */
  function ValidateConfig(
    threshold: Option<int>, window: Option<int>, cooldown: Option<int>, enabled: bool): (c: Config)
    ensures ValidConfig(c)
    ensures threshold.Some? && 1 <= threshold.value <= 1000 ==> c.threshold == threshold.value
    ensures window.Some? && 10 <= window.value <= 86400 ==> c.windowSeconds == window.value
    ensures cooldown.Some? && 30 <= cooldown.value <= 86400 ==> c.cooldownSeconds == cooldown.value
  {
    Config(
      Clamp(1, 1000, if threshold.None? then 10 else threshold.value),
      Clamp(10, 86400, if window.None? then 300 else window.value),
      Clamp(30, 86400, if cooldown.None? then 900 else cooldown.value),
      enabled)
  }

  predicate ValidConfig(c: Config) {
    1 <= c.threshold <= 1000 && 10 <= c.windowSeconds <= 86400 && 30 <= c.cooldownSeconds <= 86400
  }

  /** Times are milliseconds; `failures` are seconds. */
  datatype IpState = IpState(
    failures: seq<int>,
    lockedUntil: Option<int>,
    firstFailureAt: Option<int>,
    lastFailureAt: Option<int>,
    totalFailures: nat)

  const UNSEEN := IpState([], None, None, None, 0)

  function PruneFailures(failures: seq<int>, windowSeconds: int, nowSec: int): seq<int> {
    Filter(failures, (t: int) => t >= nowSec - windowSeconds)
  }

  /** One more failure of an address. */
  function Failed(cfg: Config, s: IpState, now: int): IpState {
    var nowSec := now / 1000;
    var failures := PruneFailures(s.failures, cfg.windowSeconds, nowSec) + [nowSec];
    var trips := |failures| >= cfg.threshold;
    IpState(
      if trips then [] else failures,
      if trips then Some(now + cfg.cooldownSeconds * 1000) else s.lockedUntil,
      if s.firstFailureAt.None? then Some(now) else s.firstFailureAt,
      Some(now),
      s.totalFailures + 1)
  }

  function Cleared(s: IpState): IpState {
    s.(failures := [], lockedUntil := None)
  }

  // ----- the table ---------------------------------------------------------------------

  /** The tracked addresses, in the order in which they were added, and their states. */
  datatype Table = Table(keys: seq<string>, ips: map<string, IpState>)

  ghost predicate ValidTable(t: Table) {
    && (forall i, j :: 0 <= i < j < |t.keys| ==> t.keys[i] != t.keys[j])
    && (forall k :: k in t.keys <==> k in t.ips)
  }

  function LastSeen(s: IpState): int {
    if s.lastFailureAt.Some? then s.lastFailureAt.value else 0
  }

  /** The first key whose last failure is oldest. */
  function OldestKey(keys: seq<string>, ips: map<string, IpState>): (k: string)
    requires keys != [] && forall x :: x in keys ==> x in ips
    ensures k in keys
    ensures forall x :: x in keys ==> LastSeen(ips[k]) <= LastSeen(ips[x])
  {
    var last := keys[|keys| - 1];
    if |keys| == 1 then last
    else
      var k := OldestKey(keys[..|keys| - 1], ips);
      assert forall x :: x in keys ==> x in keys[..|keys| - 1] || x == last;
      if LastSeen(ips[last]) < LastSeen(ips[k]) then last else k
  }

  lemma OldestOfOne(k: string, ips: map<string, IpState>)
    requires k in ips
    ensures OldestKey([k], ips) == k
  {
  }

  lemma OldestSnoc(keys: seq<string>, x: string, ips: map<string, IpState>)
    requires keys != [] && x in ips && forall k :: k in keys ==> k in ips
    ensures var k := OldestKey(keys, ips);
            OldestKey(keys + [x], ips) == if LastSeen(ips[x]) < LastSeen(ips[k]) then x else k
  {
    hide LastSeen;
    assert (keys + [x])[..|keys|] == keys;
  }

  function Evict(t: Table, victim: string): Table {
    Table(Filter(t.keys, (k: string) => k != victim), t.ips - {victim})
  }

  /** Makes room for an address that is not tracked yet. */
  function MakeRoom(t: Table, ip: string): Table
    requires forall x :: x in t.keys ==> x in t.ips
  {
    if ip !in t.ips && |t.keys| >= MAX_TRACKED_IPS then Evict(t, OldestKey(t.keys, t.ips)) else t
  }

  function Get(t: Table, ip: string): IpState {
    if ip in t.ips then t.ips[ip] else UNSEEN
  }

  function Put(t: Table, ip: string, s: IpState): Table {
    Table(if ip in t.ips then t.keys else t.keys + [ip], t.ips[ip := s])
  }

  function Unlock(t: Table, ip: string): Table {
    if ip in t.ips then Put(t, ip, Cleared(t.ips[ip])) else t
  }

  datatype Call = Failure(ip: string, now: int) | Clear(ip: string)

  function Apply(cfg: Config, t: Table, c: Call): Table
    requires forall x :: x in t.keys ==> x in t.ips
  {
    match c
    case Failure(ip, now) =>
      if ip == "" || !cfg.enabled then t
      else
        var room := MakeRoom(t, ip);
        Put(room, ip, Failed(cfg, Get(room, ip), now))
    case Clear(ip) =>
      if ip == "" then t else Unlock(t, ip)
  }

  datatype Decision = Free | Locked(retryAfterSeconds: int, until: int)

  function Decide(cfg: Config, t: Table, ip: string, now: int): Decision {
    if ip == "" || !cfg.enabled || ip !in t.ips || t.ips[ip].lockedUntil.None? then Free
    else
      var until := t.ips[ip].lockedUntil.value;
      if until <= now then Free else Locked(Max(1, (until - now + 999) / 1000), until)
  }

  class LockoutStore {
    var keys: seq<string>
    var ips: map<string, IpState>
    var cfg: Config

    ghost predicate Valid()
      reads this
    {
      ValidTable(State())
    }

    function State(): Table
      reads this
    {
      Table(keys, ips)
    }

    constructor (threshold: Option<int>, window: Option<int>, cooldown: Option<int>, enabled: bool)
      ensures Valid() && State() == Table([], map[])
      ensures cfg == ValidateConfig(threshold, window, cooldown, enabled)
    {
      cfg := ValidateConfig(threshold, window, cooldown, enabled);
      keys, ips := [], map[];
    }

    method RecordAuthFailure(ip: string, now: int)
      requires Valid()
      modifies `keys, `ips
      ensures Valid() && State() == Apply(cfg, old(State()), Failure(ip, now))
    {
      if ip == "" || !cfg.enabled {
        return;
      }
      EvictIfFull(ip);
      CountFailure(ip, now);
    }

    method CountFailure(ip: string, now: int)
      requires Valid()
      modifies `keys, `ips
      ensures Valid() && State() == Put(old(State()), ip, Failed(cfg, Get(old(State()), ip), now))
    {
      hide PruneFailures;
      var nowSec := now / 1000;
      var cur := if ip in ips then ips[ip] else UNSEEN;
      cur := cur.(failures := PruneFailures(cur.failures, cfg.windowSeconds, nowSec) + [nowSec]);
      cur := cur.(totalFailures := cur.totalFailures + 1, lastFailureAt := Some(now));
      if cur.firstFailureAt.None? {
        cur := cur.(firstFailureAt := cur.lastFailureAt);
      }
      if |cur.failures| >= cfg.threshold {
        cur := cur.(lockedUntil := Some(now + cfg.cooldownSeconds * 1000), failures := []);
      }
      if ip !in ips {
        keys := keys + [ip];
      }
      ips := ips[ip := cur];
    }

    method EvictIfFull(ip: string)
      requires Valid()
      modifies `keys, `ips
      ensures Valid() && State() == MakeRoom(old(State()), ip)
    {
      if ip !in ips && |keys| >= MAX_TRACKED_IPS {
        var oldest := FindOldest(keys, ips);
        EvictValid(State(), oldest);
        keys := Filter(keys, (k: string) => k != oldest);
        ips := ips - {oldest};
      }
    }

    method ClearAuthFailures(ip: string)
      requires Valid()
      modifies `ips
      ensures Valid() && State() == Apply(cfg, old(State()), Clear(ip))
    {
      if ip == "" || ip !in ips {
        return;
      }
      ips := ips[ip := ips[ip].(failures := [], lockedUntil := None)];
    }

    method UnlockIp(ip: string) returns (found: bool)
      requires Valid()
      modifies `ips
      ensures Valid() && State() == Unlock(old(State()), ip)
      ensures found <==> ip in old(ips)
    {
      if ip !in ips {
        return false;
      }
      ips := ips[ip := ips[ip].(failures := [], lockedUntil := None)];
      found := true;
    }

    method DecideLockout(ip: string, now: int) returns (d: Decision)
      ensures d == Decide(cfg, State(), ip, now)
    {
      if ip == "" || !cfg.enabled || ip !in ips || ips[ip].lockedUntil.None? {
        return Free;
      }
      var until := ips[ip].lockedUntil.value;
      if until <= now {
        return Free;
      }
      d := Locked(Max(1, (until - now + 999) / 1000), until);
    }
  }

  method FindOldest(keys: seq<string>, ips: map<string, IpState>) returns (oldest: string)
    requires keys != [] && forall x :: x in keys ==> x in ips
    ensures oldest == OldestKey(keys, ips)
  {
    hide LastSeen, OldestKey;
    oldest := keys[0];
    OldestOfOne(keys[0], ips);
    assert keys[..1] == [keys[0]];
    for i := 1 to |keys|
      invariant oldest == OldestKey(keys[..i], ips)
    {
      OldestSnoc(keys[..i], keys[i], ips);
      assert keys[..i + 1] == keys[..i] + [keys[i]];
      if LastSeen(ips[keys[i]]) < LastSeen(ips[oldest]) {
        oldest := keys[i];
      }
    }
    assert keys[..|keys|] == keys;
  }

  lemma {:induction false} OneGoes(keys: seq<string>, victim: string)
    requires forall i, j :: 0 <= i < j < |keys| ==> keys[i] != keys[j]
    ensures |Filter(keys, (k: string) => k != victim)| == |keys| - (if victim in keys then 1 else 0)
  {
    if keys != [] {
      OneGoes(keys[..|keys| - 1], victim);
      assert victim in keys <==> victim in keys[..|keys| - 1] || victim == keys[|keys| - 1];
    }
  }

  lemma EvictValid(t: Table, victim: string)
    requires ValidTable(t) && victim in t.keys
    ensures ValidTable(Evict(t, victim)) && |Evict(t, victim).keys| == |t.keys| - 1
  {
    FilterDistinct(t.keys, (k: string) => k != victim);
    OneGoes(t.keys, victim);
  }
}
