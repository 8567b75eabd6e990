/** Legal holds (web/lib/legalHoldStore.ts), the retention sweep (web/lib/retentionStore.ts) and
    erasure (web/lib/privacyStore.ts) over one data directory. Times are milliseconds. */
module DataDir {
  import opened Prelude
  import opened Sorting
  import opened Distinct
  import opened Text

  // ----- holds ---------------------------------------------------------------------------------

  const RUNS := "runs"
  const AUDIT := "audit"
  const WEBHOOKS := "webhook_deliveries"
  const USER_DATA := "user_data"

  datatype Hold = Hold(
    id: string,
    matter: string,
    reason: string,
    scopes: seq<string>,
    openedAt: int,
    openedBy: string,
    releasedAt: Option<int>,
    releasedBy: Option<string>,
    releasedReason: Option<string>)

  datatype HoldError = MatterRequired | ScopesRequired | ReleaseReasonRequired | NotFound | AlreadyReleased

  predicate IsScope(s: string) {
    s == RUNS || s == AUDIT || s == WEBHOOKS || s == USER_DATA
  }

  function First(s: string, n: nat): string {
    if |s| <= n then s else s[..n]
  }

  function OrUnknown(s: string): string {
    if s == "" then "unknown" else s
  }

  predicate Unreleased(h: Hold) {
    h.releasedAt.None?
  }

  predicate Blocks(h: Hold, scopes: seq<string>) {
    Unreleased(h) && exists s :: s in h.scopes && s in scopes
  }

  function BlockedBy(scopes: seq<string>): Hold -> bool {
    h => Blocks(h, scopes)
  }

  function HoldsBlocking(holds: seq<Hold>, scopes: seq<string>): seq<Hold> {
    Filter(holds, BlockedBy(scopes))
  }

  function Scopes(asked: seq<string>): seq<string> {
    FirstOccurrences(Filter(asked, IsScope))
  }

  function OpenError(matter: string, scopes: seq<string>): Option<HoldError> {
    if !(1 <= |Trim(matter)| <= 200) then Some(MatterRequired)
    else if Scopes(scopes) == [] then Some(ScopesRequired)
    else None
  }

  function NewHold(id: string, matter: string, reason: string, scopes: seq<string>, actor: string, now: int): Hold {
    Hold(id, Trim(matter), First(reason, 1000), Scopes(scopes), now, OrUnknown(actor), None, None, None)
  }

  /** Position of the first hold with this id; the number of holds when there is none. */
  function Find(holds: seq<Hold>, id: string): (i: nat)
    ensures i <= |holds|
    ensures i < |holds| ==> holds[i].id == id
    ensures forall j :: 0 <= j < i ==> holds[j].id != id
  {
    if holds == [] || holds[0].id == id then 0 else 1 + Find(holds[1..], id)
  }

  function ReleaseError(holds: seq<Hold>, id: string, why: string): Option<HoldError> {
    if |Trim(why)| < 4 then Some(ReleaseReasonRequired)
    else
      var i := Find(holds, id);
      if i == |holds| then Some(NotFound)
      else if holds[i].releasedAt.Some? then Some(AlreadyReleased)
      else None
  }

  function Release(h: Hold, actor: string, why: string, now: int): Hold {
    h.(releasedAt := Some(now), releasedBy := Some(OrUnknown(actor)), releasedReason := Some(First(Trim(why), 1000)))
  }

  // ----- files ---------------------------------------------------------------------------------

  /** A run, an audit line or a delivery; the stamp is missing when it is not a string or the line
      cannot be parsed. */
  datatype Record = Record(stamp: Option<int>, body: string)

  /** `Corrupt` is a JSON file that cannot be parsed or does not hold a list. */
  datatype File = Records(recs: seq<Record>) | Corrupt(raw: string)

  type Files = map<string, File>

  datatype Category = User | Compliance

  datatype StoreSpec = StoreSpec(name: string, file: string, category: Category)

  const RUNS_FILE := "runs.json"
  const AUDIT_FILE := "audit.jsonl"
  const ROLLED_FILE := "audit.jsonl.1"
  const WEBHOOKS_FILE := "webhook-deliveries.json"
  const POLICY_FILE := "retention.json"

  const PRIVACY_STORES: seq<StoreSpec> := [
    StoreSpec("runs", RUNS_FILE, User),
    StoreSpec("watches", "watches.json", User),
    StoreSpec("watchlist", "watchlist.json", User),
    StoreSpec("alerts", "alerts.json", User),
    StoreSpec("comments", "comments.json", User),
    StoreSpec("activity", "activity.json", User),
    StoreSpec("settings", "settings.json", User),
    StoreSpec("invites", "invites.json", User),
    StoreSpec("digest_subs", "digest-subs.json", User),
    StoreSpec("webhook_subs", "webhooks.json", User),
    StoreSpec("audit", AUDIT_FILE, Compliance),
    StoreSpec("audit_rolled", ROLLED_FILE, Compliance),
    StoreSpec("api_keys", "keys.json", Compliance),
    StoreSpec("rate_limits", "ratelimits.json", Compliance),
    StoreSpec("idempotency", "idempotency.json", Compliance),
    StoreSpec("retention_policy", POLICY_FILE, Compliance),
    StoreSpec("egress_policy", "egress-policy.json", Compliance),
    StoreSpec("webhook_deliveries", WEBHOOKS_FILE, Compliance),
    StoreSpec("digest_deliveries", "digest-deliveries.json", Compliance)
  ]

  predicate Registered(spec: StoreSpec) {
    spec in PRIVACY_STORES
  }

  // ----- retention -----------------------------------------------------------------------------

  const MAX_DAYS := 3650
  const DAY_MS := 86_400_000

  datatype Counts = Counts(runs: nat, audit: nat, webhooks: nat)

  datatype Policy = Policy(
    runsDays: int,
    auditDays: int,
    webhookDays: int,
    updatedAt: int,
    lastSweepAt: Option<int>,
    lastSweepCounts: Option<Counts>)

  const DEFAULT_POLICY := Policy(0, 0, 0, 0, None, None)

  /** `None` stands for input that is not a finite number. */
  function ClampDays(input: Option<real>): (d: int)
    ensures 0 <= d <= MAX_DAYS
    ensures d > 0 ==> input.Some? && d as real <= input.value
    ensures input.Some? && 0.0 <= input.value && d < MAX_DAYS ==> input.value < d as real + 1.0
  {
    if input.None? || input.value < 1.0 then 0
    else if input.value.Floor > MAX_DAYS then MAX_DAYS
    else input.value.Floor
  }

  /** Each field is `None` when the caller leaves it out. */
  datatype PolicyUpdate = PolicyUpdate(
    runsDays: Option<Option<real>>,
    auditDays: Option<Option<real>>,
    webhookDays: Option<Option<real>>)

  function NewDays(update: Option<Option<real>>, current: int): int {
    if update.None? then current else ClampDays(update.value)
  }

  function UpdatedPolicy(p: Policy, u: PolicyUpdate, now: int): Policy {
    p.(runsDays := NewDays(u.runsDays, p.runsDays),
       auditDays := NewDays(u.auditDays, p.auditDays),
       webhookDays := NewDays(u.webhookDays, p.webhookDays),
       updatedAt := now)
  }

  function Cutoff(days: int, now: int): int {
    now - days * DAY_MS
  }

  predicate Fresh(r: Record, cutoff: int) {
    r.stamp.Some? && r.stamp.value >= cutoff
  }

  predicate NotOld(r: Record, cutoff: int) {
    r.stamp.Some? ==> r.stamp.value >= cutoff
  }

  function FreshSince(cutoff: int): Record -> bool {
    r => Fresh(r, cutoff)
  }

  function NotOldSince(cutoff: int): Record -> bool {
    r => NotOld(r, cutoff)
  }

  function FilterFile(files: Files, name: string, keep: Record -> bool): (r: Files)
    ensures r.Keys == files.Keys
    ensures forall f :: f in files && f != name ==> r[f] == files[f]
  {
    if name in files && files[name].Records? then files[name := Records(Filter(files[name].recs, keep))] else files
  }

  function Size(files: Files, name: string): nat {
    if name in files && files[name].Records? then |files[name].recs| else 0
  }

  datatype State = State(holds: seq<Hold>, files: Files, policy: Option<Policy>)

  function PolicyOf(s: State): Policy {
    if s.policy.Some? then s.policy.value else DEFAULT_POLICY
  }

  function RunHolds(s: State): seq<Hold> {
    HoldsBlocking(s.holds, [RUNS, USER_DATA])
  }

  function AuditHolds(s: State): seq<Hold> {
    HoldsBlocking(s.holds, [AUDIT])
  }

  function WebhookHolds(s: State): seq<Hold> {
    HoldsBlocking(s.holds, [WEBHOOKS])
  }

  function SweepRuns(s: State, now: int): Files {
    if PolicyOf(s).runsDays > 0 && RunHolds(s) == []
    then FilterFile(s.files, RUNS_FILE, FreshSince(Cutoff(PolicyOf(s).runsDays, now)))
    else s.files
  }

  function SweepAudit(s: State, now: int): Files {
    if PolicyOf(s).auditDays > 0 && AuditHolds(s) == []
    then
      var keep := NotOldSince(Cutoff(PolicyOf(s).auditDays, now));
      FilterFile(FilterFile(s.files, AUDIT_FILE, keep), ROLLED_FILE, keep)
    else s.files
  }

  function SweepWebhooks(s: State, now: int): Files {
    if PolicyOf(s).webhookDays > 0 && WebhookHolds(s) == []
    then FilterFile(s.files, WEBHOOKS_FILE, FreshSince(Cutoff(PolicyOf(s).webhookDays, now)))
    else s.files
  }

  function SweptFiles(s: State, now: int): Files {
    var s1 := s.(files := SweepRuns(s, now));
    var s2 := s1.(files := SweepAudit(s1, now));
    SweepWebhooks(s2, now)
  }

  function SweepCounts(s: State, now: int): Counts {
    var after := SweptFiles(s, now);
    Counts(
      Max(0, Size(s.files, RUNS_FILE) - Size(after, RUNS_FILE)),
      Max(0, Size(s.files, AUDIT_FILE) - Size(after, AUDIT_FILE)
             + Size(s.files, ROLLED_FILE) - Size(after, ROLLED_FILE)),
      Max(0, Size(s.files, WEBHOOKS_FILE) - Size(after, WEBHOOKS_FILE)))
  }

  function Swept(s: State, now: int): State {
    State(s.holds, SweptFiles(s, now),
          Some(PolicyOf(s).(lastSweepAt := Some(now), lastSweepCounts := Some(SweepCounts(s, now)))))
  }

  // ----- erasure -------------------------------------------------------------------------------

  datatype EraseOptions = EraseOptions(wipeCompliance: bool, wipeAudit: bool)

  predicate Wiped(spec: StoreSpec, opts: EraseOptions) {
    if spec.category.User? then true
    else if spec.name == "audit" || spec.name == "audit_rolled" then opts.wipeAudit
    else opts.wipeCompliance
  }

  function WipedBy(opts: EraseOptions): StoreSpec -> bool {
    spec => Wiped(spec, opts)
  }

  function KeptBy(opts: EraseOptions): StoreSpec -> bool {
    spec => !Wiped(spec, opts)
  }

  function FilesOf(specs: seq<StoreSpec>): (r: seq<string>)
    ensures |r| == |specs| && forall i :: 0 <= i < |r| ==> r[i] == specs[i].file
  {
    if specs == [] then [] else FilesOf(specs[..|specs| - 1]) + [specs[|specs| - 1].file]
  }

  function WillRemove(opts: EraseOptions): seq<string> {
    FilesOf(Filter(PRIVACY_STORES, WipedBy(opts)))
  }

  function WillPreserve(opts: EraseOptions): seq<string> {
    FilesOf(Filter(PRIVACY_STORES, KeptBy(opts)))
  }

  function EraseScopes(opts: EraseOptions): seq<string> {
    [RUNS, USER_DATA] + (if opts.wipeAudit then [AUDIT] else []) + (if opts.wipeCompliance then [WEBHOOKS] else [])
  }

  function Without(files: Files, names: seq<string>): Files {
    map f | f in files && f !in names :: files[f]
  }

  predicate Present(s: State, f: string) {
    f in s.files || (f == POLICY_FILE && s.policy.Some?)
  }

  /** Sizes in bytes of what the files hold. */
  datatype Measure = Measure(file: File -> nat, policy: Policy -> nat)

  function BytesOf(s: State, f: string, m: Measure): nat {
    if f == POLICY_FILE && s.policy.Some? then m.policy(s.policy.value)
    else if f in s.files then m.file(s.files[f])
    else 0
  }

  /** The named files together, each counted once. */
  function BytesOn(s: State, names: seq<string>, m: Measure): nat {
    if names == [] then 0
    else
      var init, f := names[..|names| - 1], names[|names| - 1];
      BytesOn(s, init, m) + if f in init then 0 else BytesOf(s, f, m)
  }

  datatype EraseSummary = EraseSummary(removed: seq<string>, preserved: seq<string>, bytesFreed: nat)

  function Unlinked(s: State, names: seq<string>): State {
    State(s.holds, Without(s.files, names), if POLICY_FILE in names then None else s.policy)
  }

  function Erased(s: State, opts: EraseOptions): State {
    if HoldsBlocking(s.holds, EraseScopes(opts)) != [] then s
    else Unlinked(s, WillRemove(opts))
  }

  // ----- the directory -------------------------------------------------------------------------

  datatype Skipped = Skipped(runs: seq<Hold>, audit: seq<Hold>, webhooks: seq<Hold>)

  class DataDirectory {
    var holds: seq<Hold>
    var files: Files
    var policy: Option<Policy>

    constructor ()
      ensures Abs() == State([], map[], None)
    {
      holds, files, policy := [], map[], None;
    }

    function Abs(): State
      reads this
    {
      State(holds, files, policy)
    }

    method OpenHold(id: string, matter: string, reason: string, scopes: seq<string>, actor: string, now: int)
      returns (r: Result<Hold, HoldError>)
      modifies `holds
      ensures r == match OpenError(matter, scopes)
                   case Some(e) => Err(e)
                   case None => Ok(NewHold(id, matter, reason, scopes, actor, now))
      ensures holds == old(holds) + if r.Ok? then [r.value] else []
    {
      var text := Trim(matter);
      if |text| < 1 || |text| > 200 {
        return Err(MatterRequired);
      }
      var wanted := DedupeScopes(scopes);
      if |wanted| == 0 {
        return Err(ScopesRequired);
      }
      var row := Hold(id, text, First(reason, 1000), wanted, now, OrUnknown(actor), None, None, None);
      holds := holds + [row];
      r := Ok(row);
    }

    method ReleaseHold(id: string, actor: string, why: string, now: int) returns (r: Result<Hold, HoldError>)
      modifies `holds
      ensures ReleaseError(old(holds), id, why).Some? ==>
                r == Err(ReleaseError(old(holds), id, why).value) && holds == old(holds)
      ensures ReleaseError(old(holds), id, why).None? ==>
                var i := Find(old(holds), id);
                && i < |old(holds)|
                && r == Ok(Release(old(holds)[i], actor, why, now))
                && holds == old(holds)[i := r.value]
    {
      var reason := Trim(why);
      if |reason| < 4 {
        return Err(ReleaseReasonRequired);
      }
      var i := Find(holds, id);
      if i == |holds| {
        return Err(NotFound);
      }
      if holds[i].releasedAt.Some? {
        return Err(AlreadyReleased);
      }
      var row := holds[i].(releasedAt := Some(now), releasedBy := Some(OrUnknown(actor)),
                           releasedReason := Some(First(reason, 1000)));
      holds := holds[i := row];
      r := Ok(row);
    }

    method SetPolicy(update: PolicyUpdate, now: int) returns (p: Policy)
      modifies `policy
      ensures p == UpdatedPolicy(PolicyOf(old(Abs())), update, now) && policy == Some(p)
    {
      p := UpdatedPolicy(PolicyOf(Abs()), update, now);
      policy := Some(p);
    }

    method SweepRunsFile(days: int, now: int) returns (removed: nat)
      modifies `files
      ensures files == FilterFile(old(files), RUNS_FILE, FreshSince(Cutoff(days, now)))
      ensures removed as int == Size(old(files), RUNS_FILE) - Size(files, RUNS_FILE)
    {
      removed := SweepListFile(RUNS_FILE, Cutoff(days, now));
    }

    method SweepWebhookDeliveriesFile(days: int, now: int) returns (removed: nat)
      modifies `files
      ensures files == FilterFile(old(files), WEBHOOKS_FILE, FreshSince(Cutoff(days, now)))
      ensures removed as int == Size(old(files), WEBHOOKS_FILE) - Size(files, WEBHOOKS_FILE)
    {
      removed := SweepListFile(WEBHOOKS_FILE, Cutoff(days, now));
    }

    /** What the two JSON sweeps share: rewrite the file only when something goes. */
    method SweepListFile(name: string, cutoff: int) returns (removed: nat)
      modifies `files
      ensures files == FilterFile(old(files), name, FreshSince(cutoff))
      ensures removed as int == Size(old(files), name) - Size(files, name)
    {
      if name !in files || files[name].Corrupt? {
        return 0;
      }
      var next := Filter(files[name].recs, FreshSince(cutoff));
      removed := |files[name].recs| - |next|;
      if removed > 0 {
        files := files[name := Records(next)];
      } else {
        FilterSameLength(files[name].recs, FreshSince(cutoff));
        assert files == files[name := Records(next)];
      }
    }

    method SweepAuditFiles(days: int, now: int) returns (total: nat)
      modifies `files
      ensures var keep := NotOldSince(Cutoff(days, now));
              files == FilterFile(FilterFile(old(files), AUDIT_FILE, keep), ROLLED_FILE, keep)
      ensures total as int == Size(old(files), AUDIT_FILE) - Size(files, AUDIT_FILE)
                              + Size(old(files), ROLLED_FILE) - Size(files, ROLLED_FILE)
    {
      var removed := SweepLines(AUDIT_FILE, Cutoff(days, now));
      total := removed;
      removed := SweepLines(ROLLED_FILE, Cutoff(days, now));
      total := total + removed;
    }

    method SweepLines(name: string, cutoff: int) returns (removed: nat)
      modifies `files
      ensures files == FilterFile(old(files), name, NotOldSince(cutoff))
      ensures removed as int == Size(old(files), name) - Size(files, name)
    {
      if name !in files || files[name].Corrupt? {
        return 0;
      }
      var lines := files[name].recs;
      var keep;
      keep, removed := LinesToKeep(lines, cutoff);
      if removed > 0 {
        files := files[name := Records(keep)];
      } else {
        FilterSameLength(lines, NotOldSince(cutoff));
        assert files == files[name := Records(keep)];
      }
    }

    method RunRetentionSweep(now: int) returns (counts: Counts, skipped: Skipped)
      modifies `files, `policy
      ensures Abs() == Swept(old(Abs()), now)
      ensures counts == SweepCounts(old(Abs()), now)
      ensures var p := PolicyOf(old(Abs()));
              skipped == Skipped(if p.runsDays > 0 then RunHolds(old(Abs())) else [],
                                 if p.auditDays > 0 then AuditHolds(old(Abs())) else [],
                                 if p.webhookDays > 0 then WebhookHolds(old(Abs())) else [])
    {
      hide Filter, HoldsBlocking, FilterFile, Size, SweepCounts, FreshSince, NotOldSince, DEFAULT_POLICY;
      var p := PolicyOf(Abs());
      counts, skipped := Counts(0, 0, 0), Skipped([], [], []);
      var runHolds := HoldsBlocking(holds, [RUNS, USER_DATA]);
      var auditHolds := HoldsBlocking(holds, [AUDIT]);
      var webhookHolds := HoldsBlocking(holds, [WEBHOOKS]);
      ghost var s0 := Abs();
      if p.runsDays > 0 {
        if |runHolds| > 0 {
          skipped := skipped.(runs := runHolds);
        } else {
          var n := SweepRunsFile(p.runsDays, now);
          counts := counts.(runs := n);
        }
      }
      ghost var s1 := Abs();
      assert s1 == s0.(files := SweepRuns(s0, now));
      if p.auditDays > 0 {
        if |auditHolds| > 0 {
          skipped := skipped.(audit := auditHolds);
        } else {
          var n := SweepAuditFiles(p.auditDays, now);
          counts := counts.(audit := n);
        }
      }
      ghost var s2 := Abs();
      assert s2 == s1.(files := SweepAudit(s1, now));
      if p.webhookDays > 0 {
        if |webhookHolds| > 0 {
          skipped := skipped.(webhooks := webhookHolds);
        } else {
          var n := SweepWebhookDeliveriesFile(p.webhookDays, now);
          counts := counts.(webhooks := n);
        }
      }
      assert files == SweepWebhooks(s2, now);
      CountsByParts(s0, s1, s2, now);
      policy := Some(p.(lastSweepAt := Some(now), lastSweepCounts := Some(counts)));
    }

    /** The error carries the blocking holds; `removed` is the plan, whether or not the files existed. */
    method EraseAll(opts: EraseOptions, m: Measure) returns (r: Result<EraseSummary, seq<Hold>>)
      modifies `files, `policy
      ensures Abs() == Erased(old(Abs()), opts)
      ensures r == var blockers := HoldsBlocking(holds, EraseScopes(opts));
                   if blockers != [] then Err(blockers)
                   else Ok(EraseSummary(WillRemove(opts), WillPreserve(opts), BytesOn(old(Abs()), WillRemove(opts), m)))
    {
      hide HoldsBlocking, WillRemove, WillPreserve, Unlinked, BytesOn;
      var scopes := [RUNS, USER_DATA];
      if opts.wipeAudit {
        scopes := scopes + [AUDIT];
      }
      if opts.wipeCompliance {
        scopes := scopes + [WEBHOOKS];
      }
      assert scopes == EraseScopes(opts);
      var blockers := HoldsBlocking(holds, scopes);
      if |blockers| > 0 {
        return Err(blockers);
      }
      var remove, preserve := DescribeErase(opts);
      var removed, bytes := UnlinkAll(remove, m);
      r := Ok(EraseSummary(removed, preserve, bytes));
    }

    /** Unlinks the named files; a file that does not exist is reported as removed as well. */
    method UnlinkAll(names: seq<string>, m: Measure) returns (removed: seq<string>, bytes: nat)
      modifies `files, `policy
      ensures removed == names
      ensures Abs() == Unlinked(old(Abs()), names)
      ensures bytes == BytesOn(old(Abs()), names, m)
    {
      removed, bytes := [], 0;
      for i := 0 to |names|
        invariant removed == names[..i]
        invariant Abs() == Unlinked(old(Abs()), names[..i])
        invariant bytes == BytesOn(old(Abs()), names[..i], m)
      {
        assert names[..i + 1] == names[..i] + [names[i]] && names[..i + 1][..i] == names[..i];
        var n := UnlinkIfPresent(names[i], m);
        removed := removed + [names[i]];
        bytes := bytes + n;
      }
      assert names[..|names|] == names;
    }

    /** The size of the file, or 0 when there is none; afterwards there is none. */
    method UnlinkIfPresent(f: string, m: Measure) returns (n: nat)
      modifies `files, `policy
      ensures n == BytesOf(old(Abs()), f, m)
      ensures Abs() == Unlinked(old(Abs()), [f])
    {
      n := 0;
      if f == POLICY_FILE && policy.Some? {
        n := m.policy(policy.value);
        policy := None;
      } else if f in files {
        n := m.file(files[f]);
      }
      files := files - {f};
    }
  }

  /** The three parts of a sweep touch different files, so each count is read off one part. */
  lemma {:induction false} CountsByParts(s0: State, s1: State, s2: State, now: int)
    requires s1 == s0.(files := SweepRuns(s0, now))
    requires s2 == s1.(files := SweepAudit(s1, now))
    ensures SweepCounts(s0, now) == Counts(
              Max(0, Size(s0.files, RUNS_FILE) - Size(s1.files, RUNS_FILE)),
              Max(0, Size(s1.files, AUDIT_FILE) - Size(s2.files, AUDIT_FILE)
                     + Size(s1.files, ROLLED_FILE) - Size(s2.files, ROLLED_FILE)),
              Max(0, Size(s2.files, WEBHOOKS_FILE) - Size(SweepWebhooks(s2, now), WEBHOOKS_FILE)))
  {
    hide Filter, HoldsBlocking, FilterFile, FreshSince, NotOldSince, RunHolds, AuditHolds, WebhookHolds;
  }

  method LinesToKeep(lines: seq<Record>, cutoff: int) returns (keep: seq<Record>, removed: nat)
    ensures keep == Filter(lines, NotOldSince(cutoff))
    ensures removed == |lines| - |keep|
  {
    keep, removed := [], 0;
    for i := 0 to |lines|
      invariant keep == Filter(lines[..i], NotOldSince(cutoff))
      invariant removed == i - |keep|
    {
      assert lines[..i + 1][..i] == lines[..i];
      if lines[i].stamp.Some? && lines[i].stamp.value < cutoff {
        removed := removed + 1;
        continue;
      }
      keep := keep + [lines[i]];
    }
    assert lines[..|lines|] == lines;
  }

  method DedupeScopes(asked: seq<string>) returns (r: seq<string>)
    ensures r == Scopes(asked)
  {
    r := [];
    for i := 0 to |asked|
      invariant r == Scopes(asked[..i])
    {
      assert asked[..i + 1][..i] == asked[..i];
      OccurrencesStep(Filter(asked[..i], IsScope), asked[i]);
      if IsScope(asked[i]) && asked[i] !in r {
        r := r + [asked[i]];
      }
    }
    assert asked[..|asked|] == asked;
  }

  method DescribeErase(opts: EraseOptions) returns (remove: seq<string>, preserve: seq<string>)
    ensures remove == WillRemove(opts)
    ensures preserve == WillPreserve(opts)
  {
    var stores := PRIVACY_STORES;
    remove, preserve := [], [];
    for i := 0 to |stores|
      invariant remove == FilesOf(Filter(stores[..i], WipedBy(opts)))
      invariant preserve == FilesOf(Filter(stores[..i], KeptBy(opts)))
    {
      hide PRIVACY_STORES;
      var spec := stores[i];
      PlanStep(stores, i, opts);
      var isAudit := spec.name == "audit" || spec.name == "audit_rolled";
      if spec.category.User? {
        remove := remove + [spec.file];
        continue;
      }
      if isAudit {
        if opts.wipeAudit {
          remove := remove + [spec.file];
        } else {
          preserve := preserve + [spec.file];
        }
        continue;
      }
      if opts.wipeCompliance {
        remove := remove + [spec.file];
      } else {
        preserve := preserve + [spec.file];
      }
    }
    assert stores[..|stores|] == stores;
  }

  lemma {:induction false} PlanStep(stores: seq<StoreSpec>, i: nat, opts: EraseOptions)
    requires i < |stores|
    ensures FilesOf(Filter(stores[..i + 1], WipedBy(opts))) ==
            FilesOf(Filter(stores[..i], WipedBy(opts))) + if Wiped(stores[i], opts) then [stores[i].file] else []
    ensures FilesOf(Filter(stores[..i + 1], KeptBy(opts))) ==
            FilesOf(Filter(stores[..i], KeptBy(opts))) + if Wiped(stores[i], opts) then [] else [stores[i].file]
  {
    assert stores[..i + 1][..i] == stores[..i];
  }
}
