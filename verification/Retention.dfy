/** What a sweep and an erase remove, exactly (web/lib/retentionStore.ts, web/lib/privacyStore.ts). */
module Retention {
  import opened Prelude
  import opened Sorting
  import opened DataDir

  // ----- the sweep -----------------------------------------------------------------------------

  /** An unreleased hold names this scope. */
  ghost predicate Held(holds: seq<Hold>, scope: string) {
    exists i :: 0 <= i < |holds| && Pins(holds[i], scope)
  }

  ghost predicate Pins(h: Hold, scope: string) {
    h.releasedAt == None && scope in h.scopes
  }

  /** The rule of one sweep: this record of file `f` is past its retention and no hold pins it. Runs
      and deliveries without a time go as well, audit lines without one stay. */
  ghost predicate Goes(s: State, now: int, f: string, r: Record) {
    s.policy.Some? &&
    var p := s.policy.value;
    if f == "runs.json" then
      && p.runsDays > 0 && !Held(s.holds, "runs") && !Held(s.holds, "user_data")
      && (r.stamp.None? || r.stamp.value < now - p.runsDays * 86_400_000)
    else if f == "webhook-deliveries.json" then
      && p.webhookDays > 0 && !Held(s.holds, "webhook_deliveries")
      && (r.stamp.None? || r.stamp.value < now - p.webhookDays * 86_400_000)
    else if f == "audit.jsonl" || f == "audit.jsonl.1" then
      && p.auditDays > 0 && !Held(s.holds, "audit")
      && r.stamp.Some? && r.stamp.value < now - p.auditDays * 86_400_000
    else
      false
  }

  /** The holds that stop an action are the unreleased ones that name one of its scopes. */
  lemma BlockingIs(holds: seq<Hold>, scopes: seq<string>, h: Hold)
    ensures h in HoldsBlocking(holds, scopes) <==> h in holds && exists s :: s in scopes && Pins(h, s)
  {
    if Blocks(h, scopes) {
      var s :| s in h.scopes && s in scopes;
      assert Pins(h, s);
    }
  }

  lemma BlockedIff(holds: seq<Hold>, scopes: seq<string>)
    ensures HoldsBlocking(holds, scopes) != [] <==> exists s :: s in scopes && Held(holds, s)
  {
    hide HoldsBlocking, Pins;
    var blocking := HoldsBlocking(holds, scopes);
    if blocking != [] {
      BlockingIs(holds, scopes, blocking[0]);
      assert blocking[0] in blocking;
      var s :| s in scopes && Pins(blocking[0], s);
      assert Held(holds, s);
    }
    if s :| s in scopes && Held(holds, s) {
      var i :| 0 <= i < |holds| && Pins(holds[i], s);
      BlockingIs(holds, scopes, holds[i]);
    }
  }

  /** Which scopes stop which part of a sweep. */
  lemma SweepBlockedIff(s: State)
    ensures RunHolds(s) == [] <==> !Held(s.holds, "runs") && !Held(s.holds, "user_data")
    ensures AuditHolds(s) == [] <==> !Held(s.holds, "audit")
    ensures WebhookHolds(s) == [] <==> !Held(s.holds, "webhook_deliveries")
  {
    hide HoldsBlocking, Held;
    BlockedIff(s.holds, [RUNS, USER_DATA]);
    BlockedIff(s.holds, [AUDIT]);
    BlockedIff(s.holds, [WEBHOOKS]);
    assert RUNS in [RUNS, USER_DATA] && USER_DATA in [RUNS, USER_DATA];
    assert AUDIT in [AUDIT] && WEBHOOKS in [WEBHOOKS];
  }

  ghost function Stays(s: State, now: int, f: string): Record -> bool {
    r => !Goes(s, now, f, r)
  }

  ghost function SweptFile(s: State, now: int, f: string): File
    requires f in s.files
  {
    if s.files[f].Corrupt? then s.files[f] else Records(Filter(s.files[f].recs, Stays(s, now, f)))
  }

  lemma FilteredBy(files: Files, f: string, keep: Record -> bool, stays: Record -> bool)
    requires f in files
    requires forall r :: keep(r) == stays(r)
    ensures FilterFile(files, f, keep)[f] ==
            if files[f].Corrupt? then files[f] else Records(Filter(files[f].recs, stays))
  {
    hide Filter;
    if files[f].Records? {
      FilterSame(files[f].recs, keep, stays);
    }
  }

  lemma KeptWhole(s: State, now: int, f: string)
    requires f in s.files && forall r :: !Goes(s, now, f, r)
    ensures SweptFile(s, now, f) == s.files[f]
  {
    hide Filter, Goes;
    if s.files[f].Records? {
      FilterAll(s.files[f].recs, Stays(s, now, f));
    }
  }

  lemma RunsExact(s: State, now: int)
    requires RUNS_FILE in s.files
    ensures SweepRuns(s, now)[RUNS_FILE] == SweptFile(s, now, RUNS_FILE)
  {
    hide HoldsBlocking, FilterFile, Filter, Held;
    SweepBlockedIff(s);
    if PolicyOf(s).runsDays > 0 && RunHolds(s) == [] {
      FilteredBy(s.files, RUNS_FILE, FreshSince(Cutoff(PolicyOf(s).runsDays, now)), Stays(s, now, RUNS_FILE));
    } else {
      KeptWhole(s, now, RUNS_FILE);
    }
  }

  lemma WebhooksExact(s: State, now: int)
    requires WEBHOOKS_FILE in s.files
    ensures SweepWebhooks(s, now)[WEBHOOKS_FILE] == SweptFile(s, now, WEBHOOKS_FILE)
  {
    hide HoldsBlocking, FilterFile, Filter, Held;
    SweepBlockedIff(s);
    if PolicyOf(s).webhookDays > 0 && WebhookHolds(s) == [] {
      var keep := FreshSince(Cutoff(PolicyOf(s).webhookDays, now));
      FilteredBy(s.files, WEBHOOKS_FILE, keep, Stays(s, now, WEBHOOKS_FILE));
    } else {
      KeptWhole(s, now, WEBHOOKS_FILE);
    }
  }

  lemma AuditExact(s: State, now: int, f: string)
    requires f in s.files && (f == AUDIT_FILE || f == ROLLED_FILE)
    ensures SweepAudit(s, now)[f] == SweptFile(s, now, f)
  {
    hide HoldsBlocking, FilterFile, Filter, Held;
    SweepBlockedIff(s);
    if PolicyOf(s).auditDays > 0 && AuditHolds(s) == [] {
      var keep := NotOldSince(Cutoff(PolicyOf(s).auditDays, now));
      FilteredBy(s.files, f, keep, Stays(s, now, f));
      FilteredBy(FilterFile(s.files, AUDIT_FILE, keep), f, keep, Stays(s, now, f));
    } else {
      KeptWhole(s, now, f);
    }
  }

  /** The parts of the sweep do not get into each other's way. */
  lemma {:induction false} PartsAreApart(s: State, now: int, f: string)
    requires f in s.files
    ensures SweptFiles(s, now).Keys == s.files.Keys
    ensures f == RUNS_FILE ==> SweptFiles(s, now)[f] == SweepRuns(s, now)[f]
    ensures f == WEBHOOKS_FILE ==> SweptFiles(s, now)[f] == SweepWebhooks(s, now)[f]
    ensures f == AUDIT_FILE || f == ROLLED_FILE ==> SweptFiles(s, now)[f] == SweepAudit(s, now)[f]
    ensures f !in {RUNS_FILE, WEBHOOKS_FILE, AUDIT_FILE, ROLLED_FILE} ==> SweptFiles(s, now)[f] == s.files[f]
  {
    hide HoldsBlocking, Filter, FreshSince, NotOldSince;
  }

  /** A sweep removes exactly the records its rule names, from the files it sweeps, and neither
      creates nor deletes a file. */
  lemma SweepExact(s: State, now: int, f: string)
    ensures f in Swept(s, now).files <==> f in s.files
    ensures f in s.files ==> Swept(s, now).files[f] == SweptFile(s, now, f)
  {
    hide SweptFiles, SweptFile, Goes, SweepCounts, SweepRuns, SweepAudit, SweepWebhooks, HoldsBlocking, Filter;
    if f in s.files {
      PartsAreApart(s, now, f);
      if f == RUNS_FILE {
        RunsExact(s, now);
      } else if f == WEBHOOKS_FILE {
        WebhooksExact(s, now);
      } else if f == AUDIT_FILE || f == ROLLED_FILE {
        AuditExact(s, now, f);
      } else {
        OtherFile(s, now, f);
      }
    } else {
      SweptKeys(s, now);
    }
  }

  lemma OtherFile(s: State, now: int, f: string)
    requires f in s.files && f !in {RUNS_FILE, WEBHOOKS_FILE, AUDIT_FILE, ROLLED_FILE}
    ensures SweptFile(s, now, f) == s.files[f]
  {
    KeptWhole(s, now, f);
  }

  lemma {:induction false} SweptKeys(s: State, now: int)
    ensures SweptFiles(s, now).Keys == s.files.Keys
  {
    hide HoldsBlocking, Filter, FreshSince, NotOldSince;
  }

  lemma {:induction false} RuleMonotone(s: State, t1: int, t2: int, f: string, r: Record)
    requires t1 <= t2 && Goes(s, t1, f, r)
    ensures Goes(s, t2, f, r)
  {
    hide HoldsBlocking;
  }

  lemma {:induction false} RuleUnaffected(s: State, t: State, now: int, f: string, r: Record)
    requires t.holds == s.holds
    requires PolicyOf(t).runsDays == PolicyOf(s).runsDays
    requires PolicyOf(t).auditDays == PolicyOf(s).auditDays
    requires PolicyOf(t).webhookDays == PolicyOf(s).webhookDays
    ensures Goes(t, now, f, r) == Goes(s, now, f, r)
  {
    hide HoldsBlocking;
  }

  lemma ComposeAt(s: State, t1: int, t2: int, f: string)
    requires t1 <= t2
    ensures f in Swept(Swept(s, t1), t2).files <==> f in Swept(s, t2).files
    ensures f in Swept(s, t2).files ==>
              (f in Swept(Swept(s, t1), t2).files && Swept(Swept(s, t1), t2).files[f] == Swept(s, t2).files[f])
  {
    hide Swept, SweptFile;
    var mid := Swept(s, t1);
    SweepExact(s, t1, f);
    SweepExact(mid, t2, f);
    SweepExact(s, t2, f);
    if f in s.files {
      SweepsComposeAt(s, t1, t2, f);
    }
  }

  /** An earlier sweep never changes what a later one leaves, so sweeping on a timer, on every list
      request or only once comes to the same. */
  lemma SweepsCompose(s: State, t1: int, t2: int)
    requires t1 <= t2
    ensures Swept(Swept(s, t1), t2).files == Swept(s, t2).files
  {
    hide Swept;
    forall f ensures f in Swept(Swept(s, t1), t2).files <==> f in Swept(s, t2).files {
      ComposeAt(s, t1, t2, f);
    }
    forall f | f in Swept(s, t2).files ensures Swept(Swept(s, t1), t2).files[f] == Swept(s, t2).files[f] {
      ComposeAt(s, t1, t2, f);
    }
  }

  lemma SweepsComposeAt(s: State, t1: int, t2: int, f: string)
    requires t1 <= t2 && f in s.files
    ensures f in Swept(s, t1).files
    ensures SweptFile(Swept(s, t1), t2, f) == SweptFile(s, t2, f)
  {
    var mid := Swept(s, t1);
    SweepExact(s, t1, f);
    SameSettings(s, t1);
    hide Swept, Goes, Filter, PolicyOf;
    if s.files[f].Records? {
      forall r ensures Goes(mid, t2, f, r) == Goes(s, t2, f, r) {
        RuleUnaffected(s, mid, t2, f, r);
      }
      forall r | Stays(s, t2, f)(r) ensures Stays(s, t1, f)(r) {
        if Goes(s, t1, f, r) {
          RuleMonotone(s, t1, t2, f, r);
        }
      }
      FilterSame(mid.files[f].recs, Stays(mid, t2, f), Stays(s, t2, f));
      FilterTwice(s.files[f].recs, Stays(s, t1, f), Stays(s, t2, f));
    }
  }

  lemma {:induction false} SameSettings(s: State, now: int)
    ensures var t := Swept(s, now);
            && t.holds == s.holds
            && PolicyOf(t).runsDays == PolicyOf(s).runsDays
            && PolicyOf(t).auditDays == PolicyOf(s).auditDays
            && PolicyOf(t).webhookDays == PolicyOf(s).webhookDays
  {
    hide SweptFiles, SweepCounts;
  }

  /** Sweeping again at once removes nothing more. */
  lemma SweepIdempotent(s: State, now: int)
    ensures Swept(Swept(s, now), now).files == Swept(s, now).files
    ensures SweepCounts(Swept(s, now), now) == Counts(0, 0, 0)
  {
    SweepsCompose(s, now, now);
    hide SweptFiles, Filter, HoldsBlocking;
  }

  // ----- what a sweep reports ----------------------------------------------------------------------

  /** How many records of the list go. */
  ghost function GoneCount(s: State, now: int, f: string, recs: seq<Record>): nat {
    if recs == [] then 0
    else
      (if Goes(s, now, f, recs[|recs| - 1]) then 1 else 0) + GoneCount(s, now, f, recs[..|recs| - 1])
  }

  ghost function GoneFrom(s: State, now: int, f: string): nat {
    if f in s.files && s.files[f].Records? then GoneCount(s, now, f, s.files[f].recs) else 0
  }

  lemma {:induction false} GoneAndKept(s: State, now: int, f: string, recs: seq<Record>)
    ensures |Filter(recs, Stays(s, now, f))| + GoneCount(s, now, f, recs) == |recs|
  {
    hide Goes;
    if recs != [] {
      GoneAndKept(s, now, f, recs[..|recs| - 1]);
    }
  }

  lemma SizeGone(s: State, now: int, f: string)
    ensures Size(s.files, f) - Size(SweptFiles(s, now), f) == GoneFrom(s, now, f)
  {
    hide Goes, Filter, SweptFiles, SweepCounts;
    SweepExact(s, now, f);
    if f in s.files && s.files[f].Records? {
      GoneAndKept(s, now, f, s.files[f].recs);
    }
  }

  /** The counts reported and stored are the numbers of records that went; the policy itself stays. */
  lemma ReportIsExact(s: State, now: int)
    ensures SweepCounts(s, now) ==
            Counts(GoneFrom(s, now, "runs.json"),
                   GoneFrom(s, now, "audit.jsonl") + GoneFrom(s, now, "audit.jsonl.1"),
                   GoneFrom(s, now, "webhook-deliveries.json"))
    ensures Swept(s, now).holds == s.holds
    ensures Swept(s, now).policy ==
            Some((if s.policy.None? then Policy(0, 0, 0, 0, None, None) else s.policy.value)
                 .(lastSweepAt := Some(now), lastSweepCounts := Some(SweepCounts(s, now))))
  {
    hide SweptFiles, GoneFrom, Size;
    SizeGone(s, now, RUNS_FILE);
    SizeGone(s, now, AUDIT_FILE);
    SizeGone(s, now, ROLLED_FILE);
    SizeGone(s, now, WEBHOOKS_FILE);
  }

  /** Setting a policy replaces the fields that are given, cut to whole days, and keeps the others. */
  lemma PolicyIsSet(p: Policy, u: PolicyUpdate, now: int)
    ensures var q := UpdatedPolicy(p, u, now);
            && q.updatedAt == now && q.lastSweepAt == p.lastSweepAt && q.lastSweepCounts == p.lastSweepCounts
            && SetDays(q.runsDays, p.runsDays, u.runsDays)
            && SetDays(q.auditDays, p.auditDays, u.auditDays)
            && SetDays(q.webhookDays, p.webhookDays, u.webhookDays)
  {
  }

  /** Nothing given: as before. Not a number, or below 1: 0. Otherwise cut to whole days, at most 3650. */
  ghost predicate SetDays(after: int, before: int, given: Option<Option<real>>) {
    match given
    case None => after == before
    case Some(None) => after == 0
    case Some(Some(x)) =>
      if x < 1.0 then after == 0
      else if x > 3650.0 then after == 3650
      else after as real <= x < after as real + 1.0
  }

  // ----- erasure -------------------------------------------------------------------------------

  lemma {:induction false} FilterSplits<T(!new)>(s: seq<T>, p: T -> bool, q: T -> bool)
    requires forall x :: p(x) != q(x)
    ensures multiset(Filter(s, p)) + multiset(Filter(s, q)) == multiset(s)
  {
    if s != [] {
      FilterSplits(s[..|s| - 1], p, q);
      assert s == s[..|s| - 1] + [s[|s| - 1]];
    }
  }

  /** Length and first two characters tell the registered file names apart. */
  function Key(f: string): (int, char, char) {
    if |f| < 2 then (|f|, ' ', ' ') else (|f|, f[0], f[1])
  }

  lemma RegisteredKeys()
    ensures forall i, j :: 0 <= i < j < |PRIVACY_STORES| ==> Key(PRIVACY_STORES[i].file) != Key(PRIVACY_STORES[j].file)
  {
  }

  /** Two registered stores never share a file. */
  lemma {:induction false} OneStorePerFile(a: StoreSpec, b: StoreSpec)
    requires Registered(a) && Registered(b) && a.file == b.file
    ensures a == b
  {
    RegisteredKeys();
    hide PRIVACY_STORES;
    var stores := PRIVACY_STORES;
    var i :| 0 <= i < |stores| && stores[i] == a;
    var j :| 0 <= j < |stores| && stores[j] == b;
    assert i < j ==> Key(a.file) != Key(b.file);
    assert j < i ==> Key(b.file) != Key(a.file);
  }

  lemma {:induction false} FilesDistinct(specs: seq<StoreSpec>)
    requires forall i, j :: 0 <= i < j < |specs| ==> specs[i] != specs[j]
    requires forall i :: 0 <= i < |specs| ==> Registered(specs[i])
    ensures forall i, j :: 0 <= i < j < |FilesOf(specs)| ==> FilesOf(specs)[i] != FilesOf(specs)[j]
  {
    hide PRIVACY_STORES;
    forall a, b | a in specs && b in specs ensures a.file == b.file ==> a == b {
      if a.file == b.file {
        OneStorePerFile(a, b);
      }
    }
  }

  lemma {:induction false} StoresDistinct()
    ensures forall i, j :: 0 <= i < j < |PRIVACY_STORES| ==> PRIVACY_STORES[i] != PRIVACY_STORES[j]
  {
    RegisteredKeys();
    hide PRIVACY_STORES;
  }

  /** The customer's own files always go, the two audit files with `wipeAudit`, the other compliance
      files with `wipeCompliance`. */
  ghost predicate Planned(spec: StoreSpec, opts: EraseOptions) {
    || spec.category == User
    || (spec.name in {"audit", "audit_rolled"} && opts.wipeAudit)
    || (spec.name !in {"audit", "audit_rolled"} && opts.wipeCompliance)
  }

  /** An unreleased hold on a scope that the erase touches. */
  ghost predicate EraseHeld(s: State, opts: EraseOptions) {
    || Held(s.holds, "runs") || Held(s.holds, "user_data")
    || (opts.wipeAudit && Held(s.holds, "audit"))
    || (opts.wipeCompliance && Held(s.holds, "webhook_deliveries"))
  }

  lemma PlannedIff(spec: StoreSpec, opts: EraseOptions)
    ensures Planned(spec, opts) <==> Wiped(spec, opts)
  {
  }

  lemma EraseHeldIff(s: State, opts: EraseOptions)
    ensures EraseHeld(s, opts) <==> HoldsBlocking(s.holds, EraseScopes(opts)) != []
  {
    hide HoldsBlocking, Held;
    BlockedIff(s.holds, EraseScopes(opts));
    EraseScopesAre(opts);
  }

  lemma EraseScopesAre(opts: EraseOptions)
    ensures forall s :: s in EraseScopes(opts) <==>
              || s == "runs" || s == "user_data" || (opts.wipeAudit && s == "audit")
              || (opts.wipeCompliance && s == "webhook_deliveries")
  {
    var base, audit := [RUNS, USER_DATA], if opts.wipeAudit then [AUDIT] else [];
    assert forall s :: s in base <==> s == RUNS || s == USER_DATA;
    assert forall s :: s in base + audit <==> s in base || s in audit;
  }

  /** The plan says of every registered file, exactly once, whether it goes. */
  lemma {:induction false} PlanPartitions(opts: EraseOptions, spec: StoreSpec)
    requires Registered(spec)
    ensures spec.file in WillRemove(opts) <==> Planned(spec, opts)
    ensures spec.file in WillPreserve(opts) <==> !Planned(spec, opts)
  {
    hide PRIVACY_STORES;
    PlannedIff(spec, opts);
    hide Wiped, Planned;
    PlanHas(opts, WipedBy(opts), spec);
    PlanHas(opts, KeptBy(opts), spec);
  }

  lemma PlanHas(opts: EraseOptions, p: StoreSpec -> bool, spec: StoreSpec)
    requires Registered(spec)
    ensures spec.file in FilesOf(Filter(PRIVACY_STORES, p)) <==> p(spec)
  {
    hide PRIVACY_STORES;
    var specs := Filter(PRIVACY_STORES, p);
    forall i | 0 <= i < |specs| && FilesOf(specs)[i] == spec.file ensures specs[i] == spec {
      assert specs[i] in specs;
      OneStorePerFile(specs[i], spec);
    }
    if p(spec) {
      var i :| 0 <= i < |specs| && specs[i] == spec;
      assert FilesOf(specs)[i] == spec.file;
    }
  }

  /** No file is listed twice, and the two lists together are all registered files. */
  lemma PlanCounts(opts: EraseOptions)
    ensures |WillRemove(opts)| + |WillPreserve(opts)| == |PRIVACY_STORES|
    ensures forall i, j :: 0 <= i < j < |WillRemove(opts)| ==> WillRemove(opts)[i] != WillRemove(opts)[j]
    ensures forall i, j :: 0 <= i < j < |WillPreserve(opts)| ==> WillPreserve(opts)[i] != WillPreserve(opts)[j]
  {
    hide PRIVACY_STORES, Filter, FilesOf;
    var remove, keep := Filter(PRIVACY_STORES, WipedBy(opts)), Filter(PRIVACY_STORES, KeptBy(opts));
    FilterSplits(PRIVACY_STORES, WipedBy(opts), KeptBy(opts));
    assert |multiset(remove)| + |multiset(keep)| == |multiset(PRIVACY_STORES)|;
    StoresDistinct();
    FilterDistinct(PRIVACY_STORES, WipedBy(opts));
    FilterDistinct(PRIVACY_STORES, KeptBy(opts));
    FilesDistinct(remove);
    FilesDistinct(keep);
  }

  /** Erasing deletes a registered file exactly when the plan says so and no hold blocks the erase as
      a whole; there is no partial erase. */
  lemma EraseExact(s: State, opts: EraseOptions, spec: StoreSpec)
    requires Registered(spec)
    ensures spec.file in Erased(s, opts).files <==>
            spec.file in s.files && (EraseHeld(s, opts) || !Planned(spec, opts))
    ensures spec.file in Erased(s, opts).files ==> Erased(s, opts).files[spec.file] == s.files[spec.file]
    ensures Erased(s, opts).holds == s.holds
  {
    hide PRIVACY_STORES, Planned, EraseHeld, HoldsBlocking, EraseScopes, WillRemove;
    PlanPartitions(opts, spec);
    EraseHeldIff(s, opts);
  }

  /** What an erase reports as removed is what it removed if and only if every file of the plan
      existed: absent files are reported just the same. */
  lemma RemovedIsGoneIff(s: State, opts: EraseOptions)
    requires !EraseHeld(s, opts)
    ensures (forall f :: f in WillRemove(opts) <==> Present(s, f) && !Present(Erased(s, opts), f)) <==>
            (forall f :: f in WillRemove(opts) ==> Present(s, f))
  {
    EraseHeldIff(s, opts);
    hide HoldsBlocking, WillRemove, EraseScopes, EraseHeld;
    forall f ensures f in WillRemove(opts) ==> !Present(Erased(s, opts), f) {
    }
    forall f ensures f !in WillRemove(opts) ==> Present(Erased(s, opts), f) == Present(s, f) {
    }
  }

  /** In an empty directory every erase reports `runs.json` as removed. */
  lemma AbsentFilesReported(opts: EraseOptions)
    ensures RUNS_FILE in WillRemove(opts)
    ensures Erased(State([], map[], None), opts) == State([], map[], None)
    ensures HoldsBlocking([], EraseScopes(opts)) == []
  {
    RunsIsRegistered();
    PlanPartitions(opts, StoreSpec("runs", RUNS_FILE, User));
    hide PRIVACY_STORES, EraseScopes, WillRemove;
  }

  lemma RunsIsRegistered()
    ensures Registered(StoreSpec("runs", RUNS_FILE, User))
  {
    assert PRIVACY_STORES[0] == StoreSpec("runs", RUNS_FILE, User);
  }

  /** The files registered before, by size, are the files registered after plus what was freed. */
  lemma BytesAreConserved(s: State, opts: EraseOptions, m: Measure)
    requires !EraseHeld(s, opts)
    ensures BytesOn(s, FilesOf(PRIVACY_STORES), m) ==
            BytesOn(Erased(s, opts), FilesOf(PRIVACY_STORES), m) + BytesOn(s, WillRemove(opts), m)
  {
    EraseHeldIff(s, opts);
    hide PRIVACY_STORES, EraseScopes, EraseHeld, Wiped, HoldsBlocking, BytesOn, BytesOf, FilesOf, Filter;
    RegisteredKeys();
    forall spec | spec in PRIVACY_STORES
      ensures BytesOf(Erased(s, opts), spec.file, m) == if Wiped(spec, opts) then 0 else BytesOf(s, spec.file, m)
    {
      BytesAfter(s, opts, spec, m);
    }
    SplitBytes(PRIVACY_STORES, s, Erased(s, opts), opts, m);
  }

  /** The sizes of the named files that exist. */
  ghost function TotalSize(s: State, names: seq<string>, m: Measure): nat {
    if names == [] then 0
    else
      var f := names[|names| - 1];
      TotalSize(s, names[..|names| - 1], m)
      + if f == "retention.json" && s.policy.Some? then m.policy(s.policy.value)
        else if f in s.files then m.file(s.files[f])
        else 0
  }

  lemma {:induction false} BytesAreSizes(s: State, names: seq<string>, m: Measure)
    requires forall i, j :: 0 <= i < j < |names| ==> names[i] != names[j]
    ensures BytesOn(s, names, m) == TotalSize(s, names, m)
  {
    if names != [] {
      BytesAreSizes(s, names[..|names| - 1], m);
    }
  }

  /** What an erase frees is the size of the existing files of its plan. */
  lemma FreedIs(s: State, opts: EraseOptions, m: Measure)
    ensures BytesOn(s, WillRemove(opts), m) == TotalSize(s, WillRemove(opts), m)
  {
    PlanCounts(opts);
    hide WillRemove, BytesOn, TotalSize;
    BytesAreSizes(s, WillRemove(opts), m);
  }

  lemma BytesAfter(s: State, opts: EraseOptions, spec: StoreSpec, m: Measure)
    requires HoldsBlocking(s.holds, EraseScopes(opts)) == [] && Registered(spec)
    ensures BytesOf(Erased(s, opts), spec.file, m) == if Wiped(spec, opts) then 0 else BytesOf(s, spec.file, m)
  {
    PlanPartitions(opts, spec);
    PlannedIff(spec, opts);
    hide PRIVACY_STORES, EraseScopes, Wiped, Planned, HoldsBlocking, WillRemove;
  }

  lemma {:induction false} SplitBytes(specs: seq<StoreSpec>, s: State, t: State, opts: EraseOptions, m: Measure)
    requires forall i, j :: 0 <= i < j < |specs| ==> specs[i].file != specs[j].file
    requires forall spec :: spec in specs ==>
               BytesOf(t, spec.file, m) == if Wiped(spec, opts) then 0 else BytesOf(s, spec.file, m)
    ensures BytesOn(s, FilesOf(specs), m) ==
            BytesOn(t, FilesOf(specs), m) + BytesOn(s, FilesOf(Filter(specs, WipedBy(opts))), m)
  {
    hide Wiped, BytesOf, BytesOn, FilesOf;
    if specs == [] {
      NoBytes(s, m);
      NoBytes(t, m);
    } else {
      var init, spec := specs[..|specs| - 1], specs[|specs| - 1];
      SplitBytes(init, s, t, opts, m);
      var wiped := Filter(init, WipedBy(opts));
      NewFile(init, spec);
      FilesOfSubset(wiped, init);
      assert specs == init + [spec];
      FilesOfSnoc(init, spec);
      BytesSnoc(s, FilesOf(init), spec.file, m);
      BytesSnoc(t, FilesOf(init), spec.file, m);
      if Wiped(spec, opts) {
        BytesSnoc(s, FilesOf(wiped), spec.file, m);
        FilesOfSnoc(wiped, spec);
      }
    }
  }

  lemma NoBytes(s: State, m: Measure)
    ensures BytesOn(s, FilesOf([]), m) == 0
  {
  }

  lemma FilesOfSnoc(specs: seq<StoreSpec>, spec: StoreSpec)
    ensures FilesOf(specs + [spec]) == FilesOf(specs) + [spec.file]
  {
  }

  lemma NewFile(init: seq<StoreSpec>, spec: StoreSpec)
    requires forall i :: 0 <= i < |init| ==> init[i].file != spec.file
    ensures spec.file !in FilesOf(init)
  {
  }

  lemma FilesOfSubset(part: seq<StoreSpec>, all: seq<StoreSpec>)
    requires forall spec :: spec in part ==> spec in all
    ensures forall f :: f in FilesOf(part) ==> f in FilesOf(all)
  {
    forall f | f in FilesOf(part) ensures f in FilesOf(all) {
      var i :| 0 <= i < |part| && FilesOf(part)[i] == f;
      assert part[i] in part;
      var j :| 0 <= j < |all| && all[j] == part[i];
      assert FilesOf(all)[j] == f;
    }
  }

  lemma BytesSnoc(s: State, names: seq<string>, f: string, m: Measure)
    requires f !in names
    ensures BytesOn(s, names + [f], m) == BytesOn(s, names, m) + BytesOf(s, f, m)
  {
    assert (names + [f])[..|names|] == names;
  }

  /** Wiping the compliance stores takes the retention policy with it: until a new one is set, every
      record is kept for ever. */
  lemma WipedPolicyKeepsEverything(s: State, opts: EraseOptions, now: int, f: string)
    requires opts.wipeCompliance && !EraseHeld(s, opts)
    ensures Erased(s, opts).policy == None
    ensures Swept(Erased(s, opts), now).files == Erased(s, opts).files
  {
    PolicyIsWiped(opts);
    EraseHeldIff(s, opts);
    hide EraseHeld, PRIVACY_STORES, HoldsBlocking, EraseScopes, WillRemove, FilterFile, SweepCounts;
  }

  lemma PolicyIsWiped(opts: EraseOptions)
    requires opts.wipeCompliance
    ensures POLICY_FILE in WillRemove(opts)
  {
    var spec := PRIVACY_STORES[15];
    PlanPartitions(opts, spec);
    assert |spec.name| == 16;
  }

  /** Exactly which settings keep runs for ever: what is not a number and numbers below 1. A number above
      the cap does not; it means ten years. */
  lemma KeptForeverIff(s: State, input: Option<real>)
    requires PolicyOf(s).runsDays == ClampDays(input)
    requires !Held(s.holds, "runs") && !Held(s.holds, "user_data")
    ensures (forall now, r :: !Goes(s, now, RUNS_FILE, r)) <==> input.None? || input.value < 1.0
    ensures input.Some? && input.value > 3650.0 ==>
              forall now, r :: Goes(s, now, RUNS_FILE, r) <==>
                r.stamp.None? || r.stamp.value < now - 3650 * 86_400_000
  {
    hide Held;
    if input.Some? && input.value >= 1.0 {
      assert Goes(s, 0, RUNS_FILE, Record(None, ""));
    }
  }
}
