/** What a legal hold protects, over every run of the hold, retention and privacy stores. */
module LegalHoldRuns {
  import opened Prelude
  import opened Sorting
  import opened Text
  import opened DataDir
  import Distinct
  import AuditChain

  datatype Event =
    | Open(id: string, matter: string, reason: string, scopes: seq<string>, actor: string, now: int)
    | Close(id: string, actor: string, why: string, now: int)
    | SetPolicy(update: PolicyUpdate, now: int)
    | Sweep(now: int)
    | Erase(opts: EraseOptions)
    // Some other store adds a record to one of its files.
    | Add(file: string, rec: Record)
    // The audit log is rotated if it has grown too large.
    | Rotate(sizeBytes: nat)

  function AfterOpen(holds: seq<Hold>, e: Event): seq<Hold>
    requires e.Open?
  {
    if OpenError(e.matter, e.scopes).Some? then holds
    else holds + [NewHold(e.id, e.matter, e.reason, e.scopes, e.actor, e.now)]
  }

  function AfterClose(holds: seq<Hold>, e: Event): seq<Hold>
    requires e.Close?
  {
    if ReleaseError(holds, e.id, e.why).Some? then holds
    else
      var i := Find(holds, e.id);
      holds[i := Release(holds[i], e.actor, e.why, e.now)]
  }

  function AfterAdd(files: Files, file: string, rec: Record): Files {
    if file !in files then files[file := Records([rec])]
    else if files[file].Corrupt? then files
    else files[file := Records(files[file].recs + [rec])]
  }

  /** The records of a file; a file that does not exist has none. */
  function RecordsIn(files: Files, f: string): seq<Record> {
    if f in files && files[f].Records? then files[f].recs else []
  }

  predicate Rotates(files: Files, sizeBytes: nat) {
    sizeBytes >= AuditChain.MAX_LINES * AuditChain.BYTES_PER_LINE
    && |RecordsIn(files, AUDIT_FILE)| > AuditChain.MAX_LINES
  }

  /** All but the newest lines replace the rolled file; no hold is asked. */
  function Rotated(files: Files, sizeBytes: nat): Files {
    if !Rotates(files, sizeBytes) then files
    else
      var lines := RecordsIn(files, AUDIT_FILE);
      var cut := |lines| - AuditChain.ROLL_TO;
      files[ROLLED_FILE := Records(lines[..cut])][AUDIT_FILE := Records(lines[cut..])]
  }

  function Step(s: State, e: Event): State {
    match e
    case Open(_, _, _, _, _, _) => s.(holds := AfterOpen(s.holds, e))
    case Close(_, _, _, _) => s.(holds := AfterClose(s.holds, e))
    case SetPolicy(update, now) => s.(policy := Some(UpdatedPolicy(PolicyOf(s), update, now)))
    case Sweep(now) => Swept(s, now)
    case Erase(opts) => Erased(s, opts)
    case Add(file, rec) => s.(files := AfterAdd(s.files, file, rec))
    case Rotate(size) => s.(files := Rotated(s.files, size))
  }

  function Run(s: State, log: seq<Event>): State {
    if log == [] then s else Step(Run(s, log[..|log| - 1]), log[|log| - 1])
  }

  // ----- holds are never deleted and released at most once -------------------------------------

  /** The same hold, later: unchanged once released, and otherwise at most released. */
  predicate Later(h: Hold, g: Hold) {
    if h.releasedAt.Some? then g == h
    else g == h.(releasedAt := g.releasedAt, releasedBy := g.releasedBy, releasedReason := g.releasedReason)
  }

  ghost predicate HoldsKept(before: seq<Hold>, after: seq<Hold>) {
    |before| <= |after| && forall i :: 0 <= i < |before| ==> Later(before[i], after[i])
  }

  lemma {:induction false} HoldsAreKept(s: State, log: seq<Event>)
    ensures HoldsKept(s.holds, Run(s, log).holds)
  {
    if log != [] {
      var mid := Run(s, log[..|log| - 1]);
      HoldsAreKept(s, log[..|log| - 1]);
    }
  }

  /** After a release, whatever follows, another release of the same hold is refused. */
  lemma ReleasedOnce(s: State, log: seq<Event>, i: nat, e: Event)
    requires i < |s.holds| && s.holds[i].releasedAt.Some? && Find(s.holds, s.holds[i].id) == i
    requires e.Close? && e.id == s.holds[i].id && |Trim(e.why)| >= 4
    ensures ReleaseError(Run(s, log).holds, e.id, e.why) == Some(AlreadyReleased)
    ensures Step(Run(s, log), e) == Run(s, log)
  {
    HoldsAreKept(s, log);
    var after := Run(s, log).holds;
    assert forall j :: 0 <= j < i ==> after[j].id == s.holds[j].id;
    assert after[i] == s.holds[i];
    assert Find(after, e.id) == i;
  }

  ghost predicate KnownScope(s: string) {
    s in ["runs", "audit", "webhook_deliveries", "user_data"]
  }

  lemma ScopeIsKnown(s: string)
    ensures IsScope(s) <==> KnownScope(s)
  {
    assert KnownScope(RUNS) && KnownScope(AUDIT) && KnownScope(WEBHOOKS) && KnownScope(USER_DATA);
  }

  /** The known scopes among those asked for, each once. */
  lemma ScopesAre(asked: seq<string>, s: string)
    ensures s in Scopes(asked) <==> s in asked && KnownScope(s)
    ensures forall i, j :: 0 <= i < j < |Scopes(asked)| ==> Scopes(asked)[i] != Scopes(asked)[j]
  {
    hide KnownScope, IsScope;
    ScopeIsKnown(s);
    var known := Filter(asked, IsScope);
    if s in known {
      Distinct.FirstOccurrencesCover(known, s);
    }
  }

  /** The first `n` characters of `t`. */
  ghost predicate CutTo(s: string, t: string, n: nat) {
    s <= t && |s| == Min(|t|, n)
  }

  /** When a hold is opened, and what it then says. */
  lemma OpenedIs(id: string, matter: string, reason: string, scopes: seq<string>, actor: string, now: int)
    ensures OpenError(matter, scopes) ==
            if !(1 <= |Trim(matter)| <= 200) then Some(MatterRequired)
            else if !(exists s :: s in scopes && KnownScope(s)) then Some(ScopesRequired)
            else None
    ensures var h := NewHold(id, matter, reason, scopes, actor, now);
            && h.id == id && h.matter == Trim(matter) && CutTo(h.reason, reason, 1000)
            && (forall s :: s in h.scopes <==> s in scopes && KnownScope(s))
            && h.openedAt == now && h.openedBy == (if actor == "" then "unknown" else actor)
            && h.releasedAt == None && h.releasedBy == None && h.releasedReason == None
  {
    hide Trim, Scopes, KnownScope;
    forall s: string ensures s in Scopes(scopes) <==> s in scopes && KnownScope(s) {
      ScopesAre(scopes, s);
    }
    if Scopes(scopes) != [] {
      assert Scopes(scopes)[0] in Scopes(scopes);
    }
  }

  /** The first hold with this id is at `i`. */
  ghost predicate FirstWithId(holds: seq<Hold>, id: string, i: nat) {
    i < |holds| && holds[i].id == id && forall j :: 0 <= j < i ==> holds[j].id != id
  }

  /** When a hold is released, and what it then says. */
  lemma ReleasedIs(holds: seq<Hold>, id: string, actor: string, why: string, now: int)
    ensures |Trim(why)| < 4 ==> ReleaseError(holds, id, why) == Some(ReleaseReasonRequired)
    ensures |Trim(why)| >= 4 && (forall i :: 0 <= i < |holds| ==> holds[i].id != id) ==>
              ReleaseError(holds, id, why) == Some(NotFound)
    ensures |Trim(why)| >= 4 ==> forall i: nat :: FirstWithId(holds, id, i) ==>
              && ReleaseError(holds, id, why) == (if holds[i].releasedAt == None then None else Some(AlreadyReleased))
              && Find(holds, id) == i
    ensures forall h: Hold ::
              var g := Release(h, actor, why, now);
              && g == h.(releasedAt := Some(now), releasedBy := g.releasedBy, releasedReason := g.releasedReason)
              && g.releasedBy == Some(if actor == "" then "unknown" else actor)
              && g.releasedReason.Some? && CutTo(g.releasedReason.value, Trim(why), 1000)
  {
    hide Trim, Find;
    forall i: nat | FirstWithId(holds, id, i) ensures Find(holds, id) == i {
      var k := Find(holds, id);
      assert k < |holds| ==> holds[k].id == id;
    }
  }

  // ----- what is protected ---------------------------------------------------------------------

  /** The files, and so the records, that a hold on these scopes keeps. */
  ghost predicate Protected(scopes: seq<string>, f: string) {
    forall spec {:trigger Registered(spec)} :: Registered(spec) && spec.file == f ==> ProtectedStore(scopes, spec)
  }

  predicate ProtectedStore(scopes: seq<string>, spec: StoreSpec) {
    if spec.category.User? then "runs" in scopes || "user_data" in scopes
    else if spec.name == "audit" || spec.name == "audit_rolled" then "audit" in scopes
    else if spec.file == "webhook-deliveries.json" then "webhook_deliveries" in scopes
    else "runs" in scopes || "user_data" in scopes || "webhook_deliveries" in scopes
  }

  /** Every record of `f` is still there, in place; records may have been added behind them. */
  ghost predicate Keeps(before: Files, after: Files, f: string) {
    f in before ==>
      f in after &&
      match before[f]
      case Corrupt(_) => after[f] == before[f]
      case Records(recs) => after[f].Records? && recs <= after[f].recs
  }

  lemma KeepsTransitive(a: Files, b: Files, c: Files, f: string)
    requires Keeps(a, b, f) && Keeps(b, c, f)
    ensures Keeps(a, c, f)
  {
  }

  lemma {:induction false} BlockingNonempty(holds: seq<Hold>, h: Hold, scopes: seq<string>, s: string)
    requires h in holds && Unreleased(h) && s in h.scopes && s in scopes
    ensures HoldsBlocking(holds, scopes) != []
  {
    assert Blocks(h, scopes);
    assert h in HoldsBlocking(holds, scopes);
  }

  /** The file names of the swept stores belong to those stores. */
  lemma {:induction false} SweptStores()
    ensures Registered(StoreSpec("runs", RUNS_FILE, User))
    ensures Registered(StoreSpec("audit", AUDIT_FILE, Compliance))
    ensures Registered(StoreSpec("audit_rolled", ROLLED_FILE, Compliance))
    ensures Registered(StoreSpec("webhook_deliveries", WEBHOOKS_FILE, Compliance))
  {
    var p := PRIVACY_STORES;
    assert p[0] in p && p[10] in p && p[11] in p && p[17] in p;
  }

  lemma {:induction false} RunsSweepKeeps(s: State, now: int, h: Hold, f: string)
    requires h in s.holds && Unreleased(h) && Protected(h.scopes, f)
    ensures Keeps(s.files, SweepRuns(s, now), f)
  {
    hide HoldsBlocking, Filter, PRIVACY_STORES;
    if f == RUNS_FILE {
      SweptStores();
      var spec := StoreSpec("runs", RUNS_FILE, User);
      assert ProtectedStore(h.scopes, spec);
      BlockingNonempty(s.holds, h, [RUNS, USER_DATA], if RUNS in h.scopes then RUNS else USER_DATA);
    }
  }

  lemma {:induction false} AuditSweepKeeps(s: State, now: int, h: Hold, f: string)
    requires h in s.holds && Unreleased(h) && Protected(h.scopes, f)
    ensures Keeps(s.files, SweepAudit(s, now), f)
  {
    hide HoldsBlocking, Filter, PRIVACY_STORES;
    if f == AUDIT_FILE || f == ROLLED_FILE {
      SweptStores();
      assert ProtectedStore(h.scopes, StoreSpec(if f == AUDIT_FILE then "audit" else "audit_rolled", f, Compliance));
      BlockingNonempty(s.holds, h, [AUDIT], AUDIT);
    }
  }

  lemma {:induction false} WebhookSweepKeeps(s: State, now: int, h: Hold, f: string)
    requires h in s.holds && Unreleased(h) && Protected(h.scopes, f)
    ensures Keeps(s.files, SweepWebhooks(s, now), f)
  {
    hide HoldsBlocking, Filter, PRIVACY_STORES;
    if f == WEBHOOKS_FILE {
      SweptStores();
      assert ProtectedStore(h.scopes, StoreSpec("webhook_deliveries", f, Compliance));
      BlockingNonempty(s.holds, h, [WEBHOOKS], WEBHOOKS);
    }
  }

  lemma {:induction false} SweepKeeps(s: State, now: int, h: Hold, f: string)
    requires h in s.holds && Unreleased(h) && Protected(h.scopes, f)
    ensures Keeps(s.files, SweptFiles(s, now), f)
  {
    hide HoldsBlocking, SweepRuns, SweepAudit, SweepWebhooks, Protected, Keeps;
    var s1 := s.(files := SweepRuns(s, now));
    var s2 := s1.(files := SweepAudit(s1, now));
    RunsSweepKeeps(s, now, h, f);
    AuditSweepKeeps(s1, now, h, f);
    WebhookSweepKeeps(s2, now, h, f);
    KeepsTransitive(s.files, s1.files, s2.files, f);
    KeepsTransitive(s.files, s2.files, SweepWebhooks(s2, now), f);
  }

  /** A protected store is only ever in the plan of an erase that its hold blocks. */
  lemma {:induction false} EraseBlocked(holds: seq<Hold>, h: Hold, spec: StoreSpec, opts: EraseOptions)
    requires h in holds && Unreleased(h) && ProtectedStore(h.scopes, spec)
    requires Wiped(spec, opts)
    ensures HoldsBlocking(holds, EraseScopes(opts)) != []
  {
    hide HoldsBlocking;
    var scopes := EraseScopes(opts);
    if RUNS in h.scopes {
      BlockingNonempty(holds, h, scopes, RUNS);
    } else if USER_DATA in h.scopes {
      BlockingNonempty(holds, h, scopes, USER_DATA);
    } else if WEBHOOKS in h.scopes && opts.wipeCompliance {
      BlockingNonempty(holds, h, scopes, WEBHOOKS);
    } else {
      BlockingNonempty(holds, h, scopes, AUDIT);
    }
  }

  lemma {:induction false} PlanFile(opts: EraseOptions, f: string) returns (spec: StoreSpec)
    requires f in WillRemove(opts)
    ensures Registered(spec) && spec.file == f && Wiped(spec, opts)
  {
    hide PRIVACY_STORES;
    var specs := Filter(PRIVACY_STORES, WipedBy(opts));
    var i :| 0 <= i < |specs| && FilesOf(specs)[i] == f;
    spec := specs[i];
  }

  lemma EraseKeeps(s: State, opts: EraseOptions, h: Hold, f: string)
    requires h in s.holds && Unreleased(h) && Protected(h.scopes, f)
    ensures Keeps(s.files, Erased(s, opts).files, f)
  {
    hide HoldsBlocking, WillRemove, PRIVACY_STORES, EraseScopes, ProtectedStore;
    if f in WillRemove(opts) {
      var spec := PlanFile(opts, f);
      EraseBlocked(s.holds, h, spec, opts);
    }
  }

  lemma {:induction false} StepKeepsRecords(s: State, e: Event, h: Hold, f: string)
    requires h in s.holds && Unreleased(h) && Protected(h.scopes, f)
    requires e.Rotate? ==> f != AUDIT_FILE && f != ROLLED_FILE
    ensures Keeps(s.files, Step(s, e).files, f)
  {
    hide HoldsBlocking, SweptFiles, SweepCounts, Erased, UpdatedPolicy, Protected, AfterOpen, AfterClose;
    match e
    case Sweep(now) => SweepKeeps(s, now, h, f);
    case Erase(opts) => EraseKeeps(s, opts, h, f);
    case _ =>
  }

  /** Safety over every run: while hold `i` is not released, no record of a file it protects goes,
      whatever is opened, released, configured, swept, erased or added in between. Only a rotation
      moves records of the two audit files, and may lose them. */
  lemma {:induction false} HoldSafety(s: State, log: seq<Event>, i: nat, f: string)
    requires i < |s.holds| && Protected(s.holds[i].scopes, f)
    requires f == AUDIT_FILE || f == ROLLED_FILE ==> forall k :: 0 <= k < |log| ==> !log[k].Rotate?
    ensures i < |Run(s, log).holds|
    ensures Unreleased(Run(s, log).holds[i]) ==> Keeps(s.files, Run(s, log).files, f)
  {
    HoldsAreKept(s, log);
    if log != [] && Unreleased(Run(s, log).holds[i]) {
      hide Step, Protected, Keeps;
      var init := log[..|log| - 1];
      var mid := Run(s, init);
      HoldsAreKept(s, init);
      assert Later(mid.holds[i], Run(s, log).holds[i]) && Later(s.holds[i], mid.holds[i]);
      HoldSafety(s, init, i, f);
      StepKeepsRecords(mid, log[|log| - 1], mid.holds[i], f);
      KeepsTransitive(s.files, mid.files, Run(s, log).files, f);
    }
  }

  // ----- the protection is exact ---------------------------------------------------------------

  const EMPTY := State([], map[], None)

  const ONE_DAY := PolicyUpdate(Some(Some(1.0)), Some(Some(1.0)), Some(Some(1.0)))

  /** In a new directory: open a hold, keep everything for a day, and add one old record to `f`. */
  function Setup(open: Event, f: string): seq<Event> {
    [open, SetPolicy(ONE_DAY, 0), Add(f, Record(Some(0), ""))]
  }

  /** The directory then: only this hold is open and `f` has one old record. */
  function Example(h: Hold, f: string): State {
    State([h], map[f := Records([Record(Some(0), "")])], Some(Policy(1, 1, 1, 0, None, None)))
  }

  lemma OneDay()
    ensures UpdatedPolicy(DEFAULT_POLICY, ONE_DAY, 0) == Policy(1, 1, 1, 0, None, None)
  {
  }

  lemma SetupReaches(open: Event, f: string)
    requires open.Open? && OpenError(open.matter, open.scopes).None?
    ensures Run(EMPTY, Setup(open, f)) ==
            Example(NewHold(open.id, open.matter, open.reason, open.scopes, open.actor, open.now), f)
  {
    hide UpdatedPolicy, OpenError, NewHold;
    OneDay();
    var log := Setup(open, f);
    assert log[..3] == log && log[..2] == [open, SetPolicy(ONE_DAY, 0)];
    assert log[..2][..1] == [open] && log[..1][..0] == [];
    assert Run(EMPTY, []) == EMPTY;
    assert Run(EMPTY, [open]) == Step(EMPTY, open);
    assert Run(EMPTY, log[..2]) == Step(Step(EMPTY, open), SetPolicy(ONE_DAY, 0));
  }

  lemma {:induction false} NotBlocking(h: Hold, scopes: seq<string>)
    requires forall s :: s in scopes ==> s !in h.scopes
    ensures HoldsBlocking([h], scopes) == []
  {
    FilterNone([h], BlockedBy(scopes));
  }

  lemma {:induction false} EmptyAfterFilter(files: Files, name: string, keep: Record -> bool, r: Record)
    requires name in files && files[name] == Records([r]) && !keep(r)
    ensures FilterFile(files, name, keep)[name] == Records([])
  {
    FilterNone([r], keep);
  }

  lemma {:induction false} SweepLoses(h: Hold, f: string)
    requires f == AUDIT_FILE || f == ROLLED_FILE ==> AUDIT !in h.scopes
    requires f == WEBHOOKS_FILE ==> WEBHOOKS !in h.scopes
    requires f == AUDIT_FILE || f == ROLLED_FILE || f == WEBHOOKS_FILE
    ensures !Keeps(Example(h, f).files, SweptFiles(Example(h, f), 2 * DAY_MS), f)
  {
    hide HoldsBlocking, Filter, FilterFile;
    var s, now, r := Example(h, f), 2 * DAY_MS, Record(Some(0), "");
    var s1 := s.(files := SweepRuns(s, now));
    var s2 := s1.(files := SweepAudit(s1, now));
    assert s1.files[f] == Records([r]);
    if f == WEBHOOKS_FILE {
      NotBlocking(h, [WEBHOOKS]);
      assert s2.files[f] == Records([r]);
      EmptyAfterFilter(s2.files, f, FreshSince(Cutoff(1, now)), r);
    } else {
      NotBlocking(h, [AUDIT]);
      var keep := NotOldSince(Cutoff(1, now));
      if f == AUDIT_FILE {
        EmptyAfterFilter(s1.files, f, keep, r);
      } else {
        EmptyAfterFilter(FilterFile(s1.files, AUDIT_FILE, keep), f, keep, r);
      }
      assert SweepAudit(s1, now)[f] == Records([]);
    }
  }

  lemma {:induction false} EraseLoses(h: Hold, spec: StoreSpec, opts: EraseOptions)
    requires Registered(spec) && Wiped(spec, opts)
    requires forall s :: s in EraseScopes(opts) ==> s !in h.scopes
    ensures !Keeps(Example(h, spec.file).files, Erased(Example(h, spec.file), opts).files, spec.file)
  {
    hide PRIVACY_STORES, Filter, HoldsBlocking, EraseScopes, Wiped;
    NotBlocking(h, EraseScopes(opts));
  }

  lemma {:induction false} ExampleLoses(h: Hold, f: string) returns (e: Event)
    requires !Protected(h.scopes, f)
    ensures e.Sweep? || e.Erase?
    ensures !Keeps(Example(h, f).files, Step(Example(h, f), e).files, f)
  {
    hide PRIVACY_STORES, EraseScopes, Erased, SweptFiles, SweepCounts, Keeps, DEFAULT_POLICY;
    var spec :| Registered(spec) && spec.file == f && !ProtectedStore(h.scopes, spec);
    if spec.category.User? {
      e := Erase(EraseOptions(false, false));
      UserScopes();
      EraseLoses(h, spec, EraseOptions(false, false));
    } else if spec.name == "audit" || spec.name == "audit_rolled" {
      AuditFilesAre(spec);
      e := Sweep(2 * DAY_MS);
      SweepLoses(h, f);
    } else if f == WEBHOOKS_FILE {
      e := Sweep(2 * DAY_MS);
      SweepLoses(h, f);
    } else {
      e := Erase(EraseOptions(true, false));
      ComplianceScopes();
      EraseLoses(h, spec, EraseOptions(true, false));
    }
  }

  lemma HoldsUntouched(s: State, e: Event)
    requires e.Sweep? || e.Erase?
    ensures Step(s, e).holds == s.holds
  {
    hide SweptFiles, SweepCounts, WillRemove, HoldsBlocking, EraseScopes;
  }

  /** The run opens this hold first, ends with only this hold open, and event `e` then takes a record
      from `f`, which leaves the hold open. */
  ghost predicate LosesUnder(open: Event, f: string, log: seq<Event>, e: Event)
    requires open.Open?
  {
    var s := Run(EMPTY, log);
    && log != [] && log[0] == open
    && |s.holds| == 1 && Unreleased(s.holds[0]) && s.holds[0].scopes == Scopes(open.scopes)
    && Step(s, e).holds == s.holds
    && !Keeps(s.files, Step(s, e).files, f)
  }

  /** Whatever hold is opened, each file that it does not protect can lose its records while the hold
      is open, in a run from an empty directory: the protection of `HoldSafety` is all there is. */
  lemma ProtectionIsExact(open: Event, f: string)
    requires open.Open? && OpenError(open.matter, open.scopes).None? && !Protected(Scopes(open.scopes), f)
    ensures exists log, e :: LosesUnder(open, f, log, e)
  {
    hide Run, OpenError, Scopes, Protected, Keeps;
    SetupReaches(open, f);
    var h := NewHold(open.id, open.matter, open.reason, open.scopes, open.actor, open.now);
    var e := ExampleLoses(h, f);
    HoldsUntouched(Example(h, f), e);
    assert LosesUnder(open, f, Setup(open, f), e);
  }

  lemma UserScopes()
    ensures EraseScopes(EraseOptions(false, false)) == [RUNS, USER_DATA]
  {
  }

  lemma ComplianceScopes()
    ensures EraseScopes(EraseOptions(true, false)) == [RUNS, USER_DATA, WEBHOOKS]
  {
  }

  lemma AuditFilesAre(spec: StoreSpec)
    requires Registered(spec) && (spec.name == "audit" || spec.name == "audit_rolled")
    ensures spec.file == AUDIT_FILE || spec.file == ROLLED_FILE
  {
  }
}
