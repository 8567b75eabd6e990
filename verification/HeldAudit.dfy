/** The audit log under a legal hold: what a rotation does to held lines (web/lib/auditStore.ts,
    web/lib/legalHoldStore.ts). */
module HeldAudit {
  import opened Prelude
  import opened DataDir
  import opened LegalHoldRuns
  import AuditChain

  /** The lines of both audit files, oldest first. */
  function AuditLines(files: Files): seq<Record> {
    RecordsIn(files, ROLLED_FILE) + RecordsIn(files, AUDIT_FILE)
  }

  /** The rotation does not take place, or there is no older rolled file to replace. */
  predicate Harmless(files: Files, sizeBytes: nat) {
    !Rotates(files, sizeBytes) || RecordsIn(files, ROLLED_FILE) == []
  }

  lemma TwoFiles()
    ensures AUDIT_FILE != ROLLED_FILE
  {
    assert |AUDIT_FILE| == 11 && |ROLLED_FILE| == 13;
  }

  /** A rotation that is not harmless loses exactly the lines of the rolled file, whatever is held. */
  lemma RotationLoses(files: Files, sizeBytes: nat)
    ensures Harmless(files, sizeBytes) ==> AuditLines(Rotated(files, sizeBytes)) == AuditLines(files)
    ensures !Harmless(files, sizeBytes) ==>
              RecordsIn(files, ROLLED_FILE) != [] &&
              AuditLines(files) == RecordsIn(files, ROLLED_FILE) + AuditLines(Rotated(files, sizeBytes))
  {
    TwoFiles();
    hide AUDIT_FILE, ROLLED_FILE;
    if Rotates(files, sizeBytes) {
      var lines := RecordsIn(files, AUDIT_FILE);
      var cut := |lines| - AuditChain.ROLL_TO;
      assert AuditLines(Rotated(files, sizeBytes)) == lines[..cut] + lines[cut..] == lines;
      assert [] + lines == lines;
    }
  }

  lemma AuditProtected(scopes: seq<string>, f: string)
    requires AUDIT in scopes && (f == AUDIT_FILE || f == ROLLED_FILE)
    ensures Protected(scopes, f)
  {
    forall spec | Registered(spec) && spec.file == f ensures ProtectedStore(scopes, spec) {
      AuditSpec(spec, f);
    }
  }

  lemma AuditSpec(spec: StoreSpec, f: string)
    requires Registered(spec) && spec.file == f && (f == AUDIT_FILE || f == ROLLED_FILE)
    ensures spec.category.Compliance? && (spec.name == "audit" || spec.name == "audit_rolled")
  {
  }

  lemma KeptRecords(before: Files, after: Files, f: string)
    requires Keeps(before, after, f)
    ensures multiset(RecordsIn(before, f)) <= multiset(RecordsIn(after, f))
  {
    var a, b := RecordsIn(before, f), RecordsIn(after, f);
    assert b == a + b[|a|..];
  }

  lemma StepKeepsAudit(s: State, e: Event, h: Hold)
    requires h in s.holds && Unreleased(h) && AUDIT in h.scopes
    requires e.Rotate? ==> Harmless(s.files, e.sizeBytes)
    ensures multiset(AuditLines(s.files)) <= multiset(AuditLines(Step(s, e).files))
  {
    hide Harmless, Rotated, Protected, Keeps, RecordsIn, AUDIT_FILE, ROLLED_FILE;
    if e.Rotate? {
      RotationLoses(s.files, e.sizeBytes);
    } else {
      AuditProtected(h.scopes, AUDIT_FILE);
      AuditProtected(h.scopes, ROLLED_FILE);
      hide Step;
      StepKeepsRecords(s, e, h, AUDIT_FILE);
      StepKeepsRecords(s, e, h, ROLLED_FILE);
      KeptRecords(s.files, Step(s, e).files, AUDIT_FILE);
      KeptRecords(s.files, Step(s, e).files, ROLLED_FILE);
    }
  }

  ghost predicate HarmlessRun(s: State, log: seq<Event>) {
    forall k :: 0 <= k < |log| && log[k].Rotate? ==> Harmless(Run(s, log[..k]).files, log[k].sizeBytes)
  }

  /** While an audit hold is open, no line of the two audit files is removed by any run in which every
      rotation is harmless. */
  lemma {:induction false} HeldLinesStay(s: State, log: seq<Event>, i: nat)
    requires i < |s.holds| && AUDIT in s.holds[i].scopes && HarmlessRun(s, log)
    ensures i < |Run(s, log).holds|
    ensures Unreleased(Run(s, log).holds[i]) ==>
              multiset(AuditLines(s.files)) <= multiset(AuditLines(Run(s, log).files))
  {
    HoldsAreKept(s, log);
    if log != [] && Unreleased(Run(s, log).holds[i]) {
      hide Step, AuditLines, Harmless;
      var init, e := log[..|log| - 1], log[|log| - 1];
      var mid := Run(s, init);
      HoldsAreKept(s, init);
      assert Later(mid.holds[i], Run(s, log).holds[i]) && Later(s.holds[i], mid.holds[i]);
      forall k | 0 <= k < |init| && init[k].Rotate? ensures Harmless(Run(s, init[..k]).files, init[k].sizeBytes) {
        assert init[..k] == log[..k];
      }
      HeldLinesStay(s, init, i);
      StepKeepsAudit(mid, e, mid.holds[i]);
    }
  }

  // ----- a held line is lost -------------------------------------------------------------------

  /** `n` further lines for the audit log. */
  function Lines(n: nat): seq<Event> {
    if n == 0 then [] else Lines(n - 1) + [Add(AUDIT_FILE, Record(Some(1), ""))]
  }

  /** Only `open` is held, the rolled file has one line, and the primary one `n` other lines. */
  ghost predicate Filled(s: State, h: Hold, n: nat) {
    && s.holds == [h]
    && RecordsIn(s.files, ROLLED_FILE) == [Record(Some(0), "")]
    && |RecordsIn(s.files, AUDIT_FILE)| == n
    && (n > 0 ==> AUDIT_FILE in s.files) && (AUDIT_FILE in s.files ==> s.files[AUDIT_FILE].Records?)
    && forall r :: r in RecordsIn(s.files, AUDIT_FILE) ==> r == Record(Some(1), "")
  }

  function Beginning(open: Event): seq<Event> {
    [open, Add(ROLLED_FILE, Record(Some(0), ""))]
  }

  lemma Begun(open: Event)
    requires open.Open? && OpenError(open.matter, open.scopes).None?
    ensures Filled(Run(EMPTY, Beginning(open)),
                   NewHold(open.id, open.matter, open.reason, open.scopes, open.actor, open.now), 0)
  {
    hide OpenError, NewHold;
    TwoFiles();
    hide AUDIT_FILE, ROLLED_FILE;
    var log := Beginning(open);
    assert log[..1] == [open] && log[..1][..0] == [];
    assert Run(EMPTY, []) == EMPTY;
    assert Run(EMPTY, [open]) == Step(EMPTY, open);
  }

  lemma OneMore(s: State, h: Hold, n: nat)
    requires Filled(s, h, n)
    ensures Filled(Step(s, Add(AUDIT_FILE, Record(Some(1), ""))), h, n + 1)
  {
    TwoFiles();
    hide AUDIT_FILE, ROLLED_FILE;
  }

  lemma RunStep(s: State, log: seq<Event>, e: Event)
    ensures Run(s, log + [e]) == Step(Run(s, log), e)
  {
    hide Step;
    assert (log + [e])[..|log|] == log;
  }

  lemma {:induction false} FilledBy(open: Event, n: nat)
    requires open.Open? && OpenError(open.matter, open.scopes).None?
    ensures Filled(Run(EMPTY, Beginning(open) + Lines(n)),
                   NewHold(open.id, open.matter, open.reason, open.scopes, open.actor, open.now), n)
  {
    hide OpenError, NewHold, Run, Filled, Step;
    var start := Beginning(open);
    if n == 0 {
      Begun(open);
      assert start + Lines(0) == start;
    } else {
      FilledBy(open, n - 1);
      var before, e := start + Lines(n - 1), Add(AUDIT_FILE, Record(Some(1), ""));
      RunStep(EMPTY, before, e);
      assert start + Lines(n) == before + [e];
      var h := NewHold(open.id, open.matter, open.reason, open.scopes, open.actor, open.now);
      OneMore(Run(EMPTY, before), h, n - 1);
    }
  }

  /** The line stands in an audit file while the hold is open, and a rotation removes it, with the hold
      still open. */
  ghost predicate LosesHeldLine(s: State, sizeBytes: nat, r: Record) {
    var after := Step(s, Rotate(sizeBytes));
    && r in AuditLines(s.files) && r !in AuditLines(after.files)
    && |s.holds| == 1 && Unreleased(s.holds[0]) && after.holds == s.holds
  }

  /** Whatever hold is opened, over the audit log or not, a run from an empty directory comes to a
      rotation that removes a line of the audit log under it. */
  lemma HeldLineLost(open: Event)
    requires open.Open? && OpenError(open.matter, open.scopes).None?
    ensures var log := Beginning(open) + Lines(AuditChain.MAX_LINES + 1);
            LosesHeldLine(Run(EMPTY, log), AuditChain.MAX_LINES * AuditChain.BYTES_PER_LINE, Record(Some(0), ""))
  {
    var n, size := AuditChain.MAX_LINES + 1, AuditChain.MAX_LINES * AuditChain.BYTES_PER_LINE;
    var h := NewHold(open.id, open.matter, open.reason, open.scopes, open.actor, open.now);
    assert Unreleased(h);
    FilledBy(open, n);
    hide Run, OpenError, NewHold;
    var s := Run(EMPTY, Beginning(open) + Lines(n));
    FilledLoses(s, h, n, size);
  }

  lemma FilledLoses(s: State, h: Hold, n: nat, size: nat)
    requires Filled(s, h, n) && Unreleased(h) && n > AuditChain.MAX_LINES
    requires size >= AuditChain.MAX_LINES * AuditChain.BYTES_PER_LINE
    ensures LosesHeldLine(s, size, Record(Some(0), ""))
  {
    TwoFiles();
    hide AUDIT_FILE, ROLLED_FILE;
    var lines := RecordsIn(s.files, AUDIT_FILE);
    var cut := n - AuditChain.ROLL_TO;
    RotationLoses(s.files, size);
    assert Record(Some(0), "") in RecordsIn(s.files, ROLLED_FILE);
    forall r | r in AuditLines(Rotated(s.files, size)) ensures r in lines {
      assert AuditLines(Rotated(s.files, size)) == lines[..cut] + lines[cut..];
    }
  }
}
