/** The audit log as the data directory sees it: lines that are records with an optional time
    (web/lib/auditStore.ts, web/lib/retentionStore.ts). */
module AuditView {
  import opened Prelude
  import opened Sorting
  import opened AuditChain
  import opened AuditFiles
  import DataDir
  import LegalHoldRuns

  /** The text of a line and the time in it, if it can be parsed and holds one. */
  function RecordOf(l: Line, text: Line -> string): DataDir.Record {
    DataDir.Record(if l.Record? then l.ev.payload.ts else None, text(l))
  }

  function RecordsOf(lines: seq<Line>, text: Line -> string): seq<DataDir.Record> {
    if lines == [] then [] else RecordsOf(lines[..|lines| - 1], text) + [RecordOf(lines[|lines| - 1], text)]
  }

  lemma {:induction false} SweptRecords(lines: seq<Line>, cutoff: int, text: Line -> string)
    ensures Filter(RecordsOf(lines, text), DataDir.NotOldSince(cutoff)) == RecordsOf(SweepLines(lines, cutoff), text)
  {
    if lines != [] {
      var init := lines[..|lines| - 1];
      SweptRecords(init, cutoff, text);
      var all := RecordsOf(lines, text);
      assert all[..|all| - 1] == RecordsOf(init, text);
      var kept := SweepLines(init, cutoff);
      assert forall l: Line :: (kept + [l])[..|kept|] == kept;
    }
  }

  lemma {:induction false} RecordsAt(lines: seq<Line>, text: Line -> string)
    ensures |RecordsOf(lines, text)| == |lines|
    ensures forall i :: 0 <= i < |lines| ==> RecordsOf(lines, text)[i] == RecordOf(lines[i], text)
  {
    if lines != [] {
      RecordsAt(lines[..|lines| - 1], text);
    }
  }

  lemma RecordsCut(lines: seq<Line>, k: nat, text: Line -> string)
    requires k <= |lines|
    ensures |RecordsOf(lines, text)| == |lines|
    ensures RecordsOf(lines[..k], text) == RecordsOf(lines, text)[..k]
    ensures RecordsOf(lines[k..], text) == RecordsOf(lines, text)[k..]
  {
    RecordsAt(lines, text);
    RecordsAt(lines[..k], text);
    RecordsAt(lines[k..], text);
  }

  /** The two audit files of the directory hold this log; a file without lines may be missing. */
  ghost predicate Shows(files: DataDir.Files, log: Log, text: Line -> string) {
    && LegalHoldRuns.RecordsIn(files, DataDir.AUDIT_FILE) == RecordsOf(log.primary, text)
    && LegalHoldRuns.RecordsIn(files, DataDir.ROLLED_FILE) == RecordsOf(log.rolled, text)
  }

  lemma FilteredRecords(files: DataDir.Files, name: string, keep: DataDir.Record -> bool, f: string)
    ensures LegalHoldRuns.RecordsIn(DataDir.FilterFile(files, name, keep), f) ==
            if f == name then Filter(LegalHoldRuns.RecordsIn(files, f), keep) else LegalHoldRuns.RecordsIn(files, f)
  {
  }

  lemma DifferentFiles()
    ensures DataDir.AUDIT_FILE != DataDir.ROLLED_FILE
  {
    assert |DataDir.AUDIT_FILE| == 11 && |DataDir.ROLLED_FILE| == 13;
  }

  /** The sweep of the directory and the sweep of the chained log are one operation, so what a hold
      protects and what keeps the chain whole are statements about the same files. */
  lemma SweepsAgree(mac: Mac, files: DataDir.Files, log: Log, cutoff: int, text: Line -> string)
    requires Shows(files, log, text)
    ensures var keep := DataDir.NotOldSince(cutoff);
            Shows(DataDir.FilterFile(DataDir.FilterFile(files, DataDir.AUDIT_FILE, keep), DataDir.ROLLED_FILE, keep),
                  Apply(mac, log, Sweep(cutoff)), text)
  {
    hide SweepLines, RecordsOf, Filter, LegalHoldRuns.RecordsIn, DataDir.FilterFile;
    SweptRecords(log.primary, cutoff, text);
    SweptRecords(log.rolled, cutoff, text);
    DifferentFiles();
    var keep := DataDir.NotOldSince(cutoff);
    var swept := DataDir.FilterFile(files, DataDir.AUDIT_FILE, keep);
    FilteredRecords(files, DataDir.AUDIT_FILE, keep, DataDir.AUDIT_FILE);
    FilteredRecords(files, DataDir.AUDIT_FILE, keep, DataDir.ROLLED_FILE);
    FilteredRecords(swept, DataDir.ROLLED_FILE, keep, DataDir.AUDIT_FILE);
    FilteredRecords(swept, DataDir.ROLLED_FILE, keep, DataDir.ROLLED_FILE);
  }

  /** So are the two rotations. */
  lemma RotationsAgree(mac: Mac, files: DataDir.Files, log: Log, sizeBytes: nat, text: Line -> string)
    requires Shows(files, log, text)
    ensures Shows(LegalHoldRuns.Rotated(files, sizeBytes), Apply(mac, log, Rotate(sizeBytes)), text)
  {
    hide RecordsOf;
    DifferentFiles();
    RecordsCut(log.primary, 0, text);
    if |log.primary| > MAX_LINES {
      RecordsCut(log.primary, |log.primary| - ROLL_TO, text);
    }
  }
}
