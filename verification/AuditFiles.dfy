/** The two log files, the cached last hash, and every operation on them
    (web/lib/auditStore.ts, web/lib/retentionStore.ts). */
module AuditFiles {
  import opened Prelude
  import opened Sorting
  import opened AuditChain

  datatype Log = Log(rolled: seq<Line>, primary: seq<Line>, cache: Option<Digest>) {
    function All(): seq<Line> {
      rolled + primary
    }
  }

  /** The parsed events of some lines; lines that are not JSON are skipped. */
  function Events(lines: seq<Line>): seq<Event> {
    if lines == [] then []
    else
      var init, l := Events(lines[..|lines| - 1]), lines[|lines| - 1];
      if l.Record? then init + [l.ev] else init
  }

  /** The hash of the last stored record that has one. */
  function LastStored(lines: seq<Line>): Option<Digest> {
    if lines == [] then None
    else
      var l := lines[|lines| - 1];
      if l.Record? && |l.ev.hash| == 64 then Some(l.ev.hash) else LastStored(lines[..|lines| - 1])
  }

  function LastChainedHash(log: Log): Digest {
    if log.cache.Some? then log.cache.value
    else if LastStored(log.primary).Some? then LastStored(log.primary).value
    else GENESIS_PREV
  }

  function NextEvent(mac: Mac, log: Log, p: Payload): Event {
    Event(p, LastChainedHash(log), mac(LastChainedHash(log), p))
  }

  /** A sweep drops the records whose timestamp is a string before the cutoff. */
  predicate Survives(l: Line, cutoff: int) {
    l.Record? && l.ev.payload.ts.Some? ==> l.ev.payload.ts.value >= cutoff
  }

  function SweepLines(lines: seq<Line>, cutoff: int): seq<Line> {
    Filter(lines, (l: Line) => Survives(l, cutoff))
  }

  datatype Step =
    | Append(p: Payload)
    | Rotate(sizeBytes: nat)
    | Sweep(cutoff: int)
    | Restart

  function Apply(mac: Mac, log: Log, s: Step): Log {
    match s
    case Append(p) =>
      var e := NextEvent(mac, log, p);
      Log(log.rolled, log.primary + [Record(e)], Some(mac(e.prevHash, p)))
    case Rotate(size) =>
      if size < MAX_LINES * BYTES_PER_LINE || |log.primary| <= MAX_LINES then log
      else
        var cut := |log.primary| - ROLL_TO;
        Log(log.primary[..cut], log.primary[cut..], log.cache)
    case Sweep(cutoff) =>
      Log(SweepLines(log.rolled, cutoff), SweepLines(log.primary, cutoff), log.cache)
    case Restart =>
      log.(cache := None)
  }

  /** The log object: its fields change as the module state and the files of the source do. */
  class AuditLog {
    var rolled: seq<Line>
    var primary: seq<Line>
    var lastChainHashCache: Option<Digest>
    const mac: Mac

    constructor (mac: Mac, rolled: seq<Line>, primary: seq<Line>)
      ensures State() == Log(rolled, primary, None) && this.mac == mac
    {
      this.mac := mac;
      this.rolled, this.primary, this.lastChainHashCache := rolled, primary, None;
    }

    function State(): Log
      reads this
    {
      Log(rolled, primary, lastChainHashCache)
    }

    method FindLastChainedHash() returns (h: Digest)
      modifies `lastChainHashCache
      ensures h == LastChainedHash(old(State()))
      ensures lastChainHashCache == old(lastChainHashCache) ||
              (old(lastChainHashCache).None? && lastChainHashCache == LastStored(primary))
    {
      if lastChainHashCache.Some? {
        return lastChainHashCache.value;
      }
      assert primary[..|primary|] == primary;
      for i := |primary| downto 0
        invariant primary == old(primary)
        invariant LastStored(primary) == LastStored(primary[..i])
        invariant lastChainHashCache.None?
      {
        assert primary[..i + 1][..i] == primary[..i];
        if primary[i].Record? && |primary[i].ev.hash| == 64 {
          lastChainHashCache := Some(primary[i].ev.hash);
          return primary[i].ev.hash;
        }
      }
      h := GENESIS_PREV;
    }

    method RecordAuditEvent(p: Payload) returns (ev: Event)
      modifies this
      ensures State() == Apply(mac, old(State()), Append(p))
      ensures ev == NextEvent(mac, old(State()), p)
    {
      var prev := FindLastChainedHash();
      var hash := mac(prev, p);
      ev := Event(p, prev, hash);
      lastChainHashCache := Some(hash);
      primary := primary + [Record(ev)];
    }

    method MaybeRotate(sizeBytes: nat)
      modifies this
      ensures State() == Apply(mac, old(State()), Rotate(sizeBytes))
    {
      if sizeBytes < MAX_LINES * BYTES_PER_LINE {
        return;
      }
      if |primary| <= MAX_LINES {
        return;
      }
      var keep := primary[|primary| - ROLL_TO..];
      var moved := primary[..|primary| - ROLL_TO];
      rolled := moved;
      primary := keep;
    }

    method SweepAuditFiles(cutoff: int) returns (total: nat)
      modifies this
      ensures State() == Apply(mac, old(State()), Sweep(cutoff))
      ensures total == |old(rolled)| + |old(primary)| - |rolled| - |primary|
    {
      var keep, removed := SweepFile(primary, cutoff);
      primary := keep;
      total := removed;
      keep, removed := SweepFile(rolled, cutoff);
      rolled := keep;
      total := total + removed;
    }

    method Restart()
      modifies `lastChainHashCache
      ensures State() == Apply(mac, old(State()), Step.Restart)
    {
      lastChainHashCache := None;
    }

    method VerifyChain() returns (r: VerifyResult)
      ensures Reports(mac, Events(State().All()), r)
      ensures r.break_.None? <==> Accepts(mac, Events(State().All()))
    {
      var events := ReadAllLines(rolled + primary);
      r := VerifyEvents(mac, events);
    }
  }

  method SweepFile(lines: seq<Line>, cutoff: int) returns (keep: seq<Line>, removed: nat)
    ensures keep == SweepLines(lines, cutoff)
    ensures removed == |lines| - |keep|
  {
    keep, removed := [], 0;
    for i := 0 to |lines|
      invariant keep == SweepLines(lines[..i], cutoff)
      invariant removed == i - |keep|
    {
      assert lines[..i + 1][..i] == lines[..i];
      if lines[i].Record? && lines[i].ev.payload.ts.Some? && lines[i].ev.payload.ts.value < cutoff {
        removed := removed + 1;
      } else {
        keep := keep + [lines[i]];
      }
    }
    assert lines[..|lines|] == lines;
  }

  method ReadAllLines(lines: seq<Line>) returns (out: seq<Event>)
    ensures out == Events(lines)
  {
    out := [];
    for i := 0 to |lines|
      invariant out == Events(lines[..i])
    {
      assert lines[..i + 1][..i] == lines[..i];
      if lines[i].Record? {
        out := out + [lines[i].ev];
      }
    }
    assert lines[..|lines|] == lines;
  }
}
