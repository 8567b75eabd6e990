/** The hash-linked audit log: records, files, verification (web/lib/auditStore.ts). */
module AuditChain {
  import opened Prelude

  const MAX_LINES := 50_000
  const ROLL_TO := 25_000
  const BYTES_PER_LINE := 220

  function Zeros(n: nat): (s: string)
    ensures |s| == n
    ensures forall c :: c in s ==> c == '0'
  {
    if n == 0 then "" else ['0'] + Zeros(n - 1)
  }

  /** Hexadecimal text of a SHA-256 value. */
  type Digest = s: string | |s| == 64 witness Zeros(64)

  const GENESIS_PREV: Digest := Zeros(64)

  /** Everything of an event that its hash covers; `ts` is absent when it is not a string. */
  datatype Payload = Payload(id: string, ts: Option<int>, rest: string)

  datatype Event = Event(payload: Payload, prevHash: string, hash: string)

  /** A line of a log file: a record, or text that is not JSON. */
  datatype Line = Record(ev: Event) | Junk(text: string)

  /** The keyed hash of a link and a payload. */
  type Mac = (string, Payload) -> Digest

  predicate HasChain(e: Event) {
    |e.hash| == 64 && |e.prevHash| == 64
  }

  /** An event that carries the chain and the hash of its own content. */
  predicate RightHash(mac: Mac, e: Event) {
    HasChain(e) && e.hash == mac(e.prevHash, e.payload)
  }

  /** Number of leading events without hash fields. */
  function LegacyCount(events: seq<Event>): (k: nat)
    ensures k <= |events|
    ensures forall i :: 0 <= i < k ==> !HasChain(events[i])
    ensures k < |events| ==> HasChain(events[k])
  {
    if events == [] || HasChain(events[0]) then 0 else 1 + LegacyCount(events[1..])
  }

  lemma {:induction false} LegacyCountIs(events: seq<Event>, k: nat)
    requires k <= |events|
    requires forall i :: 0 <= i < k ==> !HasChain(events[i])
    requires k < |events| ==> HasChain(events[k])
    ensures LegacyCount(events) == k
  {
    if k > 0 {
      LegacyCountIs(events[1..], k - 1);
    }
  }

  /** Event `i` is a correct link, or stands in the legacy prefix. */
  predicate GoodAt(mac: Mac, events: seq<Event>, i: nat)
    requires i < |events|
  {
    var k, e := LegacyCount(events), events[i];
    i < k ||
    (HasChain(e) && (i > k ==> e.prevHash == events[i - 1].hash) && mac(e.prevHash, e.payload) == e.hash)
  }

  /** A legacy prefix followed by one linked segment. */
  predicate Accepts(mac: Mac, events: seq<Event>) {
    forall i :: 0 <= i < |events| ==> GoodAt(mac, events, i)
  }

  datatype Reason = MissingHash | PrevHashMismatch | HashMismatch

  function ReasonAt(events: seq<Event>, i: nat): Reason
    requires i < |events|
  {
    if !HasChain(events[i]) then MissingHash
    else if i > LegacyCount(events) && events[i].prevHash != events[i - 1].hash then PrevHashMismatch
    else HashMismatch
  }

  datatype Break = Break(index: nat, id: string, reason: Reason)

  datatype VerifyResult = VerifyResult(
    checked: nat,
    skippedLegacy: nat,
    firstChained: Option<nat>,
    lastHash: Option<string>,
    break_: Option<Break>)

  /** The verifier stops at the first bad event and says why; otherwise it has checked them all. */
  predicate Reports(mac: Mac, events: seq<Event>, r: VerifyResult) {
    var k, n := LegacyCount(events), |events|;
    var stop := if r.break_.Some? then r.break_.value.index else n;
    && r.skippedLegacy == k
    && r.firstChained == (if k < n then Some(k) else None)
    && k <= stop <= n
    && (forall i :: 0 <= i < stop ==> GoodAt(mac, events, i))
    && r.checked == stop - k
    && r.lastHash == (if k < stop then Some(events[stop - 1].hash) else None)
    && (r.break_.Some? ==>
          && stop < n
          && !GoodAt(mac, events, stop)
          && r.break_.value == Break(stop, events[stop].payload.id, ReasonAt(events, stop)))
  }

  /** The loop of `verifyChain` over the parsed events. */
  method VerifyEvents(mac: Mac, events: seq<Event>) returns (r: VerifyResult)
    ensures Reports(mac, events, r)
    ensures r.break_.None? <==> Accepts(mac, events)
  {
    ghost var k := LegacyCount(events);
    var checked, skipped := 0, 0;
    var first: Option<nat>, last: Option<string> := None, None;
    var prev: string := GENESIS_PREV;
    var started := false;
    hide LegacyCount;
    for i := 0 to |events|
      invariant started <==> i > k
      invariant skipped == Min(i, k)
      invariant first == if started then Some(k) else None
      invariant checked == if started then i - k else 0
      invariant forall j :: 0 <= j < i ==> GoodAt(mac, events, j)
      invariant last == if started then Some(events[i - 1].hash) else None
      invariant started ==> prev == events[i - 1].hash
    {
      var ev := events[i];
      if !HasChain(ev) {
        if !started {
          skipped := skipped + 1;
          continue;
        }
        return VerifyResult(checked, skipped, first, last, Some(Break(i, ev.payload.id, MissingHash)));
      }
      if !started {
        started := true;
        first := Some(i);
        prev := ev.prevHash;
      }
      if ev.prevHash != prev {
        return VerifyResult(checked, skipped, first, last, Some(Break(i, ev.payload.id, PrevHashMismatch)));
      }
      if mac(ev.prevHash, ev.payload) != ev.hash {
        return VerifyResult(checked, skipped, first, last, Some(Break(i, ev.payload.id, HashMismatch)));
      }
      prev := ev.hash;
      checked := checked + 1;
      last := Some(ev.hash);
    }
    r := VerifyResult(checked, skipped, first, last, None);
  }
}
