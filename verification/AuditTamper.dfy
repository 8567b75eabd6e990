/** What an accepted log proves about its content (web/lib/auditStore.ts).

    A keyed hash with 64-digit results cannot be injective on all inputs, so nothing here assumes
    that it is: each statement assumes only that the inputs hashed in the logs at hand do not collide. */
module AuditTamper {
  import opened Prelude
  import opened AuditChain

  /** The hash inputs of two events differ only if their hashes do. */
  predicate NoCollision(mac: Mac, e: Event, f: Event) {
    mac(e.prevHash, e.payload) == mac(f.prevHash, f.payload) ==>
      e.prevHash == f.prevHash && e.payload == f.payload
  }

  ghost predicate CollisionFree(mac: Mac, xs: seq<Event>, ys: seq<Event>) {
    forall i, j :: 0 <= i < |xs| && 0 <= j < |ys| ==> NoCollision(mac, xs[i], ys[j])
  }

  /** The events that carry the chain. */
  function Chained(events: seq<Event>): seq<Event> {
    events[LegacyCount(events)..]
  }

  lemma ChainedLink(mac: Mac, events: seq<Event>, i: nat)
    requires Accepts(mac, events) && i < |Chained(events)|
    ensures var c := Chained(events);
            && HasChain(c[i])
            && c[i].hash == mac(c[i].prevHash, c[i].payload)
            && (i > 0 ==> c[i].prevHash == c[i - 1].hash)
  {
    assert GoodAt(mac, events, LegacyCount(events) + i);
  }

  /** The last hash determines the chain: of two accepted logs with the same last hash, the chain
      of the one with fewer chained events is the end of the other's. */
  lemma {:induction false} LastHashDetermines(mac: Mac, a: seq<Event>, b: seq<Event>, n: nat)
    requires Accepts(mac, a) && Accepts(mac, b) && CollisionFree(mac, Chained(a), Chained(b))
    requires n <= |Chained(a)| && n <= |Chained(b)|
    requires n > 0 ==> Chained(a)[|Chained(a)| - 1].hash == Chained(b)[|Chained(b)| - 1].hash
    ensures Chained(a)[|Chained(a)| - n..] == Chained(b)[|Chained(b)| - n..]
  {
    hide Accepts, CollisionFree, Chained;
    if n > 0 {
      var x, y := Chained(a), Chained(b);
      LastHashDetermines(mac, a, b, n - 1);
      SameHashHere(mac, a, b, |x| - n, |y| - n);
    }
  }

  /** Chained events followed by the same events, or by none but with the same hash, are equal. */
  lemma SameHashHere(mac: Mac, a: seq<Event>, b: seq<Event>, i: nat, j: nat)
    requires Accepts(mac, a) && Accepts(mac, b) && CollisionFree(mac, Chained(a), Chained(b))
    requires i < |Chained(a)| && j < |Chained(b)|
    requires Chained(a)[i + 1..] == Chained(b)[j + 1..]
    requires Chained(a)[|Chained(a)| - 1].hash == Chained(b)[|Chained(b)| - 1].hash
    ensures Chained(a)[i] == Chained(b)[j]
  {
    var x, y := Chained(a), Chained(b);
    if i + 1 < |x| {
      ChainedLink(mac, a, i + 1);
      ChainedLink(mac, b, j + 1);
      assert x[i + 1] == x[i + 1..][0] == y[j + 1..][0] == y[j + 1];
    } else {
      assert |y[j + 1..]| == 0;
    }
    ChainedLink(mac, a, i);
    ChainedLink(mac, b, j);
    assert NoCollision(mac, x[i], y[j]);
  }

  /** Two accepted logs with equally many chained events and the same last hash agree throughout. */
  lemma SameLastHashSameLog(mac: Mac, a: seq<Event>, b: seq<Event>)
    requires Accepts(mac, a) && Accepts(mac, b) && CollisionFree(mac, Chained(a), Chained(b))
    requires |Chained(a)| == |Chained(b)| > 0
    requires Chained(a)[|Chained(a)| - 1].hash == Chained(b)[|Chained(b)| - 1].hash
    ensures Chained(a) == Chained(b)
  {
    LastHashDetermines(mac, a, b, |Chained(a)|);
    assert Chained(a)[0..] == Chained(a) && Chained(b)[0..] == Chained(b);
  }

  /** Every event before `n` is good. */
  predicate GoodBefore(mac: Mac, events: seq<Event>, n: nat)
    requires n <= |events|
  {
    forall j :: 0 <= j < n ==> GoodAt(mac, events, j)
  }

  /** The report names the first bad event. */
  lemma ReportNames(mac: Mac, events: seq<Event>, r: VerifyResult, b: nat)
    requires Reports(mac, events, r) && b < |events|
    requires GoodBefore(mac, events, b) && !GoodAt(mac, events, b)
    ensures r.break_.Some? && r.break_.value.index == b
  {
  }

  /** What each reason says of the event that is reported, and that the three tell all breaks apart. */
  lemma ReasonsMean(mac: Mac, events: seq<Event>, r: VerifyResult)
    requires Reports(mac, events, r) && r.break_.Some?
    ensures r.break_.value.index < |events| && LegacyCount(events) <= r.break_.value.index
    ensures var b, k := r.break_.value.index, LegacyCount(events);
            var e, reason := events[b], r.break_.value.reason;
            && r.break_.value.id == e.payload.id
            && (reason == MissingHash <==> !HasChain(e))
            && (reason == PrevHashMismatch <==> HasChain(e) && b > k && e.prevHash != events[b - 1].hash)
            && (reason == HashMismatch <==>
                  HasChain(e) && (b > k ==> e.prevHash == events[b - 1].hash) && e.hash != mac(e.prevHash, e.payload))
  {
    hide LegacyCount, HasChain;
  }

  // ----- editing one event ----------------------------------------------------------------

  lemma EditedLegacyCount(es: seq<Event>, i: nat, e: Event)
    requires LegacyCount(es) < i < |es|
    ensures LegacyCount(es[i := e]) == LegacyCount(es)
  {
    LegacyCountIs(es[i := e], LegacyCount(es));
  }

  lemma EditKeepsBefore(mac: Mac, es: seq<Event>, i: nat, e: Event)
    requires Accepts(mac, es) && LegacyCount(es) < i < |es|
    ensures GoodBefore(mac, es[i := e], i)
  {
    EditedLegacyCount(es, i, e);
    var fs := es[i := e];
    forall j | 0 <= j < i ensures GoodAt(mac, fs, j) {
      assert GoodAt(mac, es, j);
    }
  }

  /** An edited event after the first chained one is found there, or at the very next event. */
  lemma {:induction false} EditDetected(mac: Mac, es: seq<Event>, i: nat, e: Event)
    requires Accepts(mac, es) && LegacyCount(es) < i < |es| - 1
    requires e != es[i] && NoCollision(mac, e, es[i])
    requires GoodAt(mac, es[i := e], i)
    ensures !GoodAt(mac, es[i := e], i + 1)
  {
    EditedLegacyCount(es, i, e);
    assert GoodAt(mac, es, i) && GoodAt(mac, es, i + 1);
  }

  /** The verifier's report on an edited interior event names it or its successor, and why: the hash
      fields are gone, the link is wrong, the hash is wrong, or, when the event was hashed anew, the
      successor no longer links to it. */
  lemma {:induction false} EditReported(mac: Mac, es: seq<Event>, i: nat, e: Event, r: VerifyResult)
    requires Accepts(mac, es) && LegacyCount(es) < i < |es| - 1
    requires e != es[i] && NoCollision(mac, e, es[i])
    requires Reports(mac, es[i := e], r)
    ensures r.break_.Some?
    ensures var where, why := r.break_.value.index, r.break_.value.reason;
            if !HasChain(e) then where == i && why == MissingHash
            else if e.prevHash != es[i - 1].hash then where == i && why == PrevHashMismatch
            else if e.hash != mac(e.prevHash, e.payload) then where == i && why == HashMismatch
            else where == i + 1 && why == PrevHashMismatch
  {
    var fs := es[i := e];
    EditedLegacyCount(es, i, e);
    EditKeepsBefore(mac, es, i, e);
    GoodLink(mac, fs, i);
    ChainedTail(mac, es, i + 1);
    hide LegacyCount, GoodAt, Reports, HasChain;
    if GoodAt(mac, fs, i) {
      EditDetected(mac, es, i, e);
      ReportNames(mac, fs, r, i + 1);
    } else {
      ReportNames(mac, fs, r, i);
    }
    ReasonsMean(mac, fs, r);
  }

  /** The first chained event is the anchor: an edit of it goes unnoticed exactly when the edit
      takes its hash fields away, which makes it part of the legacy prefix, or when it is also the
      last event and the new one carries a correct hash. */
  lemma EditFirstIff(mac: Mac, es: seq<Event>, e: Event)
    requires Accepts(mac, es) && LegacyCount(es) < |es|
    requires e != es[LegacyCount(es)] && NoCollision(mac, e, es[LegacyCount(es)])
    ensures var k := LegacyCount(es);
            Accepts(mac, es[k := e]) <==>
              !HasChain(e) || (k == |es| - 1 && e.hash == mac(e.prevHash, e.payload))
  {
    var k := LegacyCount(es);
    var fs := es[k := e];
    assert GoodAt(mac, es, k);
    if !HasChain(e) {
      StrippedFirst(mac, es, e);
    } else {
      LegacyCountIs(fs, k);
      if k + 1 < |es| {
        assert GoodAt(mac, es, k + 1);
        assert !(GoodAt(mac, fs, k) && GoodAt(mac, fs, k + 1));
      } else if e.hash == mac(e.prevHash, e.payload) {
        forall i | 0 <= i < |fs| ensures GoodAt(mac, fs, i) {
          assert GoodAt(mac, es, i);
        }
      } else {
        assert !GoodAt(mac, fs, k);
      }
    }
  }

  lemma StrippedFirst(mac: Mac, es: seq<Event>, e: Event)
    requires Accepts(mac, es) && LegacyCount(es) < |es| && !HasChain(e)
    ensures Accepts(mac, es[LegacyCount(es) := e])
  {
    var k := LegacyCount(es);
    var fs := es[k := e];
    if k + 1 < |es| {
      assert GoodAt(mac, es, k + 1);
    }
    LegacyCountIs(fs, k + 1);
    forall i | 0 <= i < |fs| ensures GoodAt(mac, fs, i) {
      assert GoodAt(mac, es, i);
    }
  }

  /** What the events around position `i` ask of an event that carries the chain. */
  predicate Fits(es: seq<Event>, i: nat, e: Event)
    requires i < |es|
  {
    && (i > LegacyCount(es) ==> e.prevHash == es[i - 1].hash)
    && (i + 1 < |es| ==> HasChain(es[i + 1]) && es[i + 1].prevHash == e.hash)
  }

  lemma ChainedTail(mac: Mac, es: seq<Event>, i: nat)
    requires Accepts(mac, es) && LegacyCount(es) <= i < |es|
    ensures RightHash(mac, es[i]) && (i > LegacyCount(es) ==> es[i].prevHash == es[i - 1].hash)
  {
    assert GoodAt(mac, es, i);
  }

  lemma GoodLink(mac: Mac, fs: seq<Event>, i: nat)
    requires i < |fs| && i >= LegacyCount(fs)
    ensures GoodAt(mac, fs, i) <==>
              RightHash(mac, fs[i]) && (i > LegacyCount(fs) ==> fs[i].prevHash == fs[i - 1].hash)
  {
  }

  lemma UnchainedEdit(mac: Mac, es: seq<Event>, i: nat, e: Event)
    requires Accepts(mac, es) && i < |es| && !HasChain(e)
    ensures Accepts(mac, es[i := e]) <==> i <= LegacyCount(es)
  {
    var k, fs := LegacyCount(es), es[i := e];
    if i == k {
      StrippedFirst(mac, es, e);
    } else {
      LegacyCountIs(fs, k);
      hide LegacyCount;
      if i > k {
        GoodLink(mac, fs, i);
      } else {
        forall j | k <= j < |fs| ensures GoodAt(mac, fs, j) {
          ChainedTail(mac, es, j);
          GoodLink(mac, fs, j);
        }
      }
    }
  }

  lemma ChainedEditCount(mac: Mac, es: seq<Event>, i: nat, e: Event)
    requires i < |es| && HasChain(e)
    ensures LegacyCount(es[i := e]) == Min(i, LegacyCount(es))
  {
    LegacyCountIs(es[i := e], Min(i, LegacyCount(es)));
  }

  lemma ChainedEdit(mac: Mac, es: seq<Event>, i: nat, e: Event)
    requires Accepts(mac, es) && i < |es| && HasChain(e)
    ensures Accepts(mac, es[i := e]) <==> RightHash(mac, e) && Fits(es, i, e)
  {
    var k, fs := LegacyCount(es), es[i := e];
    ChainedEditCount(mac, es, i, e);
    hide LegacyCount;
    GoodLink(mac, fs, i);
    if i + 1 < |fs| {
      GoodLink(mac, fs, i + 1);
    }
    if Accepts(mac, fs) {
      assert GoodAt(mac, fs, i);
      assert i + 1 < |fs| ==> GoodAt(mac, fs, i + 1);
    }
    if RightHash(mac, e) && Fits(es, i, e) {
      ChainedEditAccepted(mac, es, i, e);
    }
  }

  lemma ChainedEditAccepted(mac: Mac, es: seq<Event>, i: nat, e: Event)
    requires Accepts(mac, es) && i < |es| && RightHash(mac, e) && Fits(es, i, e)
    ensures Accepts(mac, es[i := e])
  {
    var k, fs := LegacyCount(es), es[i := e];
    ChainedEditCount(mac, es, i, e);
    NextIsChained(mac, es, i);
    hide LegacyCount;
    forall j | Min(i, k) <= j < |fs| ensures GoodAt(mac, fs, j) {
      GoodLink(mac, fs, j);
      if j >= k {
        ChainedTail(mac, es, j);
      }
    }
  }

  lemma NextIsChained(mac: Mac, es: seq<Event>, i: nat)
    requires i < |es| && (i + 1 < |es| ==> HasChain(es[i + 1]))
    ensures LegacyCount(es) <= i + 1
  {
  }

  /** Exactly which edits of one event, anywhere in an accepted log, leave it acceptable: taking the
      hash fields away from an event of the legacy prefix or from the first chained one, and putting
      in an event that carries a correct hash and fits between its neighbours. */
  lemma EditIff(mac: Mac, es: seq<Event>, i: nat, e: Event)
    requires Accepts(mac, es) && i < |es|
    ensures Accepts(mac, es[i := e]) <==>
              if HasChain(e) then RightHash(mac, e) && Fits(es, i, e) else i <= LegacyCount(es)
  {
    hide Accepts, Fits, RightHash, LegacyCount;
    if HasChain(e) {
      ChainedEdit(mac, es, i, e);
    } else {
      UnchainedEdit(mac, es, i, e);
    }
  }

  /** Without a collision no other event fits in front of a chained one: of the chained events only the
      last one can be replaced unnoticed, by an event with a correct hash and link, and the first one
      can be stripped of its hash. */
  lemma ChainedEditIff(mac: Mac, es: seq<Event>, i: nat, e: Event)
    requires Accepts(mac, es) && LegacyCount(es) <= i < |es|
    requires e != es[i] && NoCollision(mac, e, es[i])
    ensures Accepts(mac, es[i := e]) <==>
              || (i == LegacyCount(es) && !HasChain(e))
              || (i == |es| - 1 && RightHash(mac, e) && (i > LegacyCount(es) ==> e.prevHash == es[i - 1].hash))
  {
    EditIff(mac, es, i, e);
    ChainedTail(mac, es, i);
    if i + 1 < |es| {
      ChainedTail(mac, es, i + 1);
    }
    hide LegacyCount, Accepts;
  }

  // ----- dropping events --------------------------------------------------------------------

  /** Events carry distinct payloads (their ids are random) and hash without collision. */
  ghost predicate Distinct(mac: Mac, c: seq<Event>) {
    CollisionFree(mac, c, c) && forall i, j :: 0 <= i < j < |c| ==> c[i].payload != c[j].payload
  }

  function Drop(es: seq<Event>, i: nat, j: nat): seq<Event>
    requires i <= j <= |es|
  {
    es[..i] + es[j..]
  }

  lemma {:induction false} DropLegacyCount(es: seq<Event>, i: nat, j: nat)
    requires LegacyCount(es) <= i <= j <= |es|
    requires j < |es| ==> HasChain(es[j])
    ensures LegacyCount(Drop(es, i, j)) == LegacyCount(es)
  {
    LegacyCountIs(Drop(es, i, j), LegacyCount(es));
  }

  lemma {:induction false} DropBefore(mac: Mac, es: seq<Event>, i: nat, j: nat)
    requires Accepts(mac, es) && LegacyCount(es) <= i <= j <= |es|
    requires LegacyCount(Drop(es, i, j)) == LegacyCount(es)
    ensures GoodBefore(mac, Drop(es, i, j), i)
  {
    var fs := Drop(es, i, j);
    forall x | 0 <= x < i ensures GoodAt(mac, fs, x) {
      assert GoodAt(mac, es, x);
    }
  }

  /** What is left of the legacy prefix after a drop that begins within it or right behind it. */
  function LegacyLeft(es: seq<Event>, i: nat, j: nat): int {
    if j <= LegacyCount(es) then i + LegacyCount(es) - j else i
  }

  lemma EarlyDropAt(es: seq<Event>, i: nat, j: nat, x: nat)
    requires i <= j <= |es| && x < |Drop(es, i, j)|
    ensures Drop(es, i, j)[x] == if x < i then es[x] else es[x + j - i]
  {
  }

  lemma EarlyDropCount(mac: Mac, es: seq<Event>, i: nat, j: nat)
    requires Accepts(mac, es) && i <= LegacyCount(es) && i <= j <= |es|
    ensures LegacyCount(Drop(es, i, j)) == LegacyLeft(es, i, j)
  {
    hide Accepts, HasChain, Drop;
    var n, fs := LegacyLeft(es, i, j), Drop(es, i, j);
    DropLength(es, i, j);
    if LegacyCount(es) <= j < |es| {
      ChainedTail(mac, es, j);
    }
    forall x | 0 <= x < n ensures !HasChain(fs[x]) {
      EarlyDropAt(es, i, j, x);
    }
    if n < |fs| {
      EarlyDropAt(es, i, j, n);
    }
    LegacyCountIs(fs, n);
  }

  lemma DropLength(es: seq<Event>, i: nat, j: nat)
    requires i <= j <= |es|
    ensures |Drop(es, i, j)| == |es| - (j - i)
  {
  }

  lemma {:induction false} EarlyDropAccepted(mac: Mac, es: seq<Event>, i: nat, j: nat)
    requires Accepts(mac, es) && i <= LegacyCount(es) && i <= j <= |es|
    ensures Accepts(mac, Drop(es, i, j))
  {
    EarlyDropCount(mac, es, i, j);
    hide LegacyCount;
    var fs := Drop(es, i, j);
    forall x | LegacyLeft(es, i, j) <= x < |fs| ensures GoodAt(mac, fs, x) {
      GoodLink(mac, fs, x);
      ChainedTail(mac, es, x + j - i);
      assert fs[x] == es[x + j - i];
      assert x > i ==> fs[x - 1] == es[x - 1 + j - i];
    }
  }

  lemma {:induction false} DropSuffixAccepted(mac: Mac, es: seq<Event>, i: nat)
    requires Accepts(mac, es) && LegacyCount(es) < i <= |es|
    ensures Accepts(mac, Drop(es, i, |es|))
  {
    DropLegacyCount(es, i, |es|);
    DropBefore(mac, es, i, |es|);
  }

  lemma {:induction false} DistinctInputs(mac: Mac, c: seq<Event>, x: nat, y: nat)
    requires Distinct(mac, c) && x < y < |c|
    ensures mac(c[x].prevHash, c[x].payload) != mac(c[y].prevHash, c[y].payload)
  {
    assert NoCollision(mac, c[x], c[y]);
  }

  lemma {:induction false} HashesDiffer(mac: Mac, es: seq<Event>, x: nat, y: nat)
    requires Accepts(mac, es) && Distinct(mac, Chained(es))
    requires LegacyCount(es) <= x < y < |es|
    ensures es[x].hash != es[y].hash
  {
    hide LegacyCount, Accepts, Distinct;
    var k, c := LegacyCount(es), Chained(es);
    ChainedLink(mac, es, x - k);
    ChainedLink(mac, es, y - k);
    DistinctInputs(mac, c, x - k, y - k);
  }

  lemma {:induction false} GapIsBad(mac: Mac, es: seq<Event>, i: nat, j: nat)
    requires Accepts(mac, es) && LegacyCount(es) < i < j < |es|
    requires LegacyCount(Drop(es, i, j)) == LegacyCount(es) && es[i - 1].hash != es[j - 1].hash
    ensures !GoodAt(mac, Drop(es, i, j), i)
  {
    hide LegacyCount;
    var fs := Drop(es, i, j);
    assert fs[i - 1] == es[i - 1] && fs[i] == es[j];
    assert GoodAt(mac, es, j);
  }

  lemma {:induction false} DropInteriorFound(mac: Mac, es: seq<Event>, i: nat, j: nat)
    requires Accepts(mac, es) && Distinct(mac, Chained(es))
    requires LegacyCount(es) < i < j < |es|
    ensures GoodBefore(mac, Drop(es, i, j), i)
    ensures !GoodAt(mac, Drop(es, i, j), i)
  {
    hide LegacyCount, Accepts, Distinct, GoodAt, GoodBefore;
    ChainedLink(mac, es, j - LegacyCount(es));
    DropLegacyCount(es, i, j);
    DropBefore(mac, es, i, j);
    HashesDiffer(mac, es, i - 1, j - 1);
    GapIsBad(mac, es, i, j);
  }

  lemma GapReason(mac: Mac, es: seq<Event>, i: nat, j: nat, r: VerifyResult)
    requires Accepts(mac, es) && Distinct(mac, Chained(es)) && LegacyCount(es) < i < j < |es|
    requires Reports(mac, Drop(es, i, j), r) && r.break_.Some? && r.break_.value.index == i
    ensures r.break_.value.reason == PrevHashMismatch
  {
    ChainedTail(mac, es, j);
    DropLegacyCount(es, i, j);
    HashesDiffer(mac, es, i - 1, j - 1);
    hide LegacyCount, Accepts, Distinct, Reports;
    ReasonsMean(mac, Drop(es, i, j), r);
    assert Drop(es, i, j)[i] == es[j] && Drop(es, i, j)[i - 1] == es[i - 1];
  }

  /** Dropping events `i..j` is noticed exactly when chained events remain on both sides of the gap,
      and it is reported at the gap. */
  lemma {:induction false} DropDetectedIff(mac: Mac, es: seq<Event>, i: nat, j: nat, r: VerifyResult)
    requires Accepts(mac, es) && Distinct(mac, Chained(es))
    requires i < j <= |es|
    requires Reports(mac, Drop(es, i, j), r)
    ensures r.break_.Some? <==> LegacyCount(es) < i && j < |es|
    ensures r.break_.Some? ==> r.break_.value.index == i && r.break_.value.reason == PrevHashMismatch
  {
    var fs := Drop(es, i, j);
    if i <= LegacyCount(es) {
      EarlyDropAccepted(mac, es, i, j);
    } else if j == |es| {
      DropSuffixAccepted(mac, es, i);
    } else {
      DropInteriorFound(mac, es, i, j);
      ReportNames(mac, fs, r, i);
      GapReason(mac, es, i, j, r);
    }
  }
}
