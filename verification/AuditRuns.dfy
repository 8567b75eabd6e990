/** What every run of the log keeps. */
module AuditRuns {
  import opened Prelude
  import opened Sorting
  import opened AuditChain
  import opened AuditFiles

  function Run(mac: Mac, start: Log, steps: seq<Step>): Log {
    if steps == [] then start
    else Apply(mac, Run(mac, start, steps[..|steps| - 1]), steps[|steps| - 1])
  }

  /** Every record the run has appended, whether or not it is still stored. */
  function Appended(mac: Mac, start: Log, steps: seq<Step>): seq<Event> {
    if steps == [] then []
    else
      var init, s := steps[..|steps| - 1], steps[|steps| - 1];
      var before := Appended(mac, start, init);
      if s.Append? then before + [NextEvent(mac, Run(mac, start, init), s.p)] else before
  }

  predicate Linked(events: seq<Event>) {
    forall i :: 0 < i < |events| ==> events[i].prevHash == events[i - 1].hash
  }

  predicate Ordered(events: seq<Event>) {
    && (forall i :: 0 <= i < |events| ==> events[i].payload.ts.Some?)
    && (forall i, j :: 0 <= i < j < |events| ==> events[i].payload.ts.value <= events[j].payload.ts.value)
  }

  /** How many lines cannot be parsed. */
  function Unreadable(lines: seq<Line>): nat {
    if lines == [] then 0
    else Unreadable(lines[..|lines| - 1]) + if lines[|lines| - 1].Record? then 0 else 1
  }

  /** Records linked by correct hashes. */
  ghost predicate Chain(mac: Mac, c: seq<Event>) {
    Linked(c) && forall e :: e in c ==> RightHash(mac, e)
  }

  /** The readable records are `x`, from before the chain, followed by the chain `c`, whose last record
      is in the primary file; unreadable lines may stand anywhere, but are fewer than a rotation keeps. */
  ghost predicate Holds(mac: Mac, log: Log, x: seq<Event>, c: seq<Event>) {
    && Events(log.All()) == x + c
    && (forall e :: e in x ==> |e.hash| != 64)
    && Chain(mac, c)
    && (c != [] ==> Events(log.primary) != [])
    && (c != [] && log.cache.Some? ==> log.cache.value == c[|c| - 1].hash)
    && Unreadable(log.All()) < ROLL_TO
  }

  ghost predicate Suffix<T>(c: seq<T>, h: seq<T>) {
    |c| <= |h| && c == h[|h| - |c|..]
  }

  // ----- lines and records ---------------------------------------------------------------------

  lemma {:induction false} EventsAppend(a: seq<Line>, b: seq<Line>)
    ensures Events(a + b) == Events(a) + Events(b)
    ensures Unreadable(a + b) == Unreadable(a) + Unreadable(b)
  {
    if b == [] {
      assert a + b == a;
    } else {
      assert (a + b)[..|a + b| - 1] == a + b[..|b| - 1];
      EventsAppend(a, b[..|b| - 1]);
    }
  }

  lemma {:induction false} LineCount(lines: seq<Line>)
    ensures |Events(lines)| + Unreadable(lines) == |lines|
  {
    if lines != [] {
      LineCount(lines[..|lines| - 1]);
    }
  }

  lemma {:induction false} LastStoredIs(lines: seq<Line>)
    ensures Events(lines) != [] && |Events(lines)[|Events(lines)| - 1].hash| == 64 ==>
              LastStored(lines) == Some(Events(lines)[|Events(lines)| - 1].hash)
    ensures (forall e :: e in Events(lines) ==> |e.hash| != 64) ==> LastStored(lines) == None
  {
    if lines != [] {
      LastStoredIs(lines[..|lines| - 1]);
      var init, es := Events(lines[..|lines| - 1]), Events(lines);
      assert forall e :: e in init ==> e in es;
      assert lines[|lines| - 1].Record? ==> lines[|lines| - 1].ev in es;
    }
  }

  /** The last record of the chain is the last one of the primary file. */
  lemma LastRecord(mac: Mac, log: Log, x: seq<Event>, c: seq<Event>)
    requires Holds(mac, log, x, c) && c != []
    ensures Events(log.primary) != [] && Events(log.primary)[|Events(log.primary)| - 1] == c[|c| - 1]
  {
    EventsAppend(log.rolled, log.primary);
    hide Events, Unreadable, Chain;
    var all, p := x + c, Events(log.primary);
    assert all == Events(log.rolled) + p;
    assert all[|all| - 1] == c[|c| - 1] && all[|all| - 1] == p[|p| - 1];
  }

  lemma LastLink(mac: Mac, log: Log, x: seq<Event>, c: seq<Event>)
    requires Holds(mac, log, x, c)
    ensures c != [] ==> LastChainedHash(log) == c[|c| - 1].hash
    ensures c == [] && log.cache == None ==> LastChainedHash(log) == GENESIS_PREV
  {
    LastStoredIs(log.primary);
    if c != [] {
      LastRecord(mac, log, x, c);
      assert c[|c| - 1] in c && RightHash(mac, c[|c| - 1]);
    } else {
      EventsAppend(log.rolled, log.primary);
      assert x == Events(log.rolled) + Events(log.primary);
      assert forall e :: e in Events(log.primary) ==> e in x;
    }
  }

  /** The next append links to the last surviving record, also after the cache is lost, and to 64 zeros
      when nothing survives and nothing is cached. */
  lemma NextLink(mac: Mac, log: Log, x: seq<Event>, c: seq<Event>, p: Payload)
    requires Holds(mac, log, x, c)
    ensures var e := NextEvent(mac, log, p);
            && e.payload == p && e.hash == mac(e.prevHash, p)
            && (c != [] ==> e.prevHash == c[|c| - 1].hash)
            && (c == [] && log.cache == None ==> |e.prevHash| == 64 && forall d :: d in e.prevHash ==> d == '0')
  {
    LastLink(mac, log, x, c);
    hide Holds, LastChainedHash;
  }

  lemma ChainGrows(mac: Mac, c: seq<Event>, e: Event)
    requires Chain(mac, c) && RightHash(mac, e) && (c != [] ==> e.prevHash == c[|c| - 1].hash)
    ensures Chain(mac, c + [e])
  {
    hide RightHash;
  }

  lemma AppendKeeps(mac: Mac, log: Log, x: seq<Event>, c: seq<Event>, p: Payload)
    requires Holds(mac, log, x, c)
    ensures Holds(mac, Apply(mac, log, Append(p)), x, c + [NextEvent(mac, log, p)])
  {
    LastLink(mac, log, x, c);
    var e := NextEvent(mac, log, p);
    ChainGrows(mac, c, e);
    var after := Apply(mac, log, Append(p));
    EventsAppend(log.All(), [Record(e)]);
    EventsAppend(log.primary, [Record(e)]);
    OneRecord(e);
    hide Events, Unreadable, Chain;
    assert after.All() == log.All() + [Record(e)];
    assert x + c + [e] == x + (c + [e]);
  }

  lemma OneRecord(e: Event)
    ensures Events([Record(e)]) == [e] && Unreadable([Record(e)]) == 0
  {
    assert [Record(e)][..0] == [];
  }

  lemma ShapeCount(mac: Mac, x: seq<Event>, c: seq<Event>)
    requires forall e :: e in x ==> !HasChain(e)
    requires forall e :: e in c ==> RightHash(mac, e)
    ensures LegacyCount(x + c) == |x|
  {
    assert c != [] ==> c[0] in c && (x + c)[|x|] == c[0];
    LegacyCountIs(x + c, |x|);
  }

  lemma ShapeAt(mac: Mac, x: seq<Event>, c: seq<Event>, i: nat)
    requires LegacyCount(x + c) == |x| && i < |c| && RightHash(mac, c[i])
    ensures GoodAt(mac, x + c, |x| + i) <==> (i > 0 ==> c[i].prevHash == c[i - 1].hash)
  {
    hide LegacyCount;
    var es := x + c;
    assert es[|x| + i] == c[i] && (i > 0 ==> es[|x| + i - 1] == c[i - 1]);
  }

  lemma ShapeAccepted(mac: Mac, x: seq<Event>, c: seq<Event>)
    requires LegacyCount(x + c) == |x| && Linked(c) && forall e :: e in c ==> RightHash(mac, e)
    ensures Accepts(mac, x + c)
  {
    hide LegacyCount, RightHash;
    forall i | |x| <= i < |x + c| ensures GoodAt(mac, x + c, i) {
      assert c[i - |x|] in c;
      ShapeAt(mac, x, c, i - |x|);
    }
  }

  lemma ShapeLinked(mac: Mac, x: seq<Event>, c: seq<Event>)
    requires LegacyCount(x + c) == |x| && Accepts(mac, x + c) && forall e :: e in c ==> RightHash(mac, e)
    ensures Linked(c)
  {
    hide LegacyCount, RightHash, GoodAt;
    forall i | 0 < i < |c| ensures c[i].prevHash == c[i - 1].hash {
      assert c[i] in c;
      ShapeAt(mac, x, c, i);
    }
  }

  lemma AcceptedShape(mac: Mac, x: seq<Event>, c: seq<Event>)
    requires forall e :: e in x ==> !HasChain(e)
    requires forall e :: e in c ==> RightHash(mac, e)
    ensures LegacyCount(x + c) == |x|
    ensures Accepts(mac, x + c) <==> Linked(c)
  {
    ShapeCount(mac, x, c);
    hide LegacyCount, RightHash, HasChain, Linked, Accepts;
    if Linked(c) {
      ShapeAccepted(mac, x, c);
    }
    if Accepts(mac, x + c) {
      ShapeLinked(mac, x, c);
    }
  }

  lemma HoldsAccepts(mac: Mac, log: Log, x: seq<Event>, c: seq<Event>)
    requires Holds(mac, log, x, c)
    ensures Accepts(mac, Events(log.All())) && LegacyCount(Events(log.All())) == |x|
  {
    AcceptedShape(mac, x, c);
  }

  // ----- rotation -----------------------------------------------------------------------

  lemma ChainEnds(mac: Mac, c: seq<Event>, d: nat)
    requires Chain(mac, c) && d <= |c|
    ensures Chain(mac, c[d..])
  {
    hide RightHash;
  }

  lemma RotateKeeps(mac: Mac, log: Log, x: seq<Event>, c: seq<Event>, size: nat)
    returns (x': seq<Event>, c': seq<Event>)
    requires Holds(mac, log, x, c)
    ensures Holds(mac, Apply(mac, log, Rotate(size)), x', c') && Suffix(c', c)
  {
    x', c' := x, c;
    var after := Apply(mac, log, Rotate(size));
    if after != log {
      EventsAppend(log.rolled, log.primary);
      EventsAppend(after.rolled, after.primary);
      LineCount(after.primary);
      hide Events, Unreadable, Chain, RightHash;
      assert after.All() == log.primary && |after.primary| == ROLL_TO;
      var d := |Events(log.rolled)|;
      assert Events(log.primary) == (x + c)[d..];
      if d <= |x| {
        x' := x[d..];
        assert (x + c)[d..] == x[d..] + c;
      } else {
        x', c' := [], c[d - |x|..];
        assert (x + c)[d..] == x' + c';
        ChainEnds(mac, c, d - |x|);
      }
    }
  }

  // ----- sweeping -----------------------------------------------------------------------

  predicate Stays(e: Event, cutoff: int) {
    e.payload.ts.Some? ==> e.payload.ts.value >= cutoff
  }

  function SweptEvents(es: seq<Event>, cutoff: int): seq<Event> {
    Filter(es, (e: Event) => Stays(e, cutoff))
  }

  lemma SweptSnoc(es: seq<Event>, e: Event, cutoff: int)
    ensures SweptEvents(es + [e], cutoff) == SweptEvents(es, cutoff) + if Stays(e, cutoff) then [e] else []
  {
    assert (es + [e])[..|es|] == es;
  }

  lemma SweepLinesSnoc(lines: seq<Line>, l: Line, cutoff: int)
    ensures SweepLines(lines + [l], cutoff) == SweepLines(lines, cutoff) + if Survives(l, cutoff) then [l] else []
  {
    assert (lines + [l])[..|lines|] == lines;
  }

  lemma OneLine(l: Line)
    ensures Events([l]) == if l.Record? then [l.ev] else []
    ensures Unreadable([l]) == if l.Record? then 0 else 1
    ensures l.Record? ==> [l] == [Record(l.ev)]
  {
    assert [l][..0] == [];
  }

  lemma {:induction false} EventsOfSwept(lines: seq<Line>, cutoff: int)
    ensures Events(SweepLines(lines, cutoff)) == SweptEvents(Events(lines), cutoff)
    ensures Unreadable(SweepLines(lines, cutoff)) == Unreadable(lines)
  {
    if lines != [] {
      var init, l := lines[..|lines| - 1], lines[|lines| - 1];
      assert lines == init + [l];
      EventsOfSwept(init, cutoff);
      SweepLinesSnoc(init, l, cutoff);
      var kept := SweepLines(init, cutoff);
      EventsAppend(kept, [l]);
      EventsAppend(init, [l]);
      OneLine(l);
      hide Events, Unreadable, SweepLines, SweptEvents;
      if l.Record? {
        SweptSnoc(Events(init), l.ev, cutoff);
      }
    }
  }

  lemma SweptAppend(a: seq<Event>, b: seq<Event>, cutoff: int)
    ensures SweptEvents(a + b, cutoff) == SweptEvents(a, cutoff) + SweptEvents(b, cutoff)
  {
    FilterAppend(a, b, (e: Event) => Stays(e, cutoff));
  }

  lemma SweepConcat(a: seq<Line>, b: seq<Line>, cutoff: int)
    ensures SweepLines(a + b, cutoff) == SweepLines(a, cutoff) + SweepLines(b, cutoff)
  {
    FilterAppend(a, b, (l: Line) => Survives(l, cutoff));
  }

  lemma SweptMembers(es: seq<Event>, cutoff: int)
    ensures forall e :: e in SweptEvents(es, cutoff) <==> e in es && Stays(e, cutoff)
  {
  }

  /** Events `i..j` of `c`, and no others, survive the cutoff. */
  ghost predicate Contiguous(c: seq<Event>, cutoff: int, i: int, j: int) {
    0 <= i <= j <= |c| && forall n :: 0 <= n < |c| ==> (Stays(c[n], cutoff) <==> i <= n < j)
  }

  lemma ContiguousSweep(c: seq<Event>, cutoff: int, i: int, j: int)
    requires Contiguous(c, cutoff, i, j)
    ensures SweptEvents(c, cutoff) == c[i..j]
  {
    hide Stays, Filter;
    var before, part, after := c[..i], c[i..j], c[j..];
    assert c == before + part + after;
    SweptAppend(before + part, after, cutoff);
    SweptAppend(before, part, cutoff);
    var stays := (e: Event) => Stays(e, cutoff);
    assert forall n :: 0 <= n < |after| ==> after[n] == c[j + n];
    FilterNone(before, stays);
    FilterAll(part, stays);
    FilterNone(after, stays);
  }

  lemma {:induction false} OrderedContiguous(c: seq<Event>, cutoff: int) returns (j: nat)
    requires Ordered(c)
    ensures j <= |c| && Contiguous(c, cutoff, j, |c|)
  {
    if c == [] || !Stays(c[|c| - 1], cutoff) {
      j := |c|;
    } else {
      var n := |c| - 1;
      j := OrderedContiguous(c[..n], cutoff);
    }
  }

  lemma SweepKeeps(mac: Mac, log: Log, x: seq<Event>, c: seq<Event>, cutoff: int) returns (c': seq<Event>)
    requires Holds(mac, log, x, c) && Ordered(c)
    ensures Holds(mac, Apply(mac, log, Sweep(cutoff)), SweptEvents(x, cutoff), c') && Suffix(c', c)
  {
    var j := OrderedContiguous(c, cutoff);
    ContiguousSweep(c, cutoff, j, |c|);
    c' := c[j..];
    assert c[j..|c|] == c';
    ChainEnds(mac, c, j);
    hide SweptEvents, Events, SweepLines, Unreadable, Chain, Ordered, Stays;
    var after := Apply(mac, log, Sweep(cutoff));
    SweepConcat(log.rolled, log.primary, cutoff);
    EventsOfSwept(log.All(), cutoff);
    EventsOfSwept(log.primary, cutoff);
    SweptAppend(x, c, cutoff);
    SweptMembers(x, cutoff);
    if c' != [] {
      LastRecord(mac, log, x, c);
      SweptMembers(Events(log.primary), cutoff);
      assert Stays(c[|c| - 1], cutoff);
      assert c[|c| - 1] in Events(after.primary);
    }
  }

  // ----- every run ----------------------------------------------------------------------

  /** Events are stamped by a clock that does not run backwards, and not before the chain `c` ends. */
  predicate OnTime(c: seq<Event>, steps: seq<Step>) {
    && Ordered(c)
    && (forall i :: 0 <= i < |steps| && steps[i].Append? ==> steps[i].p.ts.Some?)
    && (forall i, j :: 0 <= i < j < |steps| && steps[i].Append? && steps[j].Append? ==>
          steps[i].p.ts.value <= steps[j].p.ts.value)
    && (forall i, n :: 0 <= i < |steps| && steps[i].Append? && 0 <= n < |c| ==>
          c[n].payload.ts.value <= steps[i].p.ts.value)
  }

  /** Until its last sweep the run is on time; without a sweep any clock will do. */
  predicate SweptOnTime(c: seq<Event>, steps: seq<Step>) {
    forall k :: 0 <= k < |steps| && steps[k].Sweep? ==> OnTime(c, steps[..k])
  }

  lemma {:induction false} OnTimeBefore(c: seq<Event>, steps: seq<Step>)
    requires steps != []
    ensures OnTime(c, steps) ==> OnTime(c, steps[..|steps| - 1])
    ensures SweptOnTime(c, steps) ==> SweptOnTime(c, steps[..|steps| - 1])
  {
    var init := steps[..|steps| - 1];
    hide Ordered;
    if SweptOnTime(c, steps) {
      forall k | 0 <= k < |init| && init[k].Sweep? ensures OnTime(c, init[..k]) {
        assert init[..k] == steps[..k];
      }
    }
  }

  lemma {:induction false} AppendedTimes(mac: Mac, start: Log, steps: seq<Step>, now: int)
    requires forall i :: 0 <= i < |steps| && steps[i].Append? ==>
               steps[i].p.ts.Some? && steps[i].p.ts.value <= now
    ensures forall e :: e in Appended(mac, start, steps) ==> e.payload.ts.Some? && e.payload.ts.value <= now
  {
    if steps != [] {
      AppendedTimes(mac, start, steps[..|steps| - 1], now);
    }
  }

  lemma OrderedGrows(c: seq<Event>, e: Event)
    requires Ordered(c) && e.payload.ts.Some?
    requires forall y :: y in c ==> y.payload.ts.Some? && y.payload.ts.value <= e.payload.ts.value
    ensures Ordered(c + [e])
  {
    assert forall i :: 0 <= i < |c| ==> c[i] in c;
  }

  lemma {:induction false} AppendedOrdered(mac: Mac, start: Log, c: seq<Event>, steps: seq<Step>)
    requires OnTime(c, steps)
    ensures Ordered(c + Appended(mac, start, steps))
  {
    if steps == [] {
      assert c + [] == c;
    } else {
      var init, s := steps[..|steps| - 1], steps[|steps| - 1];
      OnTimeBefore(c, steps);
      AppendedOrdered(mac, start, c, init);
      if s.Append? {
        AppendedTimes(mac, start, init, s.p.ts.value);
        var h, e := c + Appended(mac, start, init), NextEvent(mac, Run(mac, start, init), s.p);
        assert forall y :: y in c ==> y.payload.ts.Some? && y.payload.ts.value <= s.p.ts.value;
        hide Ordered, OnTime;
        OrderedGrows(h, e);
        assert h + [e] == c + Appended(mac, start, steps);
      }
    }
  }

  lemma SuffixTransitive<T>(x: seq<T>, y: seq<T>, z: seq<T>)
    requires Suffix(x, y) && Suffix(y, z)
    ensures Suffix(x, z)
  {
  }

  lemma SuffixGrow<T>(x: seq<T>, h: seq<T>, e: T)
    requires Suffix(x, h)
    ensures Suffix(x + [e], h + [e])
  {
  }

  lemma OrderedSuffix(c: seq<Event>, h: seq<Event>)
    requires Suffix(c, h) && Ordered(h)
    ensures Ordered(c)
  {
  }

  /** After any run: records from before the chain, then the newest of the records that were there or
      were appended, still linked. */
  lemma {:induction false} RunHolds(mac: Mac, start: Log, x0: seq<Event>, c0: seq<Event>, steps: seq<Step>)
    returns (x: seq<Event>, c: seq<Event>)
    requires Holds(mac, start, x0, c0) && SweptOnTime(c0, steps)
    ensures Holds(mac, Run(mac, start, steps), x, c)
    ensures Suffix(c, c0 + Appended(mac, start, steps))
  {
    hide Holds, OnTime, Ordered;
    if steps == [] {
      x, c := x0, c0;
    } else {
      var init, s := steps[..|steps| - 1], steps[|steps| - 1];
      var h := c0 + Appended(mac, start, init);
      var log := Run(mac, start, init);
      OnTimeBefore(c0, steps);
      var c1: seq<Event>;
      x, c1 := RunHolds(mac, start, x0, c0, init);
      match s {
        case Append(p) =>
          AppendKeeps(mac, log, x, c1, p);
          c := c1 + [NextEvent(mac, log, p)];
          SuffixGrow(c1, h, NextEvent(mac, log, p));
          assert h + [NextEvent(mac, log, p)] == c0 + Appended(mac, start, steps);
        case Rotate(size) =>
          x, c := RotateKeeps(mac, log, x, c1, size);
          SuffixTransitive(c, c1, h);
        case Sweep(cutoff) =>
          AppendedOrdered(mac, start, c0, init);
          OrderedSuffix(c1, h);
          c := SweepKeeps(mac, log, x, c1, cutoff);
          x := SweptEvents(x, cutoff);
          SuffixTransitive(c, c1, h);
        case Restart =>
          c := c1;
          RestartKeeps(mac, log, x, c1);
      }
    }
  }

  lemma RestartKeeps(mac: Mac, log: Log, x: seq<Event>, c: seq<Event>)
    requires Holds(mac, log, x, c)
    ensures Holds(mac, Apply(mac, log, Step.Restart), x, c)
  {
  }

  /** Appending, rotating, sweeping and restarting never break verification: whatever chain the run
      starts with, the verifier accepts the log, and its chain is the end of that chain followed by
      what was appended. */
  lemma {:induction false} RunAccepts(mac: Mac, start: Log, x: seq<Event>, c: seq<Event>, steps: seq<Step>)
    requires Holds(mac, start, x, c) && SweptOnTime(c, steps)
    ensures Accepts(mac, Events(Run(mac, start, steps).All()))
    ensures var es := Events(Run(mac, start, steps).All());
            Suffix(es[LegacyCount(es)..], c + Appended(mac, start, steps))
  {
    hide Run, SweptOnTime, Suffix, LegacyCount, Accepts;
    var x', c' := RunHolds(mac, start, x, c, steps);
    HoldsAccepts(mac, Run(mac, start, steps), x', c');
    assert (x' + c')[|x'|..] == c';
  }

  /** Any log without chained records is such a start, a new installation among them. */
  lemma LegacyStart(mac: Mac, start: Log)
    requires start.cache.None? && Unreadable(start.All()) < ROLL_TO
    requires forall e :: e in Events(start.All()) ==> |e.hash| != 64
    ensures Holds(mac, start, Events(start.All()), [])
  {
    assert Events(start.All()) + [] == Events(start.All());
  }

  /** The bound on unreadable lines is needed: when a rotation keeps nothing readable and the cache is
      lost, the next append does not link to the chain in the rolled file. */
  lemma UnreadableTailBreaks(mac: Mac, log: Log, size: nat, p: Payload)
    requires size >= MAX_LINES * BYTES_PER_LINE && |log.primary| > MAX_LINES
    requires Unreadable(log.primary[|log.primary| - ROLL_TO..]) == ROLL_TO
    requires var es := Events(log.primary);
             es != [] && HasChain(es[|es| - 1]) && es[|es| - 1].hash != GENESIS_PREV
    ensures var rotated := Apply(mac, Apply(mac, log, Rotate(size)), Step.Restart);
            !Accepts(mac, Events(Apply(mac, rotated, Append(p)).All()))
  {
    hide Events, Unreadable, LastStored, Zeros;
    var rotated := Apply(mac, Apply(mac, log, Rotate(size)), Step.Restart);
    assert rotated.All() == log.primary;
    LineCount(rotated.primary);
    LastStoredIs(rotated.primary);
    assert Events(rotated.primary) == [];
    var e := NextEvent(mac, rotated, p);
    assert e.prevHash == GENESIS_PREV;
    EventsAppend(log.primary, [Record(e)]);
    OneRecord(e);
    assert Apply(mac, rotated, Append(p)).All() == log.primary + [Record(e)];
    BadLink(mac, Events(log.primary), e);
  }

  lemma BadLink(mac: Mac, es: seq<Event>, e: Event)
    requires es != [] && HasChain(es[|es| - 1]) && e.prevHash != es[|es| - 1].hash
    ensures !Accepts(mac, es + [e])
  {
    var fs := es + [e];
    assert fs[|es| - 1] == es[|es| - 1] && fs[|es|] == e;
    assert LegacyCount(fs) < |es|;
    assert !GoodAt(mac, fs, |es|);
  }

  /** Exactly when a rotation drops lines: when it takes place and an older rolled file is replaced.
      No legal hold is asked. */
  lemma RotationLosesIff(mac: Mac, log: Log, size: nat)
    ensures Apply(mac, log, Rotate(size)).All() == log.All() <==>
            log.rolled == [] || size < MAX_LINES * BYTES_PER_LINE || |log.primary| <= MAX_LINES
    ensures Suffix(Apply(mac, log, Rotate(size)).All(), log.All())
  {
    var after := Apply(mac, log, Rotate(size));
    if after != log {
      assert after.All() == log.primary;
      assert |log.All()| == |log.rolled| + |log.primary|;
      assert log.All()[|log.rolled|..] == log.primary;
    }
  }

  /** A rotation happens from 11,000,000 bytes and more than 50,000 lines on. The newest 25,000 lines stay
      in the primary file, and the others are the rolled file. */
  lemma RotationSplits(mac: Mac, log: Log, size: nat)
    ensures var after, n := Apply(mac, log, Rotate(size)), |log.primary|;
            if size >= 11_000_000 && n > 50_000 then
              after.rolled + after.primary == log.primary && |after.primary| == 25_000
            else after == log
  {
  }

  // ----- sweeping without the clock assumption ----------------------------------------------

  ghost predicate DistinctHashes(c: seq<Event>) {
    forall i, j :: 0 <= i < j < |c| ==> c[i].hash != c[j].hash
  }

  lemma {:induction false} LinkedSweepContiguous(c: seq<Event>, cutoff: int) returns (i: int, j: int)
    requires Linked(c) && DistinctHashes(c) && Linked(SweptEvents(c, cutoff))
    ensures Contiguous(c, cutoff, i, j)
    ensures SweptEvents(c, cutoff) == c[i..j]
  {
    if c == [] {
      i, j := 0, 0;
    } else {
      var n := |c| - 1;
      var init := c[..n];
      assert c == init + [c[n]];
      SweptSnoc(init, c[n], cutoff);
      hide SweptEvents, Stays;
      var kept := SweptEvents(c, cutoff);
      if Stays(c[n], cutoff) {
        assert kept[..|kept| - 1] == SweptEvents(init, cutoff);
        LinkedFront(kept);
        LinkedFront(c);
        i, j := LinkedSweepContiguous(init, cutoff);
        i, j := ExtendContiguous(c, kept, cutoff, i, j);
      } else {
        LinkedFront(c);
        assert kept == SweptEvents(init, cutoff);
        i, j := LinkedSweepContiguous(init, cutoff);
        assert init[i..j] == c[i..j];
      }
    }
  }

  lemma LinkedFront(c: seq<Event>)
    requires c != [] && Linked(c)
    ensures Linked(c[..|c| - 1])
  {
  }

  /** The survivors before the last event end where it begins, since its link is to its neighbour. */
  lemma EndsAtLast(c: seq<Event>, kept: seq<Event>, i: int, j: int)
    requires c != [] && |kept| > 1 && Linked(c) && DistinctHashes(c) && Linked(kept)
    requires kept[|kept| - 1] == c[|c| - 1]
    requires 0 <= i <= j < |c| && kept[..|kept| - 1] == c[i..j]
    ensures j == |c| - 1
  {
    var n, m := |c| - 1, |kept| - 1;
    assert kept[m - 1] == kept[..m][m - 1] == c[j - 1];
    assert kept[m].prevHash == kept[m - 1].hash;
    assert c[n].prevHash == c[n - 1].hash;
  }

  lemma ExtendContiguous(c: seq<Event>, kept: seq<Event>, cutoff: int, i: int, j: int)
    returns (i': int, j': int)
    requires c != [] && kept != [] && Linked(c) && DistinctHashes(c) && Linked(kept)
    requires Stays(c[|c| - 1], cutoff) && kept[|kept| - 1] == c[|c| - 1]
    requires Contiguous(c[..|c| - 1], cutoff, i, j) && kept[..|kept| - 1] == c[..|c| - 1][i..j]
    ensures Contiguous(c, cutoff, i', j') && kept == c[i'..j']
  {
    hide Linked, DistinctHashes, Stays;
    var n, m := |c| - 1, |kept| - 1;
    assert c[..n][i..j] == c[i..j];
    assert kept == kept[..m] + [c[n]];
    if m == 0 {
      i', j' := n, n + 1;
      assert i == j;
      assert c[n..n + 1] == [c[n]] && kept[..m] == [];
    } else {
      EndsAtLast(c, kept, i, j);
      i', j' := i, n + 1;
      assert c[i..n + 1] == c[i..n] + [c[n]];
    }
  }

  /** Whatever the timestamps are, and whatever else the files hold, a sweep leaves an acceptable log
      exactly when the surviving events of the chain stand next to each other. */
  lemma SweepVerifiesIff(mac: Mac, lines: seq<Line>, x: seq<Event>, c: seq<Event>, cutoff: int)
    requires Events(lines) == x + c && (forall e :: e in x ==> !HasChain(e))
    requires Chain(mac, c) && DistinctHashes(c)
    ensures Accepts(mac, Events(SweepLines(lines, cutoff))) <==> exists i, j :: Contiguous(c, cutoff, i, j)
  {
    EventsOfSwept(lines, cutoff);
    SweptAppend(x, c, cutoff);
    SweptMembers(x, cutoff);
    SweptMembers(c, cutoff);
    hide SweptEvents, Events, SweepLines, DistinctHashes, HasChain;
    AcceptedShape(mac, SweptEvents(x, cutoff), SweptEvents(c, cutoff));
    hide RightHash, Accepts;
    if exists i, j :: Contiguous(c, cutoff, i, j) {
      var i, j :| Contiguous(c, cutoff, i, j);
      ContiguousSweep(c, cutoff, i, j);
      LinkedPart(c, i, j);
    }
    if Linked(SweptEvents(c, cutoff)) {
      var i, j := LinkedSweepContiguous(c, cutoff);
    }
  }

  lemma LinkedPart(c: seq<Event>, i: int, j: int)
    requires Linked(c) && 0 <= i <= j <= |c|
    ensures Linked(c[i..j])
  {
  }

  lemma {:induction false} RunSnoc(mac: Mac, start: Log, steps: seq<Step>, s: Step)
    ensures Run(mac, start, steps + [s]) == Apply(mac, Run(mac, start, steps), s)
    ensures Appended(mac, start, steps + [s]) ==
            Appended(mac, start, steps) +
            (if s.Append? then [NextEvent(mac, Run(mac, start, steps), s.p)] else [])
  {
    assert (steps + [s])[..|steps|] == steps;
  }

  lemma MiddleGoes(c: seq<Event>, cutoff: int, i: int, j: int)
    requires |c| == 3 && Stays(c[0], cutoff) && !Stays(c[1], cutoff) && Stays(c[2], cutoff)
    ensures !Contiguous(c, cutoff, i, j)
  {
    hide Stays;
  }

  /** A clock that steps back makes an honest sweep unverifiable. */
  lemma ClockStepBackBreaks(mac: Mac, p: Payload, q: Payload, r: Payload, cutoff: int)
    requires p.ts == Some(cutoff) && q.ts == Some(cutoff - 1) && r.ts == Some(cutoff)
    requires DistinctHashes(Appended(mac, Log([], [], None), [Append(p)] + [Append(q)] + [Append(r)]))
    ensures var steps := [Append(p)] + [Append(q)] + [Append(r)] + [Sweep(cutoff)];
            !Accepts(mac, Events(Run(mac, Log([], [], None), steps).All()))
  {
    hide Events, SweepLines, Accepts, DistinctHashes, Chain, Appended, Contiguous;
    var start, steps := Log([], [], None), [Append(p)] + [Append(q)] + [Append(r)];
    var c := ThreeAppends(mac, p, q, r);
    RunSnoc(mac, start, steps, Sweep(cutoff));
    hide Run;
    var log := Run(mac, start, steps);
    SweepConcat(log.rolled, log.primary, cutoff);
    assert [] + c == c;
    SweepVerifiesIff(mac, log.All(), [], c, cutoff);
    forall i, j ensures !Contiguous(c, cutoff, i, j) {
      MiddleGoes(c, cutoff, i, j);
    }
  }

  lemma ThreeAppends(mac: Mac, p: Payload, q: Payload, r: Payload) returns (c: seq<Event>)
    ensures var steps := [Append(p)] + [Append(q)] + [Append(r)];
            && Appended(mac, Log([], [], None), steps) == c
            && Events(Run(mac, Log([], [], None), steps).All()) == c
    ensures |c| == 3 && c[0].payload == p && c[1].payload == q && c[2].payload == r
    ensures Chain(mac, c)
  {
    hide Holds, Chain, Events;
    var start := Log([], [], None);
    var log1 := Apply(mac, start, Append(p));
    var log2 := Apply(mac, log1, Append(q));
    EmptyStart(mac);
    AppendKeeps(mac, start, [], [], p);
    RunSnoc(mac, start, [], Append(p));
    assert [] + [Append(p)] == [Append(p)];
    RunSnoc(mac, start, [Append(p)], Append(q));
    RunSnoc(mac, start, [Append(p)] + [Append(q)], Append(r));
    var e1, e2, e3 := NextEvent(mac, start, p), NextEvent(mac, log1, q), NextEvent(mac, log2, r);
    AppendKeeps(mac, log1, [], [] + [e1], q);
    AppendKeeps(mac, log2, [], [] + [e1] + [e2], r);
    c := [] + [e1] + [e2] + [e3];
    HoldsAre(mac, Apply(mac, log2, Append(r)), c);
  }

  lemma EmptyStart(mac: Mac)
    ensures Holds(mac, Log([], [], None), [], [])
  {
  }

  lemma HoldsAre(mac: Mac, log: Log, c: seq<Event>)
    requires Holds(mac, log, [], c)
    ensures Events(log.All()) == c && Chain(mac, c)
  {
    assert [] + c == c;
  }
}
