/** How long a stored response is replayed (web/lib/idempotencyStore.ts, web/lib/idempotency.ts). */
module IdempotencyRuns {
  import opened Prelude
  import opened Sorting
  import opened Idempotency

  ghost predicate UniquePairs(records: seq<Record>) {
    forall i, j :: 0 <= i < j < |records| ==> !SamePair(records[i], records[j].keyId, records[j].header)
  }

  ghost predicate Aged(records: seq<Record>) {
    && (forall i, j :: 0 <= i < j < |records| ==> records[i].createdAt <= records[j].createdAt)
    && (forall i :: 0 <= i < |records| ==> records[i].expiresAt == records[i].createdAt + TTL_MS)
  }

  /** Records stand in the order of their creation, each with the full lifetime, one per pair. */
  ghost predicate Inv(records: seq<Record>, now: int) {
    && Aged(records)
    && (forall i :: 0 <= i < |records| ==> records[i].createdAt <= now)
    && UniquePairs(records)
    && |records| <= MAX_RECORDS + 1
  }

  /** Number of leading records that have expired. */
  function ExpiredCount(records: seq<Record>, now: int): (d: nat)
    ensures d <= |records|
  {
    if records == [] || Live(records[0], now) then 0 else 1 + ExpiredCount(records[1..], now)
  }

  /** On a reachable store the expired records are exactly the leading ones. */
  lemma {:induction false} ExpiredIff(records: seq<Record>, now: int, i: nat)
    requires Aged(records) && i < |records|
    ensures i < ExpiredCount(records, now) <==> !Live(records[i], now)
  {
    if !Live(records[0], now) && i > 0 {
      ExpiredIff(records[1..], now, i - 1);
    }
  }

  /** What a collection leaves: the records from here on. */
  function Cut(records: seq<Record>, now: int): (d: nat)
    ensures d <= |records|
  {
    Max(ExpiredCount(records, now), |records| - MAX_RECORDS)
  }

  lemma {:induction false} LiveIsSuffix(records: seq<Record>, now: int)
    requires Inv(records, now)
    ensures Filter(records, (r: Record) => Live(r, now)) == records[ExpiredCount(records, now)..]
  {
    hide ExpiredCount, Aged, UniquePairs, Filter, Live;
    var p := (r: Record) => Live(r, now);
    var d := ExpiredCount(records, now);
    var dead, live := records[..d], records[d..];
    assert records == dead + live;
    FilterAppend(dead, live, p);
    forall i | 0 <= i < d ensures !p(dead[i]) {
      ExpiredIff(records, now, i);
    }
    FilterNone(dead, p);
    forall i | 0 <= i < |live| ensures p(live[i]) {
      ExpiredIff(records, now, d + i);
    }
    FilterAll(live, p);
  }

  lemma {:induction false} SortedUnchanged(live: seq<Record>)
    requires forall i, j :: 0 <= i < j < |live| ==> live[i].createdAt <= live[j].createdAt
    ensures Sort(live, (a: Record, b: Record) => Older(a, b)) == live
  {
    SortOfSorted(live, (a: Record, b: Record) => Older(a, b));
  }

  /** On a reachable store, collecting keeps exactly the unexpired records among the newest 2000. */
  lemma GcIsSuffix(records: seq<Record>, now: int)
    requires Inv(records, now)
    ensures Gc(records, now) == records[Cut(records, now)..]
  {
    hide ExpiredCount, Filter, Sort;
    LiveIsSuffix(records, now);
    var live := records[ExpiredCount(records, now)..];
    SortedUnchanged(live);
    if |live| > MAX_RECORDS {
      assert live[|live| - MAX_RECORDS..] == records[|records| - MAX_RECORDS..];
    }
  }

  /** The record with `n` records behind it survives a collection exactly when it has not expired
      and fewer than 2000 records are newer. */
  lemma SurvivesIff(records: seq<Record>, now: int, i: nat)
    requires Inv(records, now) && i < |records|
    ensures Cut(records, now) <= i <==> now < records[i].expiresAt && |records| - 1 - i < MAX_RECORDS
  {
    hide ExpiredCount;
    ExpiredIff(records, now, i);
  }

  lemma {:induction false} FindUnique(records: seq<Record>, i: nat)
    requires UniquePairs(records) && i < |records|
    ensures FindPair(records, records[i].keyId, records[i].header) == Some(records[i])
  {
    hide FindPair;
    var r := FindPair(records, records[i].keyId, records[i].header);
    assert records[i] in records;
    var j :| 0 <= j < |records| && records[j] == r.value;
  }

  lemma {:induction false} ExpiredOfSuffix(records: seq<Record>, c: nat, now: int)
    requires Inv(records, now) && c <= |records|
    ensures c + ExpiredCount(records[c..], now) == Max(c, ExpiredCount(records, now))
  {
    if c == 0 {
      assert records[0..] == records;
    } else if !Live(records[0], now) {
      assert Inv(records[1..], now);
      assert records[1..][c - 1..] == records[c..];
      ExpiredOfSuffix(records[1..], c - 1, now);
    } else if c < |records| {
      ExpiredIff(records, now, c);
    }
  }

  lemma {:induction false} ExpiredGrows(records: seq<Record>, t: int, u: int)
    requires Inv(records, t) && t <= u
    ensures ExpiredCount(records, t) <= ExpiredCount(records, u)
  {
    hide ExpiredCount;
    var d := ExpiredCount(records, t);
    if d > 0 {
      ExpiredIff(records, t, d - 1);
      ExpiredIff(records, u, d - 1);
    }
  }

  // ----- one request ------------------------------------------------------------------------

  /** The request stores its response. */
  predicate Stores(sha: Sha, records: seq<Record>, q: Req) {
    Keyed(q).Some? && Answer(sha, records, q, Keyed(q).value).Fresh? && Cacheable(q.answer)
  }

  /** The records that a request adds at the new end. */
  function Added(sha: Sha, records: seq<Record>, q: Req): seq<Record> {
    if Stores(sha, records, q) then [RecordOf(sha, q, Keyed(q).value)] else []
  }

  /** The number of records that a request drops at the old end. */
  function Dropped(sha: Sha, records: seq<Record>, q: Req): (d: nat)
    ensures d <= |records|
  {
    if Keyed(q).None? then 0 else Cut(records, if Stores(sha, records, q) then q.later else q.now)
  }

  lemma StoredAppends(live: seq<Record>, rec: Record, now: int)
    requires Inv(live, now) && FindPair(live, rec.keyId, rec.header).None?
    ensures Stored(live, rec, now) == live[Cut(live, now)..] + [rec]
  {
    hide Gc, Cut, FindPair;
    GcIsSuffix(live, now);
    var kept := live[Cut(live, now)..];
    FilterAll(kept, (r: Record) => !SamePair(r, rec.keyId, rec.header));
  }

  lemma LaterInv(records: seq<Record>, t: int, u: int)
    requires Inv(records, t) && t <= u
    ensures Inv(records, u)
  {
  }

  lemma CutTwice(records: seq<Record>, t: int, u: int)
    requires Inv(records, t) && t <= u
    ensures Cut(records, t) <= Cut(records, u)
    ensures Cut(records, t) + Cut(records[Cut(records, t)..], u) == Cut(records, u)
  {
    hide ExpiredCount;
    LaterInv(records, t, u);
    ExpiredGrows(records, t, u);
    ExpiredOfSuffix(records, Cut(records, t), u);
  }

  lemma SuffixInv(records: seq<Record>, d: nat, now: int)
    requires Inv(records, now) && d <= |records|
    ensures Inv(records[d..], now)
  {
  }

  lemma {:induction false} FindInSuffix(records: seq<Record>, d: nat, keyId: string, header: string)
    requires d <= |records| && FindPair(records, keyId, header).None?
    ensures FindPair(records[d..], keyId, header).None?
  {
    hide FindPair;
    assert forall x :: x in records[d..] ==> x in records;
  }

  lemma AppendInv(records: seq<Record>, d: nat, rec: Record, t: int, now: int)
    requires Inv(records, t) && t <= now && d <= |records| && |records| - d <= MAX_RECORDS
    requires rec.createdAt == now && rec.expiresAt == rec.createdAt + TTL_MS
    requires FindPair(records[d..], rec.keyId, rec.header).None?
    ensures Inv(records[d..] + [rec], now)
  {
    hide FindPair;
    var kept := records[d..];
    assert forall i :: 0 <= i < |kept| ==> kept[i] in kept;
  }

  /** Serving a request drops records only from the old end and adds at most one at the new end. */
  lemma ServeShape(sha: Sha, records: seq<Record>, q: Req)
    requires Inv(records, q.now) && q.now <= q.later
    ensures Serve(sha, records, q).0 == records[Dropped(sha, records, q)..] + Added(sha, records, q)
    ensures Inv(Serve(sha, records, q).0, q.later)
  {
    hide Gc, Cut, FindPair, Keyed, Unkeyed, Stored, ExpiredCount;
    var c := Cut(records, q.now);
    GcIsSuffix(records, q.now);
    var live := records[c..];
    SuffixInv(records, c, q.now);
    LaterInv(live, q.now, q.later);
    LaterInv(records, q.now, q.later);
    if Stores(sha, records, q) {
      var rec := RecordOf(sha, q, Keyed(q).value);
      StoredAppends(live, rec, q.later);
      CutTwice(records, q.now, q.later);
      var d := Cut(records, q.later);
      assert live[Cut(live, q.later)..] == records[d..];
      FindInSuffix(live, Cut(live, q.later), rec.keyId, rec.header);
      CutLeavesRoom(records, q.later);
      AppendInv(records, d, rec, q.now, q.later);
    }
  }

  lemma {:induction false} CutLeavesRoom(records: seq<Record>, now: int)
    ensures |records| - Cut(records, now) <= MAX_RECORDS
  {
    hide ExpiredCount;
  }

  /** The record stands `n` from the new end. */
  ghost predicate Behind(records: seq<Record>, r: Record, n: nat) {
    n < |records| && records[|records| - 1 - n] == r
  }

  /** While it is stored, unexpired and among the newest 2000, a pair's requests never reach the
      handler; otherwise they do. */
  lemma AnsweredIff(sha: Sha, records: seq<Record>, r: Record, n: nat, q: Req)
    requires Inv(records, q.now) && Behind(records, r, n)
    requires Keyed(q) == Some(r.header) && q.keyId == r.keyId
    ensures Serve(sha, records, q).1 ==
            if q.now < r.expiresAt && n < MAX_RECORDS then
              (if r.fingerprint == sha(FingerprintText(q.verb, q.route, q.body)) then Replay(r) else Conflict(r))
            else Fresh(q.answer)
  {
    hide Gc, Cut, FindPair, Keyed, Unkeyed, Stored, ExpiredCount, FingerprintText;
    var c := Cut(records, q.now);
    var i := |records| - 1 - n;
    GcIsSuffix(records, q.now);
    SurvivesIff(records, q.now, i);
    if c <= i {
      assert records[c..][i - c] == r;
      FindUnique(records[c..], i - c);
    } else {
      NoneBefore(records, c, i);
    }
  }

  lemma {:induction false} NoneBefore(records: seq<Record>, c: nat, i: nat)
    requires UniquePairs(records) && i < c <= |records|
    ensures FindPair(records[c..], records[i].keyId, records[i].header).None?
  {
    hide FindPair;
    forall x | x in records[c..] ensures !SamePair(x, records[i].keyId, records[i].header) {
      var j :| 0 <= j < |records[c..]| && records[c..][j] == x;
      assert records[c + j] == x;
    }
  }

  /** Serving any request while the record is safe keeps it, one place further from the end if a
      newer response was stored. */
  lemma ServeKeepsBehind(sha: Sha, records: seq<Record>, r: Record, n: nat, q: Req)
    requires Inv(records, q.now) && q.now <= q.later && Behind(records, r, n)
    requires q.later < r.expiresAt && n < MAX_RECORDS
    ensures Inv(Serve(sha, records, q).0, q.later)
    ensures Behind(Serve(sha, records, q).0, r, n + (if Stores(sha, records, q) then 1 else 0))
  {
    hide Serve, Cut, Stores, Inv;
    ServeShape(sha, records, q);
    LaterInv(records, q.now, q.later);
    var i := |records| - 1 - n;
    SurvivesIff(records, q.now, i);
    SurvivesIff(records, q.later, i);
    assert Dropped(sha, records, q) <= i;
  }

  // ----- every run ----------------------------------------------------------------------------

  function Run(sha: Sha, records: seq<Record>, reqs: seq<Req>): seq<Record>
    decreases |reqs|
  {
    if reqs == [] then records else Run(sha, Serve(sha, records, reqs[0]).0, reqs[1..])
  }

  function StoreCount(sha: Sha, records: seq<Record>, reqs: seq<Req>): nat
    decreases |reqs|
  {
    if reqs == [] then 0
    else
      (if Stores(sha, records, reqs[0]) then 1 else 0) + StoreCount(sha, Serve(sha, records, reqs[0]).0, reqs[1..])
  }

  /** Requests come one after another, on a clock that does not run backwards. */
  predicate Sequential(reqs: seq<Req>, start: int, end: int)
    decreases |reqs|
  {
    if reqs == [] then start <= end
    else start <= reqs[0].now <= reqs[0].later && Sequential(reqs[1..], reqs[0].later, end)
  }

  lemma {:induction false} RunInv(sha: Sha, records: seq<Record>, reqs: seq<Req>, start: int, end: int)
    requires Inv(records, start) && Sequential(reqs, start, end)
    ensures Inv(Run(sha, records, reqs), end)
    decreases |reqs|
  {
    if reqs == [] {
      LaterInv(records, start, end);
    } else {
      LaterInv(records, start, reqs[0].now);
      ServeShape(sha, records, reqs[0]);
      RunInv(sha, Serve(sha, records, reqs[0]).0, reqs[1..], reqs[0].later, end);
    }
  }

  /** From an empty store: one record per (key, header), at most 2001 of them. */
  lemma StoreBounds(sha: Sha, reqs: seq<Req>, start: int, end: int)
    requires Sequential(reqs, start, end)
    ensures |Run(sha, [], reqs)| <= MAX_RECORDS + 1
    ensures UniquePairs(Run(sha, [], reqs))
  {
    RunInv(sha, [], reqs, start, end);
  }

  lemma {:induction false} RunKeepsBehind(
    sha: Sha, records: seq<Record>, r: Record, n: nat, reqs: seq<Req>, start: int, end: int)
    requires Inv(records, start) && Sequential(reqs, start, end) && Behind(records, r, n)
    requires end < r.expiresAt && n + StoreCount(sha, records, reqs) < MAX_RECORDS
    ensures Behind(Run(sha, records, reqs), r, n + StoreCount(sha, records, reqs))
    ensures Inv(Run(sha, records, reqs), end)
    decreases |reqs|
  {
    hide Serve, Stores, Inv, Behind;
    if reqs == [] {
      LaterInv(records, start, end);
    } else {
      var q := reqs[0];
      LaterInv(records, start, q.now);
      RunBefore(reqs[1..], q.later, end);
      ServeKeepsBehind(sha, records, r, n, q);
      var n' := n + (if Stores(sha, records, q) then 1 else 0);
      RunKeepsBehind(sha, Serve(sha, records, q).0, r, n', reqs[1..], q.later, end);
    }
  }

  lemma {:induction false} RunBefore(reqs: seq<Req>, start: int, end: int)
    requires Sequential(reqs, start, end)
    ensures start <= end
    decreases |reqs|
  {
    if reqs != [] {
      RunBefore(reqs[1..], reqs[0].later, end);
    }
  }

  // ----- fingerprints --------------------------------------------------------------------------

  /** The hashed text determines method, route and body: method and route have no line break. */
  lemma FingerprintTextInjective(m1: string, r1: string, b1: string, m2: string, r2: string, b2: string)
    requires '\n' !in Upper(m1) && '\n' !in Upper(m2) && '\n' !in r1 && '\n' !in r2
    requires FingerprintText(m1, r1, b1) == FingerprintText(m2, r2, b2)
    ensures Upper(m1) == Upper(m2) && r1 == r2 && b1 == b2
  {
    CutAtBreak(Upper(m1), r1 + ['\n'] + b1, Upper(m2), r2 + ['\n'] + b2);
    CutAtBreak(r1, b1, r2, b2);
  }

  lemma CutAtBreak(a: string, x: string, b: string, y: string)
    requires '\n' !in a && '\n' !in b && a + ['\n'] + x == b + ['\n'] + y
    ensures a == b && x == y
  {
    var s := a + ['\n'] + x;
    assert s[..|a|] == a && s[|a|] == '\n' && s[..|b|] == b && s[|b|] == '\n';
    assert s[|a| + 1..] == x && s[|b| + 1..] == y;
  }

  // ----- keys do not disturb each other -----------------------------------------------------------

  predicate Of(r: Record, keyId: string, now: int) {
    r.keyId == keyId && Live(r, now)
  }

  /** The live records of one key. */
  function OwnLive(records: seq<Record>, keyId: string, now: int): seq<Record> {
    Filter(records, (r: Record) => Of(r, keyId, now))
  }

  /** Collecting takes nothing from a key's live records as long as the cap is not exceeded. */
  lemma {:induction false} OwnLiveOfDropped(records: seq<Record>, d: nat, keyId: string, now: int)
    requires d <= |records| && forall i :: 0 <= i < d ==> !Live(records[i], now)
    ensures OwnLive(records[d..], keyId, now) == OwnLive(records, keyId, now)
  {
    assert records == records[..d] + records[d..];
    FilterAppend(records[..d], records[d..], (r: Record) => Of(r, keyId, now));
    FilterNone(records[..d], (r: Record) => Of(r, keyId, now));
  }

  /** The unexpired records are within the cap, so a collection drops none of them. */
  ghost predicate HasRoom(records: seq<Record>, now: int) {
    |records| - ExpiredCount(records, now) <= MAX_RECORDS
  }

  lemma CutsExpired(records: seq<Record>, now: int, t: int)
    requires Inv(records, now) && HasRoom(records, now) && now <= t
    ensures forall i :: 0 <= i < Cut(records, t) ==> !Live(records[i], t)
  {
    LaterInv(records, now, t);
    ExpiredGrows(records, now, t);
    hide ExpiredCount, Inv;
    forall i | 0 <= i < Cut(records, t) ensures !Live(records[i], t) {
      ExpiredIff(records, t, i);
    }
  }

  /** Serving drops no live record of anyone while there is room. */
  lemma ServeOwnLive(sha: Sha, records: seq<Record>, q: Req, keyId: string, t: int)
    requires Inv(records, q.now) && q.now <= q.later <= t && HasRoom(records, q.now)
    ensures OwnLive(Serve(sha, records, q).0, keyId, t) ==
            OwnLive(records, keyId, t) + OwnLive(Added(sha, records, q), keyId, t)
  {
    hide Serve, Stores, RecordOf, OwnLive;
    ServeShape(sha, records, q);
    var d := Dropped(sha, records, q);
    DroppedExpired(sha, records, q, t);
    OwnLiveOfDropped(records, d, keyId, t);
    OwnLiveAppend(records[d..], Added(sha, records, q), keyId, t);
  }

  lemma DroppedExpired(sha: Sha, records: seq<Record>, q: Req, t: int)
    requires Inv(records, q.now) && q.now <= q.later <= t && HasRoom(records, q.now)
    ensures forall i :: 0 <= i < Dropped(sha, records, q) ==> !Live(records[i], t)
  {
    hide Stores, ExpiredCount, Keyed, Cut;
    CutsExpired(records, q.now, q.now);
    CutsExpired(records, q.now, q.later);
  }

  lemma OwnLiveAppend(a: seq<Record>, b: seq<Record>, keyId: string, t: int)
    ensures OwnLive(a + b, keyId, t) == OwnLive(a, keyId, t) + OwnLive(b, keyId, t)
  {
    FilterAppend(a, b, (r: Record) => Of(r, keyId, t));
  }

  lemma {:induction false} OthersAddNothing(sha: Sha, records: seq<Record>, q: Req, keyId: string, t: int)
    requires q.keyId != keyId
    ensures OwnLive(Added(sha, records, q), keyId, t) == []
  {
    hide Stores;
    FilterNone(Added(sha, records, q), (r: Record) => Of(r, keyId, t));
  }

  lemma {:induction false} FindInOwn(records: seq<Record>, keyId: string, header: string, now: int)
    requires forall x :: x in records ==> Live(x, now)
    ensures FindPair(records, keyId, header) == FindPair(OwnLive(records, keyId, now), keyId, header)
  {
    hide OwnLive;
    if records == [] {
      OwnLiveEmpty(keyId, now);
    } else {
      var r := records[0];
      assert r in records && records == [r] + records[1..];
      OwnLiveAppend([r], records[1..], keyId, now);
      FindInOwn(records[1..], keyId, header, now);
      OwnLiveOne(r, keyId, now);
      var rest := OwnLive(records[1..], keyId, now);
      assert [] + rest == rest;
      assert ([r] + rest)[1..] == rest;
    }
  }

  lemma OwnLiveEmpty(keyId: string, now: int)
    ensures OwnLive([], keyId, now) == []
  {
  }

  lemma {:induction false} OwnLiveOne(r: Record, keyId: string, now: int)
    ensures OwnLive([r], keyId, now) == if Of(r, keyId, now) then [r] else []
  {
    assert [r][..0] == [];
  }

  /** What a key's request gets depends only on the key's own live records. */
  lemma {:induction false} AnswerFromOwn(sha: Sha, records: seq<Record>, q: Req)
    requires Inv(records, q.now) && HasRoom(records, q.now) && Keyed(q).Some?
    ensures FindPair(Gc(records, q.now), q.keyId, Keyed(q).value) ==
            FindPair(OwnLive(records, q.keyId, q.now), q.keyId, Keyed(q).value)
  {
    hide Gc, ExpiredCount, OwnLive, FindPair, Keyed, Cut, HasRoom;
    GcIsSuffix(records, q.now);
    CutsExpired(records, q.now, q.now);
    var d := Cut(records, q.now);
    OwnLiveOfDropped(records, d, q.keyId, q.now);
    forall i | 0 <= i < |records[d..]| ensures Live(records[d..][i], q.now) {
      SurvivesIff(records, q.now, d + i);
    }
    FindInOwn(records[d..], q.keyId, Keyed(q).value, q.now);
  }

  function Outcomes(sha: Sha, records: seq<Record>, reqs: seq<Req>, keyId: string): seq<Outcome>
    decreases |reqs|
  {
    if reqs == [] then []
    else
      (if reqs[0].keyId == keyId then [Serve(sha, records, reqs[0]).1] else []) +
      Outcomes(sha, Serve(sha, records, reqs[0]).0, reqs[1..], keyId)
  }

  function OwnReqs(reqs: seq<Req>, keyId: string): seq<Req> {
    if reqs == [] then []
    else (if reqs[0].keyId == keyId then [reqs[0]] else []) + OwnReqs(reqs[1..], keyId)
  }

  /** The two stores hold the same records of the key, now and at any later time. */
  ghost predicate SameOwn(a: seq<Record>, b: seq<Record>, keyId: string, now: int) {
    forall t :: t >= now ==> OwnLive(a, keyId, t) == OwnLive(b, keyId, t)
  }

  lemma SameAnswer(sha: Sha, a: seq<Record>, b: seq<Record>, q: Req)
    requires Inv(a, q.now) && Inv(b, q.now) && HasRoom(a, q.now) && HasRoom(b, q.now)
    requires SameOwn(a, b, q.keyId, q.now)
    ensures Serve(sha, a, q).1 == Serve(sha, b, q).1
    ensures Stores(sha, a, q) == Stores(sha, b, q)
  {
    hide HasRoom, Gc, FindPair, OwnLive, Keyed, Stored;
    if Keyed(q).Some? {
      AnswerFromOwn(sha, a, q);
      AnswerFromOwn(sha, b, q);
    }
  }

  lemma {:induction false} SameOwnAfter(sha: Sha, a: seq<Record>, b: seq<Record>, q: Req)
    requires Inv(a, q.now) && Inv(b, q.now) && HasRoom(a, q.now) && HasRoom(b, q.now)
    requires q.now <= q.later && SameOwn(a, b, q.keyId, q.now)
    ensures SameOwn(Serve(sha, a, q).0, Serve(sha, b, q).0, q.keyId, q.later)
  {
    hide HasRoom, Serve, OwnLive, Stores;
    SameAnswer(sha, a, b, q);
    forall t | t >= q.later
      ensures OwnLive(Serve(sha, a, q).0, q.keyId, t) == OwnLive(Serve(sha, b, q).0, q.keyId, t)
    {
      ServeOwnLive(sha, a, q, q.keyId, t);
      ServeOwnLive(sha, b, q, q.keyId, t);
    }
  }

  lemma SameOwnOther(sha: Sha, a: seq<Record>, b: seq<Record>, q: Req, keyId: string)
    requires Inv(a, q.now) && HasRoom(a, q.now) && q.now <= q.later
    requires q.keyId != keyId && SameOwn(a, b, keyId, q.now)
    ensures SameOwn(Serve(sha, a, q).0, b, keyId, q.later)
  {
    hide HasRoom, Serve, OwnLive, Stores;
    forall t | t >= q.later ensures OwnLive(Serve(sha, a, q).0, keyId, t) == OwnLive(b, keyId, t) {
      ServeOwnLive(sha, a, q, keyId, t);
      OthersAddNothing(sha, a, q, keyId, t);
      assert OwnLive(a, keyId, t) + [] == OwnLive(a, keyId, t);
    }
  }

  /** At every request of the run the unexpired records are within the cap. */
  ghost predicate Room(sha: Sha, records: seq<Record>, reqs: seq<Req>)
    decreases |reqs|
  {
    reqs != [] ==> HasRoom(records, reqs[0].now) && Room(sha, Serve(sha, records, reqs[0]).0, reqs[1..])
  }

  /** Other keys never change what a key's requests get, as long as the cap is not exceeded: the
      answers are those of a run in which only that key's requests are served. */
  lemma {:induction false} KeysAreIndependent(
    sha: Sha, a: seq<Record>, b: seq<Record>, reqs: seq<Req>, keyId: string, start: int, end: int)
    requires Inv(a, start) && Inv(b, start) && Sequential(reqs, start, end)
    requires Room(sha, a, reqs) && Room(sha, b, OwnReqs(reqs, keyId))
    requires SameOwn(a, b, keyId, start)
    ensures Outcomes(sha, a, reqs, keyId) == Outcomes(sha, b, OwnReqs(reqs, keyId), keyId)
    decreases |reqs|
  {
    hide Serve, Inv, SameOwn, HasRoom;
    if reqs != [] {
      var q := reqs[0];
      LaterInv(a, start, q.now);
      LaterInv(b, start, q.now);
      SameOwnLater(a, b, keyId, start, q.now);
      ServeShape(sha, a, q);
      if q.keyId == keyId {
        assert OwnReqs(reqs, keyId) == [q] + OwnReqs(reqs[1..], keyId);
        assert OwnReqs(reqs, keyId)[1..] == OwnReqs(reqs[1..], keyId);
        SameAnswer(sha, a, b, q);
        SameOwnAfter(sha, a, b, q);
        ServeShape(sha, b, q);
        KeysAreIndependent(sha, Serve(sha, a, q).0, Serve(sha, b, q).0, reqs[1..], keyId, q.later, end);
      } else {
        assert OwnReqs(reqs, keyId) == OwnReqs(reqs[1..], keyId);
        SameOwnOther(sha, a, b, q, keyId);
        LaterInv(b, start, q.later);
        KeysAreIndependent(sha, Serve(sha, a, q).0, b, reqs[1..], keyId, q.later, end);
      }
    }
  }

  lemma SameOwnLater(a: seq<Record>, b: seq<Record>, keyId: string, t: int, u: int)
    requires SameOwn(a, b, keyId, t) && t <= u
    ensures SameOwn(a, b, keyId, u)
  {
  }

  ghost predicate AllOf(records: seq<Record>, keyId: string) {
    forall x :: x in records ==> x.keyId == keyId
  }

  lemma LiveCount(records: seq<Record>, now: int)
    requires Inv(records, now)
    ensures |records| - ExpiredCount(records, now) == |Filter(records, (r: Record) => Live(r, now))|
  {
    hide ExpiredCount, Inv, Live;
    LiveIsSuffix(records, now);
  }

  lemma OwnAtMostLive(records: seq<Record>, keyId: string, now: int)
    ensures |OwnLive(records, keyId, now)| <= |Filter(records, (r: Record) => Live(r, now))|
    ensures AllOf(records, keyId) ==> OwnLive(records, keyId, now) == Filter(records, (r: Record) => Live(r, now))
  {
    var live, own := (r: Record) => Live(r, now), (r: Record) => Of(r, keyId, now);
    FilterTwice(records, live, own);
    if AllOf(records, keyId) {
      FilterSame(records, own, live);
    }
  }

  /** A store of one key's records alone has room whenever a store with the same ones has. */
  lemma OwnHasRoom(a: seq<Record>, b: seq<Record>, keyId: string, now: int)
    requires Inv(a, now) && Inv(b, now) && HasRoom(a, now)
    requires SameOwn(a, b, keyId, now) && AllOf(b, keyId)
    ensures HasRoom(b, now)
  {
    hide ExpiredCount, Inv, OwnLive, AllOf;
    LiveCount(a, now);
    LiveCount(b, now);
    OwnAtMostLive(a, keyId, now);
    OwnAtMostLive(b, keyId, now);
  }

  lemma {:induction false} StaysOwn(sha: Sha, b: seq<Record>, q: Req, keyId: string)
    requires Inv(b, q.now) && q.now <= q.later && AllOf(b, keyId) && q.keyId == keyId
    ensures AllOf(Serve(sha, b, q).0, keyId)
  {
    hide Serve, Stores, Inv, Dropped;
    ServeShape(sha, b, q);
  }

  lemma {:induction false} OwnRunHasRoom(
    sha: Sha, a: seq<Record>, b: seq<Record>, reqs: seq<Req>, keyId: string, start: int, end: int)
    requires Inv(a, start) && Inv(b, start) && Sequential(reqs, start, end)
    requires Room(sha, a, reqs) && AllOf(b, keyId) && SameOwn(a, b, keyId, start)
    ensures Room(sha, b, OwnReqs(reqs, keyId))
    decreases |reqs|
  {
    hide Serve, Inv, SameOwn, HasRoom, AllOf;
    if reqs != [] {
      var q := reqs[0];
      LaterInv(a, start, q.now);
      LaterInv(b, start, q.now);
      SameOwnLater(a, b, keyId, start, q.now);
      ServeShape(sha, a, q);
      if q.keyId == keyId {
        assert OwnReqs(reqs, keyId) == [q] + OwnReqs(reqs[1..], keyId);
        assert OwnReqs(reqs, keyId)[1..] == OwnReqs(reqs[1..], keyId);
        OwnHasRoom(a, b, keyId, q.now);
        SameOwnAfter(sha, a, b, q);
        ServeShape(sha, b, q);
        StaysOwn(sha, b, q, keyId);
        OwnRunHasRoom(sha, Serve(sha, a, q).0, Serve(sha, b, q).0, reqs[1..], keyId, q.later, end);
      } else {
        assert OwnReqs(reqs, keyId) == OwnReqs(reqs[1..], keyId);
        SameOwnOther(sha, a, b, q, keyId);
        LaterInv(b, start, q.later);
        OwnRunHasRoom(sha, Serve(sha, a, q).0, b, reqs[1..], keyId, q.later, end);
      }
    }
  }

  /** From an empty store, however long the run: while the unexpired records stay within the cap, a key
      gets the answers it would get if it were alone. */
  lemma AloneOrNot(sha: Sha, reqs: seq<Req>, keyId: string, start: int, end: int)
    requires Sequential(reqs, start, end) && Room(sha, [], reqs)
    ensures Outcomes(sha, [], reqs, keyId) == Outcomes(sha, [], OwnReqs(reqs, keyId), keyId)
  {
    hide Room, Sequential, Outcomes, OwnReqs, OwnLive;
    OwnRunHasRoom(sha, [], [], reqs, keyId, start, end);
    KeysAreIndependent(sha, [], [], reqs, keyId, start, end);
  }
}
