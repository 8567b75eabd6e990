/** Every answer of the idempotency wrapper, told from what earlier requests got
    (web/lib/idempotency.ts, web/lib/idempotencyStore.ts). */
module IdempotencyPast {
  import opened Prelude
  import opened Text
  import opened Idempotency
  import opened IdempotencyRuns

  // ----- which requests take part ----------------------------------------------------------------

  /** The header, trimmed, has 1 to 255 of these characters, and the body, if any, is JSON. */
  ghost predicate Accepted(q: Req, header: string) {
    && (q.body == "" || q.bodyParses)
    && q.headerRaw.Some? && header == Trim(q.headerRaw.value) && WellFormed(header)
  }

  ghost predicate WellFormed(header: string) {
    1 <= |header| <= 255 && forall c :: c in header ==> HeaderChar(c)
  }

  ghost predicate HeaderChar(c: char) {
    || c in "ABCDEFGHIJKLMNOPQRSTUVWXYZ" || c in "abcdefghijklmnopqrstuvwxyz"
    || c in "0123456789" || c in "._:-/+="
  }

  lemma UpperCaseIff(c: char)
    ensures c in "ABCDEFGHIJKLM" + "NOPQRSTUVWXYZ" <==> 'A' <= c <= 'Z'
  {
    if 'A' <= c <= 'M' {
      assert c == "ABCDEFGHIJKLM"[(c as int) - ('A' as int)];
    } else if 'N' <= c <= 'Z' {
      assert c == "NOPQRSTUVWXYZ"[(c as int) - ('N' as int)];
    }
  }

  lemma LowerCaseIff(c: char)
    ensures c in "abcdefghijklm" + "nopqrstuvwxyz" <==> 'a' <= c <= 'z'
  {
    if 'a' <= c <= 'm' {
      assert c == "abcdefghijklm"[(c as int) - ('a' as int)];
    } else if 'n' <= c <= 'z' {
      assert c == "nopqrstuvwxyz"[(c as int) - ('n' as int)];
    }
  }

  lemma HeaderCharIff(c: char)
    ensures HeaderChar(c) <==> IsHeaderChar(c)
  {
    UpperCaseIff(c);
    LowerCaseIff(c);
    assert "ABCDEFGHIJKLMNOPQRSTUVWXYZ" == "ABCDEFGHIJKLM" + "NOPQRSTUVWXYZ";
    assert "abcdefghijklmnopqrstuvwxyz" == "abcdefghijklm" + "nopqrstuvwxyz";
    if '0' <= c <= '9' {
      assert c == "0123456789"[(c as int) - ('0' as int)];
    }
  }

  lemma AcceptedIff(q: Req, header: string)
    ensures Keyed(q) == Some(header) <==> Accepted(q, header)
  {
    hide HeaderChar, IsHeaderChar, Trim;
    forall c: char ensures HeaderChar(c) <==> IsHeaderChar(c) {
      HeaderCharIff(c);
    }
    if q.headerRaw == Some("") {
      TrimOfEmpty();
    }
  }

  lemma TrimOfEmpty()
    ensures Trim("") == ""
  {
  }

  /** Requests that take no part: a body that is not JSON is refused, a missing header passes, and a
      bad header is refused with its reason. */
  lemma OthersPass(sha: Sha, records: seq<Record>, q: Req)
    requires forall header :: !Accepted(q, header)
    ensures Serve(sha, records, q).0 == records
    ensures var o := Serve(sha, records, q).1;
            if q.body != "" && !q.bodyParses then o == BadJson
            else if q.headerRaw == None || q.headerRaw == Some("") then o == Passed(q.answer)
            else
              var header := Trim(q.headerRaw.value);
              o == BadHeader(if |header| == 0 then EmptyHeader else if |header| > 255 then TooLong else BadChars)
  {
    hide HeaderChar, IsHeaderChar, Trim;
    if Keyed(q).Some? {
      AcceptedIff(q, Keyed(q).value);
    }
    forall c: char ensures HeaderChar(c) <==> IsHeaderChar(c) {
      HeaderCharIff(c);
    }
  }

  /** A letter and its capital, or any other character twice. */
  ghost predicate Capital(c: char, d: char) {
    if 'a' <= c <= 'z' then exists k: nat :: IsLetter(c, d, k) else d == c
  }

  ghost predicate IsLetter(c: char, d: char, k: nat) {
    k < 26 && c == "abcdefghijklmnopqrstuvwxyz"[k] && d == "ABCDEFGHIJKLMNOPQRSTUVWXYZ"[k]
  }

  lemma LetterAt(k: nat)
    requires k < 26
    ensures (("abcdefghijklmnopqrstuvwxyz"[k]) as int) == ('a' as int) + k
    ensures (("ABCDEFGHIJKLMNOPQRSTUVWXYZ"[k]) as int) == ('A' as int) + k
  {
  }

  /** What is hashed: the method in capitals, the route and the body, a line each. */
  lemma FingerprintIs(verb: string, route: string, body: string)
    ensures exists capitals: string ::
              && FingerprintText(verb, route, body) == capitals + "\n" + route + "\n" + body
              && |capitals| == |verb| && forall i :: 0 <= i < |verb| ==> Capital(verb[i], capitals[i])
  {
    var u := Upper(verb);
    forall i | 0 <= i < |verb| ensures Capital(verb[i], u[i]) {
      if 'a' <= verb[i] <= 'z' {
        var k := (verb[i] as int) - ('a' as int);
        LetterAt(k);
        assert IsLetter(verb[i], u[i], k);
      }
    }
    assert FingerprintText(verb, route, body) == u + "\n" + route + "\n" + body;
  }

  // ----- the answers that are kept ---------------------------------------------------------------

  ghost function OutcomeAfter(sha: Sha, reqs: seq<Req>, q: Req): Outcome {
    Serve(sha, Run(sha, [], reqs), q).1
  }

  /** The handler ran under an accepted header and answered with success. */
  ghost predicate Saved(o: Outcome) {
    o.Fresh? && 200 <= o.response.status < 300
  }

  /** The successful answers of the run so far, each with the request it belongs to. */
  ghost function Past(sha: Sha, reqs: seq<Req>): seq<Record>
    decreases |reqs|
  {
    if reqs == [] then []
    else
      var before, q := reqs[..|reqs| - 1], reqs[|reqs| - 1];
      if Saved(OutcomeAfter(sha, before, q)) then Past(sha, before) + [AnswerTo(sha, q)] else Past(sha, before)
  }

  ghost function AnswerTo(sha: Sha, q: Req): Record {
    Record(q.keyId, if q.headerRaw.Some? then Trim(q.headerRaw.value) else "",
           sha(FingerprintText(q.verb, q.route, q.body)), q.answer, q.later, q.later + 86_400_000)
  }

  lemma SavedIff(sha: Sha, records: seq<Record>, q: Req)
    ensures Saved(Serve(sha, records, q).1) <==> Stores(sha, records, q)
    ensures Stores(sha, records, q) ==> RecordOf(sha, q, Keyed(q).value) == AnswerTo(sha, q)
  {
    hide Gc, FindPair, Trim, FingerprintText, Stored;
  }

  /** The store holds the past from some point on; what is missing has expired or has 2000 newer. */
  ghost predicate Holds(past: seq<Record>, records: seq<Record>, d: nat, t: int) {
    && d <= |past| && records == past[d..]
    && forall i :: 0 <= i < d ==> past[i].expiresAt <= t || |past| - 1 - i >= 2000
  }

  lemma ServeHolds(sha: Sha, past: seq<Record>, records: seq<Record>, d: nat, q: Req)
    requires Inv(records, q.now) && q.now <= q.later && Holds(past, records, d, q.now)
    ensures Holds(past + Added(sha, records, q), Serve(sha, records, q).0, d + Dropped(sha, records, q), q.later)
  {
    hide Serve, Cut, Stores, Inv, Keyed, RecordOf;
    ServeShape(sha, records, q);
    var c, e := Dropped(sha, records, q), Added(sha, records, q);
    LaterInv(records, q.now, q.later);
    forall i | 0 <= i < d + c ensures past[i].expiresAt <= q.later || |past| - 1 - i >= 2000 {
      if i >= d {
        assert records[i - d] == past[i];
        SurvivesIff(records, q.now, i - d);
        SurvivesIff(records, q.later, i - d);
      }
    }
    assert (past + e)[d + c..] == records[c..] + e;
    forall i | 0 <= i < d + c ensures (past + e)[i].expiresAt <= q.later || |past + e| - 1 - i >= 2000 {
      assert (past + e)[i] == past[i];
    }
  }

  lemma {:induction false} RunSnoc(sha: Sha, records: seq<Record>, reqs: seq<Req>, q: Req)
    ensures Run(sha, records, reqs + [q]) == Serve(sha, Run(sha, records, reqs), q).0
    decreases |reqs|
  {
    hide Serve;
    if reqs != [] {
      assert (reqs + [q])[1..] == reqs[1..] + [q];
      RunSnoc(sha, Serve(sha, records, reqs[0]).0, reqs[1..], q);
    } else {
      assert (reqs + [q])[1..] == [];
    }
  }

  lemma {:induction false} SequentialSnoc(reqs: seq<Req>, q: Req, start: int, end: int)
    requires Sequential(reqs + [q], start, end)
    ensures Sequential(reqs, start, q.now) && q.now <= q.later <= end
    decreases |reqs|
  {
    if reqs != [] {
      assert (reqs + [q])[1..] == reqs[1..] + [q];
      SequentialSnoc(reqs[1..], q, reqs[0].later, end);
    } else {
      assert (reqs + [q])[1..] == [];
    }
  }

  ghost predicate HoldsFrom(past: seq<Record>, records: seq<Record>, t: int) {
    exists d: nat :: Holds(past, records, d, t)
  }

  lemma HoldsLater(past: seq<Record>, records: seq<Record>, t: int, u: int)
    requires HoldsFrom(past, records, t) && t <= u
    ensures HoldsFrom(past, records, u)
  {
    var d: nat :| Holds(past, records, d, t);
    assert Holds(past, records, d, u);
  }

  lemma PastSnoc(sha: Sha, reqs: seq<Req>, q: Req)
    ensures Past(sha, reqs + [q]) == Past(sha, reqs) + Added(sha, Run(sha, [], reqs), q)
  {
    hide Serve, Stores, RecordOf, AnswerTo, Saved, Run;
    assert (reqs + [q])[..|reqs|] == reqs;
    SavedIff(sha, Run(sha, [], reqs), q);
  }

  lemma {:induction false} RunHolds(sha: Sha, reqs: seq<Req>, start: int, end: int)
    requires Sequential(reqs, start, end)
    ensures HoldsFrom(Past(sha, reqs), Run(sha, [], reqs), end)
    decreases |reqs|
  {
    hide Added, Serve, Dropped, Inv;
    if reqs == [] {
      assert Holds([], [], 0, end);
    } else {
      var before, q := reqs[..|reqs| - 1], reqs[|reqs| - 1];
      assert before + [q] == reqs;
      SequentialSnoc(before, q, start, end);
      RunHolds(sha, before, start, q.now);
      EmptyRunInv(sha, before, start, q.now);
      var records := Run(sha, [], before);
      var d: nat :| Holds(Past(sha, before), records, d, q.now);
      hide Holds;
      ServeHolds(sha, Past(sha, before), records, d, q);
      RunSnoc(sha, [], before, q);
      PastSnoc(sha, before, q);
      HoldsLater(Past(sha, reqs), Run(sha, [], reqs), q.later, end);
    }
  }

  lemma EmptyRunInv(sha: Sha, reqs: seq<Req>, start: int, end: int)
    requires Sequential(reqs, start, end)
    ensures Inv(Run(sha, [], reqs), end)
  {
    RunInv(sha, [], reqs, start, end);
  }

  // ----- every answer ----------------------------------------------------------------------------

  ghost predicate SameRequestKey(r: Record, q: Req, header: string) {
    r.keyId == q.keyId && r.header == header
  }

  /** Entry `i` is the last one for this key and header. */
  ghost predicate LastFor(past: seq<Record>, q: Req, header: string, i: nat) {
    && i < |past| && SameRequestKey(past[i], q, header)
    && forall j :: i < j < |past| ==> !SameRequestKey(past[j], q, header)
  }

  lemma NotHeld(sha: Sha, records: seq<Record>, q: Req, header: string)
    requires Keyed(q) == Some(header) && Inv(records, q.now)
    requires forall r :: r in records ==> !SameRequestKey(r, q, header)
    ensures Serve(sha, records, q).1 == Fresh(q.answer)
  {
    hide Keyed, FindPair, Gc, FingerprintText, Stored, Inv;
    GcIsSuffix(records, q.now);
    var live := Gc(records, q.now);
    assert forall x :: x in live ==> x in records;
  }

  lemma NeverSaved(sha: Sha, reqs: seq<Req>, q: Req, header: string, start: int)
    requires Accepted(q, header) && Sequential(reqs, start, q.now)
    requires forall i :: 0 <= i < |Past(sha, reqs)| ==> !SameRequestKey(Past(sha, reqs)[i], q, header)
    ensures OutcomeAfter(sha, reqs, q) == Fresh(q.answer)
  {
    hide Run, Past, Serve, Accepted, Inv, SameRequestKey;
    RunHolds(sha, reqs, start, q.now);
    EmptyRunInv(sha, reqs, start, q.now);
    AcceptedIff(q, header);
    var past, records := Past(sha, reqs), Run(sha, [], reqs);
    var d: nat :| Holds(past, records, d, q.now);
    forall r | r in records ensures !SameRequestKey(r, q, header) {
      var j :| 0 <= j < |records| && records[j] == r;
      assert past[d + j] == r;
    }
    NotHeld(sha, records, q, header);
  }

  /** The answer that entry `i` gives: it is replayed for 24 hours and until 2000 newer ones. */
  ghost function Remembered(sha: Sha, past: seq<Record>, q: Req, i: nat): Outcome
    requires i < |past|
  {
    if q.now < past[i].expiresAt && |past| - 1 - i < 2000 then
      if past[i].fingerprint == sha(FingerprintText(q.verb, q.route, q.body)) then Replay(past[i])
      else Conflict(past[i])
    else Fresh(q.answer)
  }

  lemma OnceSaved(sha: Sha, reqs: seq<Req>, q: Req, header: string, start: int, i: nat)
    requires Accepted(q, header) && Sequential(reqs, start, q.now)
    requires LastFor(Past(sha, reqs), q, header, i)
    ensures OutcomeAfter(sha, reqs, q) == Remembered(sha, Past(sha, reqs), q, i)
  {
    hide Run, Past, Serve, Accepted, Inv, FingerprintText;
    RunHolds(sha, reqs, start, q.now);
    EmptyRunInv(sha, reqs, start, q.now);
    AcceptedIff(q, header);
    var past, records := Past(sha, reqs), Run(sha, [], reqs);
    var d: nat :| Holds(past, records, d, q.now);
    if i >= d {
      assert Behind(records, past[i], |past| - 1 - i);
      AnsweredIff(sha, records, past[i], |past| - 1 - i, q);
    } else {
      forall r | r in records ensures !SameRequestKey(r, q, header) {
        var j :| 0 <= j < |records| && records[j] == r;
        assert past[d + j] == r;
      }
      NotHeld(sha, records, q, header);
    }
  }

  ghost predicate AsTold(sha: Sha, past: seq<Record>, q: Req, header: string, o: Outcome) {
    && ((forall i: nat :: !LastFor(past, q, header, i)) ==> o == Fresh(q.answer))
    && forall i: nat :: LastFor(past, q, header, i) ==> o == Remembered(sha, past, q, i)
  }

  /** From an empty store, for every run and every request with an accepted header: it gets the last
      successful answer that its key got under its header (a conflict if the requests differ), if that
      is less than 24 hours old and fewer than 2000 others came after it; otherwise the handler runs. */
  lemma AnswerIsTold(sha: Sha, reqs: seq<Req>, q: Req, header: string, start: int)
    requires Accepted(q, header) && Sequential(reqs, start, q.now)
    ensures AsTold(sha, Past(sha, reqs), q, header, OutcomeAfter(sha, reqs, q))
  {
    hide Accepted, Sequential, Past, OutcomeAfter, SameRequestKey, Remembered;
    var past := Past(sha, reqs);
    forall i: nat | LastFor(past, q, header, i)
      ensures OutcomeAfter(sha, reqs, q) == Remembered(sha, past, q, i)
    {
      OnceSaved(sha, reqs, q, header, start, i);
    }
    if forall i: nat :: !LastFor(past, q, header, i) {
      NoneForThen(past, q, header);
      NeverSaved(sha, reqs, q, header, start);
    }
  }

  lemma {:induction false} NoneForThen(past: seq<Record>, q: Req, header: string)
    requires forall i: nat :: !LastFor(past, q, header, i)
    ensures forall i :: 0 <= i < |past| ==> !SameRequestKey(past[i], q, header)
  {
    hide SameRequestKey;
    var n := |past|;
    while n > 0
      invariant 0 <= n <= |past|
      invariant forall i :: n <= i < |past| ==> !SameRequestKey(past[i], q, header)
    {
      assert !LastFor(past, q, header, n - 1);
      n := n - 1;
    }
  }

  /** A success is remembered with the request it belongs to, and no other answer is. */
  lemma SuccessIsRemembered(sha: Sha, reqs: seq<Req>, first: Req, header: string)
    requires Accepted(first, header)
    ensures var o := OutcomeAfter(sha, reqs, first);
            Past(sha, reqs + [first]) ==
            if o.Fresh? && 200 <= first.answer.status < 300 then
              var fp := sha(FingerprintText(first.verb, first.route, first.body));
              Past(sha, reqs)
              + [Record(first.keyId, header, fp, first.answer, first.later, first.later + 86_400_000)]
            else Past(sha, reqs)
  {
    hide Run, Trim, WellFormed, FingerprintText, Gc, FindPair, Stored;
    assert (reqs + [first])[..|reqs|] == reqs;
    var records := Run(sha, [], reqs);
    assert Serve(sha, records, first).1.Fresh? ==> Serve(sha, records, first).1.response == first.answer;
  }

  // ----- the window of one answer ----------------------------------------------------------------

  /** How many requests of the run succeeded in their handler. */
  ghost function SavedCount(sha: Sha, records: seq<Record>, reqs: seq<Req>): nat
    decreases |reqs|
  {
    if reqs == [] then 0
    else
      var (next, o) := Serve(sha, records, reqs[0]);
      (if Saved(o) then 1 else 0) + SavedCount(sha, next, reqs[1..])
  }

  lemma {:induction false} SavedIsStored(sha: Sha, records: seq<Record>, reqs: seq<Req>)
    ensures SavedCount(sha, records, reqs) == StoreCount(sha, records, reqs)
    decreases |reqs|
  {
    hide Serve, Stores, Saved;
    if reqs != [] {
      SavedIff(sha, records, reqs[0]);
      SavedIsStored(sha, Serve(sha, records, reqs[0]).0, reqs[1..]);
    }
  }

  /** The hashes of what identifies the two requests agree. */
  ghost predicate SameText(sha: Sha, p: Req, q: Req) {
    sha(FingerprintText(q.verb, q.route, q.body)) == sha(FingerprintText(p.verb, p.route, p.body))
  }

  lemma SavedStandsLast(sha: Sha, records: seq<Record>, first: Req, header: string)
    requires Inv(records, first.now) && first.now <= first.later && Accepted(first, header)
    requires Serve(sha, records, first).1 == Fresh(first.answer) && 200 <= first.answer.status < 300
    ensures Behind(Serve(sha, records, first).0, AnswerTo(sha, first), 0)
    ensures Inv(Serve(sha, records, first).0, first.later)
    ensures AnswerTo(sha, first).header == header
  {
    hide Serve, Inv, Stores, RecordOf, Dropped, Trim, WellFormed;
    SavedIff(sha, records, first);
    ServeShape(sha, records, first);
  }

  /** Once a handler has answered 2xx under an accepted header, for 24 hours and until 2000 newer such
      answers, every request of that key and header gets that very answer, or a conflict if it differs,
      and no handler runs, whatever else is served in between. */
  lemma ReplayWindow(sha: Sha, records: seq<Record>, first: Req, header: string, reqs: seq<Req>, q: Req)
    requires Inv(records, first.now) && first.now <= first.later && Accepted(first, header)
    requires Serve(sha, records, first).1 == Fresh(first.answer) && 200 <= first.answer.status < 300
    requires Sequential(reqs, first.later, q.now) && q.now < first.later + 86_400_000
    requires SavedCount(sha, Serve(sha, records, first).0, reqs) < 2000
    requires Accepted(q, header) && q.keyId == first.keyId
    ensures var o := Serve(sha, Run(sha, Serve(sha, records, first).0, reqs), q).1;
            && (if SameText(sha, first, q) then o.Replay? else o.Conflict?)
            && o.first.response == first.answer && o.first.header == header && o.first.createdAt == first.later
  {
    hide Serve, Inv, Trim, Accepted, FingerprintText, Behind, Keyed, Run, StoreCount, SavedCount, Sequential;
    var after, rec := Serve(sha, records, first).0, AnswerTo(sha, first);
    SavedStandsLast(sha, records, first, header);
    SavedIsStored(sha, after, reqs);
    AcceptedIff(q, header);
    RunKeepsBehind(sha, after, rec, 0, reqs, first.later, q.now);
    AnsweredIff(sha, Run(sha, after, reqs), rec, StoreCount(sha, after, reqs), q);
  }

  /** The window does not slide: after an answer was replayed within its 24 hours, however often, the
      first request of its key and header after them reaches the handler again. */
  lemma WindowDoesNotSlide(
    sha: Sha, records: seq<Record>, first: Req, header: string, reqs: seq<Req>, end: int, q: Req)
    requires Inv(records, first.now) && first.now <= first.later && Accepted(first, header)
    requires Serve(sha, records, first).1 == Fresh(first.answer) && 200 <= first.answer.status < 300
    requires Sequential(reqs, first.later, end) && end < first.later + 86_400_000 <= q.now
    requires SavedCount(sha, Serve(sha, records, first).0, reqs) < 2000
    requires Accepted(q, header) && q.keyId == first.keyId
    ensures Serve(sha, Run(sha, Serve(sha, records, first).0, reqs), q).1 == Fresh(q.answer)
  {
    hide Serve, Inv, Trim, Accepted, FingerprintText, Behind, Keyed, Run, StoreCount, SavedCount, Sequential;
    var after, rec := Serve(sha, records, first).0, AnswerTo(sha, first);
    SavedStandsLast(sha, records, first, header);
    SavedIsStored(sha, after, reqs);
    AcceptedIff(q, header);
    RunKeepsBehind(sha, after, rec, 0, reqs, first.later, end);
    LaterInv(Run(sha, after, reqs), end, q.now);
    AnsweredIff(sha, Run(sha, after, reqs), rec, StoreCount(sha, after, reqs), q);
  }

  /** An answer outside 200 to 299 is not kept: the next request of its key and header reaches the
      handler again. */
  lemma FailureIsRetried(sha: Sha, records: seq<Record>, first: Req, header: string, q: Req)
    requires Inv(records, first.now) && first.now <= first.later <= q.now && Accepted(first, header)
    requires Serve(sha, records, first).1.Fresh? && !(200 <= first.answer.status < 300)
    requires Accepted(q, header) && q.keyId == first.keyId
    ensures Serve(sha, Serve(sha, records, first).0, q).1 == Fresh(q.answer)
  {
    AcceptedIff(first, header);
    AcceptedIff(q, header);
    hide Inv, Accepted, Keyed, FingerprintText, Stored;
    GcIsSuffix(records, first.now);
    SuffixInv(records, Cut(records, first.now), first.now);
    var live := Gc(records, first.now);
    LaterInv(live, first.now, q.now);
    hide Gc, FindPair, Cut;
    assert Serve(sha, records, first).0 == live;
    assert FindPair(live, q.keyId, header).None?;
    GcIsSuffix(live, q.now);
    FindInSuffix(live, Cut(live, q.now), q.keyId, header);
  }
}
