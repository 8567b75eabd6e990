/** Idempotent replay: the record store and the driver around a handler
    (web/lib/idempotencyStore.ts, web/lib/idempotency.ts). */
module Idempotency {
  import opened Prelude
  import opened Sorting
  import opened Text

  const TTL_MS := 24 * 60 * 60 * 1000
  const MAX_RECORDS: nat := 2000
  const MAX_HEADER_LEN := 255

  datatype Response = Response(status: int, body: string, contentType: string, safeHeaders: map<string, string>)

  datatype Record = Record(
    keyId: string,
    header: string,
    fingerprint: string,
    response: Response,
    createdAt: int,
    expiresAt: int)

  // ----- the record store ---------------------------------------------------------------

  predicate Older(a: Record, b: Record) {
    a.createdAt <= b.createdAt
  }

  predicate Live(r: Record, now: int) {
    r.expiresAt > now
  }

  /** Drops expired records, then the oldest ones beyond the cap. */
  function Gc(records: seq<Record>, now: int): seq<Record> {
    var live := Filter(records, (r: Record) => Live(r, now));
    if |live| <= MAX_RECORDS then live
    else
      var sorted := Sort(live, (a: Record, b: Record) => Older(a, b));
      sorted[|live| - MAX_RECORDS..]
  }

  predicate SamePair(r: Record, keyId: string, header: string) {
    r.keyId == keyId && r.header == header
  }

  /** The first record of a (key, header) pair. */
  function FindPair(records: seq<Record>, keyId: string, header: string): (r: Option<Record>)
    ensures r.Some? ==> r.value in records && SamePair(r.value, keyId, header)
    ensures r.None? ==> forall x :: x in records ==> !SamePair(x, keyId, header)
  {
    if records == [] then None
    else if SamePair(records[0], keyId, header) then Some(records[0])
    else FindPair(records[1..], keyId, header)
  }

  function Stored(records: seq<Record>, rec: Record, now: int): seq<Record> {
    Filter(Gc(records, now), (r: Record) => !SamePair(r, rec.keyId, rec.header)) + [rec]
  }

  // ----- the driver -----------------------------------------------------------------------

  predicate IsHeaderChar(c: char) {
    'A' <= c <= 'Z' || 'a' <= c <= 'z' || '0' <= c <= '9' || c in "._:-/+="
  }

  datatype HeaderCode = EmptyHeader | TooLong | BadChars

  function ValidateHeader(v: string): Result<string, HeaderCode> {
    var s := Trim(v);
    if s == "" then Err(EmptyHeader)
    else if |s| > MAX_HEADER_LEN then Err(TooLong)
    else if !(forall c :: c in s ==> IsHeaderChar(c)) then Err(BadChars)
    else Ok(s)
  }

  function Upper(s: string): string {
    seq(|s|, i requires 0 <= i < |s| =>
      if 'a' <= s[i] <= 'z' then ((s[i] as int) - ('a' as int) + ('A' as int)) as char else s[i])
  }

  /** The text that is hashed into a request's fingerprint. */
  function FingerprintText(verb: string, route: string, body: string): string {
    Upper(verb) + ['\n'] + (route + ['\n'] + body)
  }

  /** A request, the answer its handler would give, and the clock before and after the handler. */
  datatype Req = Req(
    keyId: string,
    headerRaw: Option<string>,
    verb: string,
    route: string,
    body: string,
    bodyParses: bool,
    answer: Response,
    now: int,
    later: int)

  /** What the client gets. The handler ran in the cases `Passed` and `Fresh`. */
  datatype Outcome =
    | BadJson
    | BadHeader(code: HeaderCode)
    | Passed(response: Response)
    | Conflict(first: Record)
    | Replay(first: Record)
    | Fresh(response: Response)

  type Sha = string -> string

  predicate Cacheable(r: Response) {
    200 <= r.status < 300
  }

  function RecordOf(sha: Sha, q: Req, header: string): Record {
    Record(q.keyId, header, sha(FingerprintText(q.verb, q.route, q.body)), q.answer, q.later, q.later + TTL_MS)
  }

  /** The request reaches the store, under this header value. */
  function Keyed(q: Req): Option<string> {
    if q.body != "" && !q.bodyParses then None
    else if q.headerRaw.None? || q.headerRaw.value == "" then None
    else if ValidateHeader(q.headerRaw.value).Err? then None
    else Some(ValidateHeader(q.headerRaw.value).value)
  }

  function Unkeyed(q: Req): Outcome {
    if q.body != "" && !q.bodyParses then BadJson
    else if q.headerRaw.None? || q.headerRaw.value == "" then Passed(q.answer)
    else if ValidateHeader(q.headerRaw.value).Err? then BadHeader(ValidateHeader(q.headerRaw.value).error)
    else Passed(q.answer)
  }

  function Answer(sha: Sha, records: seq<Record>, q: Req, header: string): Outcome {
    match FindPair(Gc(records, q.now), q.keyId, header)
    case None => Fresh(q.answer)
    case Some(r) => if r.fingerprint == RecordOf(sha, q, header).fingerprint then Replay(r) else Conflict(r)
  }

  /** The records after a request, and what the client gets. */
  function Serve(sha: Sha, records: seq<Record>, q: Req): (seq<Record>, Outcome) {
    match Keyed(q)
    case None => (records, Unkeyed(q))
    case Some(header) =>
      var live := Gc(records, q.now);
      var o := Answer(sha, records, q, header);
      (if o.Fresh? && Cacheable(q.answer) then Stored(live, RecordOf(sha, q, header), q.later) else live, o)
  }

  // ----- the module state -----------------------------------------------------------------

  datatype Lookup = Miss | Hit(record: Record) | Clash(record: Record)

  class IdempotencyStore {
    var records: seq<Record>
    const sha: Sha

    constructor (sha: Sha)
      ensures records == [] && this.sha == sha
    {
      this.sha := sha;
      records := [];
    }

    method Lookup(keyId: string, header: string, fp: string, now: int) returns (r: Lookup)
      modifies this
      ensures records == Gc(old(records), now)
      ensures var hit := FindPair(Gc(old(records), now), keyId, header);
              r == if hit.None? then Miss
                   else if hit.value.fingerprint == fp then Hit(hit.value) else Clash(hit.value)
    {
      var live := Gc(records, now);
      SameLengthGc(records, now);
      if |live| != |records| {
        records := live;
      }
      var hit := FindPair(live, keyId, header);
      if hit.None? {
        return Miss;
      }
      if hit.value.fingerprint != fp {
        return Clash(hit.value);
      }
      r := Hit(hit.value);
    }

    method Store(rec: Record, now: int)
      modifies this
      ensures records == Stored(old(records), rec, now)
    {
      var live := Filter(Gc(records, now), (r: Record) => !SamePair(r, rec.keyId, rec.header));
      records := live + [rec];
    }

    method WithIdempotency(q: Req) returns (o: Outcome)
      modifies this
      ensures (records, o) == Serve(sha, old(records), q)
    {
      hide Gc, Stored, FindPair, ValidateHeader, Upper;
      if q.body != "" && !q.bodyParses {
        return BadJson;
      }
      if q.headerRaw.None? || q.headerRaw.value == "" {
        return Passed(q.answer);
      }
      var v := ValidateHeader(q.headerRaw.value);
      if v.Err? {
        return BadHeader(v.error);
      }
      var fp := sha(FingerprintText(q.verb, q.route, q.body));
      var decision := Lookup(q.keyId, v.value, fp, q.now);
      if decision.Clash? {
        return Conflict(decision.record);
      }
      if decision.Hit? {
        return Replay(decision.record);
      }
      if 200 <= q.answer.status < 300 {
        Store(Record(q.keyId, v.value, fp, q.answer, q.later, q.later + TTL_MS), q.later);
      }
      o := Fresh(q.answer);
    }
  }

  lemma SameLengthGc(records: seq<Record>, now: int)
    ensures |Gc(records, now)| == |records| ==> Gc(records, now) == records
  {
    if |Gc(records, now)| == |records| {
      FilterSameLength(records, (r: Record) => Live(r, now));
    }
  }
}
