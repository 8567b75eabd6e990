/** Maker/checker approvals (web/lib/dualControlStore.ts): rows, calls and the store object. */
module DualControl {
  import opened Prelude
  import opened Text

  const TTL_MS := 30 * 60 * 1000
  const APPROVAL_TTL_MS := 10 * 60 * 1000
  const MAX_REASON_LEN := 500
  const MAX_TARGET_LEN := 200

  datatype Status = Pending | Approved | Consumed | Cancelled | Expired

  datatype Row = Row(
    id: string,
    action: string,
    target: string,
    reason: string,
    requestedBy: string,
    requestedAt: int,
    expiresAt: int,
    status: Status,
    approvedBy: Option<string>,
    approvedAt: Option<int>,
    tokenHash: Option<string>,
    tokenExpiresAt: Option<int>,
    consumedAt: Option<int>,
    cancelledAt: Option<int>,
    cancelledBy: Option<string>)

  datatype Code =
    | BadAction | BadTarget | BadReason | BadRequester
    | BadApprover | NotFound | NotPending | RequestExpired | SelfApproval
    | NotCancellable
    | MissingToken | BadToken | NotApproved | TokenExpired | ActionMismatch | TargetMismatch | WrongCaller

  /** One exported function called at `now`; `later` is the clock when it stamps the row.
      `id` and `token` are the random values the call draws. */
  datatype Call =
    | Request(action: string, target: string, reason: string, requester: string, id: string, now: int, later: int)
    | Approve(rowId: string, approver: string, token: string, now: int, later: int)
    | Cancel(rowId: string, actor: string, now: int, later: int)
    | Consume(action: string, target: string, token: string, caller: string, now: int, later: int)
    | List(now: int, later: int)
    | Get(rowId: string, now: int, later: int)

  datatype Reply =
    | Done(row: Row)
    | Minted(row: Row, token: string)
    | Refused(code: Code)
    | Rows(rows: seq<Row>)
    | Maybe(found: Option<Row>)

  type Hash = string -> string

  // ----- expiry -------------------------------------------------------------------

  function SweepRow(r: Row, now: int): Row {
    if r.status == Pending && r.expiresAt <= now then r.(status := Expired)
    else if r.status == Approved && r.tokenExpiresAt.Some? && r.tokenExpiresAt.value <= now then
      r.(status := Expired, tokenHash := None)
    else r
  }

  function Sweep(rows: seq<Row>, now: int): (s: seq<Row>)
    ensures |s| == |rows|
    ensures forall k :: 0 <= k < |rows| ==> s[k] == SweepRow(rows[k], now)
  {
    seq(|rows|, k requires 0 <= k < |rows| => SweepRow(rows[k], now))
  }

  /** Sweeping late makes an earlier sweep superfluous. */
  lemma SweepComposes(rows: seq<Row>, t: int, u: int)
    requires t <= u
    ensures Sweep(Sweep(rows, t), u) == Sweep(rows, u)
  {
  }

  // ----- lookups ------------------------------------------------------------------

  /** Position of the first row with the property, or -1. */
  function Find(rows: seq<Row>, p: Row -> bool): (k: int)
    ensures -1 <= k < |rows|
    ensures k >= 0 ==> p(rows[k])
    ensures forall j :: 0 <= j < (if k >= 0 then k else |rows|) ==> !p(rows[j])
  {
    if rows == [] then -1
    else if p(rows[0]) then 0
    else
      var k := Find(rows[1..], p);
      assert forall j :: 1 <= j < |rows| ==> rows[j] == rows[1..][j - 1];
      if k == -1 then -1 else k + 1
  }

  function FindId(rows: seq<Row>, id: string): int {
    Find(rows, (r: Row) => r.id == id)
  }

  function FindHash(rows: seq<Row>, h: string): int {
    Find(rows, (r: Row) => r.tokenHash == Some(h))
  }

  predicate SamePending(r: Row, action: string, target: string, requester: string) {
    r.status == Pending && r.action == action && r.target == target && r.requestedBy == requester
  }

  function FindPending(rows: seq<Row>, action: string, target: string, requester: string): int {
    Find(rows, (r: Row) => SamePending(r, action, target, requester))
  }

  predicate IsName(s: string) {
    s != "" && 'a' <= s[0] <= 'z' && forall c :: c in s ==> 'a' <= c <= 'z' || '0' <= c <= '9' || c == '_'
  }

  /** <namespace>.<verb> */
  predicate IsAction(s: string) {
    var parts := Split(s, '.');
    |parts| == 2 && IsName(parts[0]) && IsName(parts[1])
  }

  function CheckRequest(action: string, target: string, reason: string, requester: string): Option<Code> {
    if !IsAction(action) then Some(BadAction)
    else if target == "" || |target| > MAX_TARGET_LEN then Some(BadTarget)
    else if Trim(reason) == "" || |Trim(reason)| > MAX_REASON_LEN then Some(BadReason)
    else if requester == "" then Some(BadRequester)
    else None
  }

  function NewRow(c: Call): Row
    requires c.Request?
  {
    Row(c.id, c.action, c.target, Trim(c.reason), c.requester, c.later, c.later + TTL_MS, Pending,
        None, None, None, None, None, None, None)
  }

  // ----- what a call answers, and what it stores -------------------------------------

  /** The answer of a call on swept rows, with the rows to store when it stores any. */
  datatype Outcome = Outcome(store: Option<seq<Row>>, reply: Reply)

  function Refuse(code: Code): Outcome {
    Outcome(None, Refused(code))
  }

  function HandleRequest(s: seq<Row>, c: Call): Outcome
    requires c.Request?
  {
    var k := FindPending(s, c.action, c.target, c.requester);
    if k >= 0 then Outcome(None, Done(s[k]))
    else Outcome(Some(s + [NewRow(c)]), Done(NewRow(c)))
  }

  function ApprovedRow(h: Hash, r: Row, c: Call): Row
    requires c.Approve?
  {
    r.(status := Approved, approvedBy := Some(c.approver), approvedAt := Some(c.later),
       tokenHash := Some(h(c.token)), tokenExpiresAt := Some(c.later + APPROVAL_TTL_MS))
  }

  function HandleApprove(h: Hash, s: seq<Row>, c: Call): Outcome
    requires c.Approve?
  {
    var k := FindId(s, c.rowId);
    if k < 0 then Refuse(NotFound)
    else if s[k].status == Expired then Refuse(RequestExpired)
    else if s[k].status != Pending then Refuse(NotPending)
    else if s[k].requestedBy == c.approver then Refuse(SelfApproval)
    else
      var r := ApprovedRow(h, s[k], c);
      Outcome(Some(s[k := r]), Minted(r, c.token))
  }

  function CancelledRow(r: Row, c: Call): Row
    requires c.Cancel?
  {
    r.(status := Cancelled, cancelledAt := Some(c.later),
       cancelledBy := if c.actor == "" then None else Some(c.actor), tokenHash := None)
  }

  function HandleCancel(s: seq<Row>, c: Call): Outcome
    requires c.Cancel?
  {
    var k := FindId(s, c.rowId);
    if k < 0 then Refuse(NotFound)
    else if s[k].status != Pending && s[k].status != Approved then Refuse(NotCancellable)
    else Outcome(Some(s[k := CancelledRow(s[k], c)]), Done(CancelledRow(s[k], c)))
  }

  function ConsumedRow(r: Row, c: Call): Row
    requires c.Consume?
  {
    r.(status := Consumed, consumedAt := Some(c.later), tokenHash := None)
  }

  function HandleConsume(h: Hash, s: seq<Row>, c: Call): Outcome
    requires c.Consume?
  {
    var k := FindHash(s, h(c.token));
    if k < 0 then Refuse(BadToken)
    else
      var r := s[k];
      if r.status != Approved then Refuse(NotApproved)
      else if r.tokenExpiresAt.None? || r.tokenExpiresAt.value <= c.later then
        Outcome(Some(s[k := r.(status := Expired, tokenHash := None)]), Refused(TokenExpired))
      else if r.action != c.action then Refuse(ActionMismatch)
      else if r.target != c.target then Refuse(TargetMismatch)
      else if r.requestedBy != c.caller then Refuse(WrongCaller)
      else Outcome(Some(s[k := ConsumedRow(r, c)]), Done(ConsumedRow(r, c)))
  }

  /** Checks that come before the store is read. */
  function EarlyRefusal(c: Call): Option<Code> {
    match c
    case Request(action, target, reason, requester, _, _, _) => CheckRequest(action, target, reason, requester)
    case Approve(_, approver, _, _, _) => if approver == "" then Some(BadApprover) else None
    case Consume(_, _, token, _, _, _) => if token == "" then Some(MissingToken) else None
    case _ => None
  }

  function Handle(h: Hash, s: seq<Row>, c: Call): Outcome {
    if EarlyRefusal(c).Some? then Refuse(EarlyRefusal(c).value)
    else
      match c
      case Request(_, _, _, _, _, _, _) => HandleRequest(s, c)
      case Approve(_, _, _, _, _) => HandleApprove(h, s, c)
      case Cancel(_, _, _, _) => HandleCancel(s, c)
      case Consume(_, _, _, _, _, _) => HandleConsume(h, s, c)
      case List(_, _) => Outcome(Some(s), Rows(s))
      case Get(id, _, _) =>
        var k := FindId(s, id);
        Outcome(None, Maybe(if k < 0 then None else Some(s[k])))
  }

  /** A call as the source runs it: the swept rows are dropped unless the call stores. */
  function Lazy(h: Hash, rows: seq<Row>, c: Call): (seq<Row>, Reply) {
    var o := Handle(h, Sweep(rows, c.now), c);
    (if o.store.Some? then o.store.value else rows, o.reply)
  }

  /** The same call in a store that always writes the sweep back. */
  function Eager(h: Hash, rows: seq<Row>, c: Call): (seq<Row>, Reply) {
    var o := Handle(h, Sweep(rows, c.now), c);
    (if o.store.Some? then o.store.value else Sweep(rows, c.now), o.reply)
  }

  // ----- the store object --------------------------------------------------------------

  /** The rows that a sweep expires, as it leaves them. */
  function NewlyExpired(rows: seq<Row>, now: int): seq<Row> {
    if rows == [] then []
    else
      var init, r := NewlyExpired(rows[..|rows| - 1], now), rows[|rows| - 1];
      if SweepRow(r, now) != r then init + [SweepRow(r, now)] else init
  }

  method ExpireSweep(rows: seq<Row>, now: int) returns (s: seq<Row>, expired: seq<Row>)
    ensures s == Sweep(rows, now)
    ensures expired == NewlyExpired(rows, now)
  {
    s, expired := rows, [];
    for i := 0 to |s|
      invariant |s| == |rows|
      invariant forall k :: 0 <= k < i ==> s[k] == SweepRow(rows[k], now)
      invariant forall k :: i <= k < |s| ==> s[k] == rows[k]
      invariant expired == NewlyExpired(rows[..i], now)
    {
      assert rows[..i + 1][..i] == rows[..i];
      var r := s[i];
      if r.status == Pending && r.expiresAt <= now {
        r := r.(status := Expired);
        s := s[i := r];
        expired := expired + [r];
        continue;
      }
      if r.status == Approved && r.tokenExpiresAt.Some? && r.tokenExpiresAt.value <= now {
        r := r.(status := Expired, tokenHash := None);
        s := s[i := r];
        expired := expired + [r];
      }
    }
    assert rows[..|rows|] == rows;
  }

  class ApprovalStore {
    var requests: seq<Row>
    const hash: Hash

    constructor (hash: Hash)
      ensures requests == [] && this.hash == hash
    {
      this.hash := hash;
      requests := [];
    }

    method RequestApproval(
      action: string, target: string, reason: string, requester: string, id: string, now: int, later: int)
      returns (reply: Reply)
      modifies this
      ensures (requests, reply) == Lazy(hash, old(requests), Request(action, target, reason, requester, id, now, later))
    {
      hide IsAction, Trim, Find;
      if !IsAction(action) {
        return Refused(BadAction);
      }
      if target == "" || |target| > MAX_TARGET_LEN {
        return Refused(BadTarget);
      }
      var text := Trim(reason);
      if text == "" || |text| > MAX_REASON_LEN {
        return Refused(BadReason);
      }
      if requester == "" {
        return Refused(BadRequester);
      }
      var s, _ := ExpireSweep(requests, now);
      var dup := FindPending(s, action, target, requester);
      if dup >= 0 {
        return Done(s[dup]);
      }
      var row := Row(id, action, target, text, requester, later, later + TTL_MS, Pending,
                     None, None, None, None, None, None, None);
      requests := s + [row];
      reply := Done(row);
    }

    method ApproveRequest(rowId: string, approver: string, token: string, now: int, later: int)
      returns (reply: Reply)
      modifies this
      ensures (requests, reply) == Lazy(hash, old(requests), Approve(rowId, approver, token, now, later))
    {
      if approver == "" {
        return Refused(BadApprover);
      }
      var s, _ := ExpireSweep(requests, now);
      var k := FindId(s, rowId);
      if k < 0 {
        return Refused(NotFound);
      }
      var r := s[k];
      if r.status == Expired {
        return Refused(RequestExpired);
      }
      if r.status != Pending {
        return Refused(NotPending);
      }
      if r.requestedBy == approver {
        return Refused(SelfApproval);
      }
      r := r.(status := Approved, approvedBy := Some(approver));
      r := r.(approvedAt := Some(later), tokenHash := Some(hash(token)));
      r := r.(tokenExpiresAt := Some(later + APPROVAL_TTL_MS));
      requests := s[k := r];
      reply := Minted(r, token);
    }

    method CancelRequest(rowId: string, actor: string, now: int, later: int) returns (reply: Reply)
      modifies this
      ensures (requests, reply) == Lazy(hash, old(requests), Cancel(rowId, actor, now, later))
    {
      var s, _ := ExpireSweep(requests, now);
      var k := FindId(s, rowId);
      if k < 0 {
        return Refused(NotFound);
      }
      var r := s[k];
      if r.status != Pending && r.status != Approved {
        return Refused(NotCancellable);
      }
      r := r.(status := Cancelled, cancelledAt := Some(later));
      r := r.(cancelledBy := if actor == "" then None else Some(actor), tokenHash := None);
      requests := s[k := r];
      reply := Done(r);
    }

    method ConsumeApproval(action: string, target: string, token: string, caller: string, now: int, later: int)
      returns (reply: Reply)
      modifies this
      ensures (requests, reply) == Lazy(hash, old(requests), Consume(action, target, token, caller, now, later))
    {
      if token == "" {
        return Refused(MissingToken);
      }
      var s, _ := ExpireSweep(requests, now);
      var k := FindHash(s, hash(token));
      if k < 0 {
        return Refused(BadToken);
      }
      var r := s[k];
      if r.status != Approved {
        return Refused(NotApproved);
      }
      if r.tokenExpiresAt.None? || r.tokenExpiresAt.value <= later {
        requests := s[k := r.(status := Expired, tokenHash := None)];
        return Refused(TokenExpired);
      }
      if r.action != action {
        return Refused(ActionMismatch);
      }
      if r.target != target {
        return Refused(TargetMismatch);
      }
      if r.requestedBy != caller {
        return Refused(WrongCaller);
      }
      r := r.(status := Consumed, consumedAt := Some(later), tokenHash := None);
      requests := s[k := r];
      reply := Done(r);
    }

    method ListRequests(now: int, later: int) returns (reply: Reply)
      modifies this
      ensures (requests, reply) == Lazy(hash, old(requests), List(now, later))
    {
      var s, _ := ExpireSweep(requests, now);
      requests := s;
      reply := Rows(s);
    }

    method GetRequest(rowId: string, now: int, later: int) returns (reply: Reply)
      ensures (requests, reply) == Lazy(hash, requests, Get(rowId, now, later))
    {
      var s, _ := ExpireSweep(requests, now);
      var k := FindId(s, rowId);
      reply := Maybe(if k < 0 then None else Some(s[k]));
    }
  }
}
