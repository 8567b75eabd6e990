/** What every run of the approval store keeps (web/lib/dualControlStore.ts). */
module DualControlRuns {
  import opened Prelude
  import opened DualControl

  /** What happened, in the order in which it happened. */
  datatype Entry =
    | Requested(id: string, requester: string, action: string, target: string, at: int)
    | Granted(id: string, approver: string, token: string, checkedAt: int, at: int)
    | Redeemed(id: string, caller: string, action: string, target: string, token: string, at: int)
    | Withdrawn(id: string, actor: string, at: int)

  datatype State = State(rows: seq<Row>, log: seq<Entry>)

  /** The log entry of a call that succeeded. */
  function EntryOf(c: Call, o: Outcome): Option<Entry> {
    if o.store.None? then None
    else
      match o.reply
      case Done(r) =>
        if c.Request? then Some(Requested(r.id, c.requester, c.action, c.target, c.later))
        else if c.Consume? then Some(Redeemed(r.id, c.caller, c.action, c.target, c.token, c.later))
        else if c.Cancel? then Some(Withdrawn(r.id, c.actor, c.later))
        else None
      case Minted(r, token) => if c.Approve? then Some(Granted(r.id, c.approver, token, c.now, c.later)) else None
      case _ => None
  }

  function Exec(h: Hash, st: State, c: Call): State {
    var o := Handle(h, Sweep(st.rows, c.now), c);
    State(
      Lazy(h, st.rows, c).0,
      if EntryOf(c, o).Some? then st.log + [EntryOf(c, o).value] else st.log)
  }

  /** A request draws an id that no row has. */
  predicate Fresh(st: State, c: Call) {
    c.Request? ==> forall k :: 0 <= k < |st.rows| ==> st.rows[k].id != c.id
  }

  // ----- the story of a row -------------------------------------------------------------

  ghost predicate WasRequested(log: seq<Entry>, r: Row, i: nat) {
    i < |log| && log[i] == Requested(r.id, r.requestedBy, r.action, r.target, r.requestedAt)
  }

  /** Someone else granted the row, after it was requested and before the request ran out. */
  ghost predicate WasGranted(h: Hash, log: seq<Entry>, r: Row, j: nat) {
    && j < |log| && log[j].Granted?
    && log[j].id == r.id
    && r.approvedBy == Some(log[j].approver) && log[j].approver != r.requestedBy
    && log[j].checkedAt < r.requestedAt + TTL_MS
    && r.tokenExpiresAt == Some(log[j].at + APPROVAL_TTL_MS)
    && (r.status == Approved ==> r.tokenHash == Some(h(log[j].token)))
  }

  ghost predicate RowOk(h: Hash, log: seq<Entry>, r: Row) {
    && r.expiresAt == r.requestedAt + TTL_MS
    && (r.tokenHash.Some? <==> r.status == Approved)
    && (exists i :: WasRequested(log, r, i))
    && (r.status == Approved || r.status == Consumed ==>
          exists i, j :: i < j && WasRequested(log, r, i) && WasGranted(h, log, r, j))
  }

  /** Entry `k` redeems an approval: its story is complete and its token was not used before. */
  ghost predicate SafeRedeem(h: Hash, log: seq<Entry>, k: nat, i: nat, j: nat)
    requires k < |log| && log[k].Redeemed?
  {
    var e := log[k];
    && i < j < k
    && log[i].Requested? && log[i] == Requested(e.id, e.caller, e.action, e.target, log[i].at)
    && log[j].Granted? && log[j].id == e.id && log[j].approver != e.caller
    && log[j].checkedAt < log[i].at + TTL_MS
    && e.at < log[j].at + APPROVAL_TTL_MS
    && h(e.token) == h(log[j].token)
  }

  ghost predicate LogOk(h: Hash, log: seq<Entry>) {
    && (forall k :: 0 <= k < |log| && log[k].Redeemed? ==> exists i, j :: SafeRedeem(h, log, k, i, j))
    && (forall k, l :: 0 <= k < l < |log| && log[k].Redeemed? && log[l].Redeemed? ==> log[k].id != log[l].id)
  }

  ghost predicate UniqueIds(rows: seq<Row>) {
    forall k, l :: 0 <= k < l < |rows| ==> rows[k].id != rows[l].id
  }

  predicate SameTriple(r: Row, q: Row) {
    r.action == q.action && r.target == q.target && r.requestedBy == q.requestedBy
  }

  /** At most one row is pending per action, target and requester. */
  ghost predicate OnePending(rows: seq<Row>) {
    forall k, l :: 0 <= k < l < |rows| && rows[k].status == Pending && rows[l].status == Pending ==>
      !SameTriple(rows[k], rows[l])
  }

  ghost predicate RedeemedAreConsumed(st: State) {
    forall k :: 0 <= k < |st.log| && st.log[k].Redeemed? ==>
      exists l :: 0 <= l < |st.rows| && st.rows[l].id == st.log[k].id && st.rows[l].status == Consumed
  }

  ghost predicate Inv(h: Hash, st: State) {
    && UniqueIds(st.rows)
    && OnePending(st.rows)
    && (forall k :: 0 <= k < |st.rows| ==> RowOk(h, st.log, st.rows[k]))
    && RedeemedAreConsumed(st)
    && LogOk(h, st.log)
  }

  // ----- preservation ----------------------------------------------------------------------

  lemma SweepKeepsIds(rows: seq<Row>, now: int)
    requires UniqueIds(rows) && OnePending(rows)
    ensures UniqueIds(Sweep(rows, now)) && OnePending(Sweep(rows, now))
  {
  }

  lemma SweepKeepsConsumed(st: State, now: int)
    requires RedeemedAreConsumed(st)
    ensures RedeemedAreConsumed(st.(rows := Sweep(st.rows, now)))
  {
    var s := Sweep(st.rows, now);
    forall k | 0 <= k < |st.log| && st.log[k].Redeemed?
      ensures exists l :: 0 <= l < |s| && s[l].id == st.log[k].id && s[l].status == Consumed
    {
      var l :| 0 <= l < |st.rows| && st.rows[l].id == st.log[k].id && st.rows[l].status == Consumed;
      assert s[l].id == st.log[k].id;
    }
  }

  lemma {:induction false} SweepKeeps(h: Hash, st: State, now: int)
    requires Inv(h, st)
    ensures Inv(h, st.(rows := Sweep(st.rows, now)))
  {
    hide RowOk, LogOk, SweepRow, UniqueIds, OnePending, RedeemedAreConsumed;
    SweepKeepsIds(st.rows, now);
    SweepKeepsConsumed(st, now);
    var s := Sweep(st.rows, now);
    forall k | 0 <= k < |s| ensures RowOk(h, st.log, s[k]) {
      RowOkSwept(h, st.log, st.rows[k], now);
    }
  }

  lemma RowOkSwept(h: Hash, log: seq<Entry>, r: Row, now: int)
    requires RowOk(h, log, r)
    ensures RowOk(h, log, SweepRow(r, now))
  {
    var q := SweepRow(r, now);
    var i :| WasRequested(log, r, i);
    assert WasRequested(log, q, i);
  }

  lemma RowOkGrows(h: Hash, log: seq<Entry>, r: Row, e: Entry)
    requires RowOk(h, log, r)
    ensures RowOk(h, log + [e], r)
  {
    var i :| WasRequested(log, r, i);
    assert WasRequested(log + [e], r, i);
    if r.status == Approved || r.status == Consumed {
      var a, b :| a < b && WasRequested(log, r, a) && WasGranted(h, log, r, b);
      assert WasRequested(log + [e], r, a) && WasGranted(h, log + [e], r, b);
    }
  }

  lemma LogOkGrows(h: Hash, log: seq<Entry>, e: Entry)
    requires LogOk(h, log) && !e.Redeemed?
    ensures LogOk(h, log + [e])
  {
    forall k | 0 <= k < |log + [e]| && (log + [e])[k].Redeemed?
      ensures exists i, j :: SafeRedeem(h, log + [e], k, i, j)
    {
      var i, j :| SafeRedeem(h, log, k, i, j);
      assert SafeRedeem(h, log + [e], k, i, j);
    }
  }

  /** Storing one changed row: ids and triples stay, and no row becomes pending. */
  lemma UpdateKeeps(h: Hash, st: State, k: nat, r: Row, log: seq<Entry>)
    requires Inv(h, st) && k < |st.rows|
    requires r.id == st.rows[k].id && SameTriple(r, st.rows[k]) && r.status != Pending
    requires st.rows[k].status != Consumed
    requires forall l :: 0 <= l < |st.rows| ==> RowOk(h, log, st.rows[l])
    requires RowOk(h, log, r) && LogOk(h, log)
    requires forall i :: 0 <= i < |log| && log[i].Redeemed? ==>
               (i < |st.log| && log[i] == st.log[i]) || (log[i].id == r.id && r.status == Consumed)
    ensures Inv(h, State(st.rows[k := r], log))
  {
    hide RowOk, LogOk;
    var rows := st.rows[k := r];
    forall i | 0 <= i < |log| && log[i].Redeemed?
      ensures exists l :: 0 <= l < |rows| && rows[l].id == log[i].id && rows[l].status == Consumed
    {
      if i < |st.log| && log[i] == st.log[i] {
        var l :| 0 <= l < |st.rows| && st.rows[l].id == st.log[i].id && st.rows[l].status == Consumed;
        assert rows[l] == st.rows[l];
      } else {
        assert rows[k] == r;
      }
    }
  }

  lemma AddKeeps(h: Hash, st: State, r: Row, e: Entry)
    requires Inv(h, st)
    requires forall k :: 0 <= k < |st.rows| ==> st.rows[k].id != r.id
    requires forall k :: 0 <= k < |st.rows| && st.rows[k].status == Pending ==> !SameTriple(st.rows[k], r)
    requires r.status == Pending && r.tokenHash.None? && r.expiresAt == r.requestedAt + TTL_MS
    requires e == Requested(r.id, r.requestedBy, r.action, r.target, r.requestedAt)
    ensures Inv(h, State(st.rows + [r], st.log + [e]))
  {
    var rows, log := st.rows + [r], st.log + [e];
    forall k | 0 <= k < |rows| ensures RowOk(h, log, rows[k]) {
      if k < |st.rows| {
        RowOkGrows(h, st.log, st.rows[k], e);
      } else {
        assert WasRequested(log, r, |st.log|);
      }
    }
    LogOkGrows(h, st.log, e);
    forall k | 0 <= k < |log| && log[k].Redeemed?
      ensures exists l :: 0 <= l < |rows| && rows[l].id == log[k].id && rows[l].status == Consumed
    {
      var l :| 0 <= l < |st.rows| && st.rows[l].id == st.log[k].id && st.rows[l].status == Consumed;
      assert rows[l] == st.rows[l];
    }
  }

  lemma RequestKeeps(h: Hash, st: State, c: Call)
    requires Inv(h, st) && c.Request? && Fresh(st, c)
    ensures var o := HandleRequest(st.rows, c);
            o.store.Some? ==> EntryOf(c, o).Some? && Inv(h, State(o.store.value, st.log + [EntryOf(c, o).value]))
  {
    var o := HandleRequest(st.rows, c);
    if o.store.Some? {
      AddKeeps(h, st, NewRow(c), EntryOf(c, o).value);
    }
  }

  lemma {:induction false} ApproveKeeps(h: Hash, st: State, c: Call)
    requires Inv(h, st) && c.Approve?
    requires forall k :: 0 <= k < |st.rows| && st.rows[k].status == Pending ==> c.now < st.rows[k].expiresAt
    ensures var o := HandleApprove(h, st.rows, c);
            o.store.Some? ==> EntryOf(c, o).Some? && Inv(h, State(o.store.value, st.log + [EntryOf(c, o).value]))
  {
    var o := HandleApprove(h, st.rows, c);
    if o.store.Some? {
      var k := FindId(st.rows, c.rowId);
      var e := EntryOf(c, o).value;
      var old_, r := st.rows[k], ApprovedRow(h, st.rows[k], c);
      forall l | 0 <= l < |st.rows| ensures RowOk(h, st.log + [e], st.rows[l]) {
        RowOkGrows(h, st.log, st.rows[l], e);
      }
      LogOkGrows(h, st.log, e);
      var i :| WasRequested(st.log, old_, i);
      assert WasRequested(st.log + [e], r, i);
      assert WasGranted(h, st.log + [e], r, |st.log|);
      UpdateKeeps(h, st, k, r, st.log + [e]);
    }
  }

  lemma CancelKeeps(h: Hash, st: State, c: Call)
    requires Inv(h, st) && c.Cancel?
    ensures var o := HandleCancel(st.rows, c);
            o.store.Some? ==> EntryOf(c, o).Some? && Inv(h, State(o.store.value, st.log + [EntryOf(c, o).value]))
  {
    var o := HandleCancel(st.rows, c);
    if o.store.Some? {
      var k := FindId(st.rows, c.rowId);
      var e := EntryOf(c, o).value;
      var r := CancelledRow(st.rows[k], c);
      var i :| WasRequested(st.log, st.rows[k], i);
      assert WasRequested(st.log + [e], r, i);
      CancelledKeeps(h, st, k, r, e);
    }
  }

  lemma CancelledKeeps(h: Hash, st: State, k: nat, r: Row, e: Entry)
    requires Inv(h, st) && k < |st.rows| && RowOk(h, st.log + [e], r) && e.Withdrawn?
    requires r.id == st.rows[k].id && SameTriple(r, st.rows[k]) && r.status != Pending
    requires st.rows[k].status != Consumed
    ensures Inv(h, State(st.rows[k := r], st.log + [e]))
  {
    hide RowOk, LogOk;
    forall l | 0 <= l < |st.rows| ensures RowOk(h, st.log + [e], st.rows[l]) {
      RowOkGrows(h, st.log, st.rows[l], e);
    }
    LogOkGrows(h, st.log, e);
    UpdateKeeps(h, st, k, r, st.log + [e]);
  }

  lemma RedeemExtendsLog(h: Hash, log: seq<Entry>, r: Row, c: Call, e: Entry, i: nat, j: nat)
    requires LogOk(h, log) && i < j && WasRequested(log, r, i) && WasGranted(h, log, r, j)
    requires r.status == Approved && c.Consume?
    requires r.tokenHash == Some(h(c.token)) && r.tokenExpiresAt.Some? && c.later < r.tokenExpiresAt.value
    requires r.action == c.action && r.target == c.target && r.requestedBy == c.caller
    requires e == Redeemed(r.id, c.caller, c.action, c.target, c.token, c.later)
    requires forall k :: 0 <= k < |log| && log[k].Redeemed? ==> log[k].id != r.id
    ensures LogOk(h, log + [e])
  {
    var n := |log|;
    assert SafeRedeem(h, log + [e], n, i, j);
    forall k | 0 <= k < n + 1 && (log + [e])[k].Redeemed? ensures exists x, y :: SafeRedeem(h, log + [e], k, x, y) {
      if k < n {
        var x, y :| SafeRedeem(h, log, k, x, y);
        assert SafeRedeem(h, log + [e], k, x, y);
      }
    }
  }

  lemma ConsumedRowOk(h: Hash, log: seq<Entry>, r: Row, c: Call, e: Entry, i: nat, j: nat)
    requires RowOk(h, log, r) && i < j && WasRequested(log, r, i) && WasGranted(h, log, r, j) && c.Consume?
    ensures RowOk(h, log + [e], ConsumedRow(r, c))
  {
    var q := ConsumedRow(r, c);
    assert WasRequested(log + [e], q, i) && WasGranted(h, log + [e], q, j);
  }

  lemma RedeemIsSafe(h: Hash, log: seq<Entry>, r: Row, c: Call, e: Entry)
    requires LogOk(h, log) && RowOk(h, log, r) && r.status == Approved && c.Consume?
    requires r.tokenHash == Some(h(c.token)) && r.tokenExpiresAt.Some? && c.later < r.tokenExpiresAt.value
    requires r.action == c.action && r.target == c.target && r.requestedBy == c.caller
    requires e == Redeemed(r.id, c.caller, c.action, c.target, c.token, c.later)
    requires forall k :: 0 <= k < |log| && log[k].Redeemed? ==> log[k].id != r.id
    ensures LogOk(h, log + [e])
    ensures RowOk(h, log + [e], ConsumedRow(r, c))
  {
    hide LogOk, WasRequested, WasGranted;
    var i, j :| i < j && WasRequested(log, r, i) && WasGranted(h, log, r, j);
    hide RowOk;
    RedeemExtendsLog(h, log, r, c, e, i, j);
    ConsumedRowOk(h, log, r, c, e, i, j);
  }

  lemma ExpiredRowOk(h: Hash, log: seq<Entry>, r: Row)
    requires RowOk(h, log, r)
    ensures RowOk(h, log, r.(status := Expired, tokenHash := None))
  {
    var i :| WasRequested(log, r, i);
    assert WasRequested(log, r.(status := Expired, tokenHash := None), i);
  }

  lemma RedeemKeeps(h: Hash, st: State, c: Call, k: nat, e: Entry)
    requires Inv(h, st) && c.Consume? && k < |st.rows|
    requires var r := st.rows[k];
             && r.status == Approved && r.tokenHash == Some(h(c.token))
             && r.tokenExpiresAt.Some? && c.later < r.tokenExpiresAt.value
             && r.action == c.action && r.target == c.target && r.requestedBy == c.caller
             && e == Redeemed(r.id, c.caller, c.action, c.target, c.token, c.later)
    ensures Inv(h, State(st.rows[k := ConsumedRow(st.rows[k], c)], st.log + [e]))
  {
    hide RowOk, LogOk;
    var r := st.rows[k];
    assert RowOk(h, st.log, r);
    RedeemIsSafe(h, st.log, r, c, e);
    forall l | 0 <= l < |st.rows| ensures RowOk(h, st.log + [e], st.rows[l]) {
      RowOkGrows(h, st.log, st.rows[l], e);
    }
    UpdateKeeps(h, st, k, ConsumedRow(r, c), st.log + [e]);
  }

  lemma ConsumeKeeps(h: Hash, st: State, c: Call)
    requires Inv(h, st) && c.Consume?
    ensures var o := HandleConsume(h, st.rows, c);
            o.store.Some? ==>
              Inv(h, State(o.store.value, if EntryOf(c, o).Some? then st.log + [EntryOf(c, o).value] else st.log))
    ensures HandleConsume(h, st.rows, c).reply != Refused(NotApproved)
  {
    var o := HandleConsume(h, st.rows, c);
    var k := FindHash(st.rows, h(c.token));
    if k >= 0 {
      var r := st.rows[k];
      assert RowOk(h, st.log, r);
      assert r.status == Approved;
      hide RowOk, Inv;
      if r.tokenExpiresAt.None? || r.tokenExpiresAt.value <= c.later {
        ExpiredRowOk(h, st.log, r);
        UpdateKeepsRow(h, st, k, r.(status := Expired, tokenHash := None));
      } else if o.store.Some? {
        RedeemKeeps(h, st, c, k, EntryOf(c, o).value);
      }
    }
  }

  lemma UpdateKeepsRow(h: Hash, st: State, k: nat, r: Row)
    requires Inv(h, st) && k < |st.rows| && RowOk(h, st.log, r)
    requires r.id == st.rows[k].id && SameTriple(r, st.rows[k]) && r.status != Pending
    requires st.rows[k].status != Consumed
    ensures Inv(h, State(st.rows[k := r], st.log))
  {
    hide RowOk, LogOk;
    UpdateKeeps(h, st, k, r, st.log);
  }

  lemma {:induction false} ExecKeeps(h: Hash, st: State, c: Call)
    requires Inv(h, st) && Fresh(st, c)
    ensures Inv(h, Exec(h, st, c))
    ensures Lazy(h, st.rows, c).1 != Refused(NotApproved)
  {
    EarlyIsOther(c);
    hide Inv, HandleRequest, HandleApprove, HandleCancel, HandleConsume, CheckRequest;
    var swept := st.(rows := Sweep(st.rows, c.now));
    SweepKeeps(h, st, c.now);
    if EarlyRefusal(c).None? {
      match c {
        case Request(_, _, _, _, _, _, _) =>
          RequestKeeps(h, swept, c);
          RequestReply(swept.rows, c);
        case Approve(_, _, _, _, _) =>
          ApproveKeeps(h, swept, c);
          ApproveReply(h, swept.rows, c);
        case Cancel(_, _, _, _) =>
          CancelKeeps(h, swept, c);
          CancelReply(swept.rows, c);
        case Consume(_, _, _, _, _, _) =>
          ConsumeKeeps(h, swept, c);
        case List(_, _) =>
        case Get(_, _, _) =>
      }
    }
  }

  lemma EarlyIsOther(c: Call)
    ensures EarlyRefusal(c) != Some(NotApproved)
  {
  }

  lemma RequestReply(s: seq<Row>, c: Call)
    requires c.Request?
    ensures HandleRequest(s, c).reply.Done?
  {
  }

  lemma ApproveReply(h: Hash, s: seq<Row>, c: Call)
    requires c.Approve?
    ensures HandleApprove(h, s, c).reply != Refused(NotApproved)
    ensures HandleApprove(h, s, c).store.Some? ==> HandleApprove(h, s, c).reply.Minted?
  {
  }

  lemma CancelReply(s: seq<Row>, c: Call)
    requires c.Cancel?
    ensures HandleCancel(s, c).reply != Refused(NotApproved)
    ensures HandleCancel(s, c).store.None? ==> EntryOf(c, HandleCancel(s, c)).None?
  {
  }

  // ----- every run ------------------------------------------------------------------------

  function Run(h: Hash, st: State, calls: seq<Call>): State
    decreases |calls|
  {
    if calls == [] then st else Run(h, Exec(h, st, calls[0]), calls[1..])
  }

  ghost predicate FreshIds(h: Hash, st: State, calls: seq<Call>)
    decreases |calls|
  {
    calls != [] ==> Fresh(st, calls[0]) && FreshIds(h, Exec(h, st, calls[0]), calls[1..])
  }

  lemma {:induction false} RunKeeps(h: Hash, st: State, calls: seq<Call>)
    requires Inv(h, st) && FreshIds(h, st, calls)
    ensures Inv(h, Run(h, st, calls))
    decreases |calls|
  {
    if calls != [] {
      ExecKeeps(h, st, calls[0]);
      RunKeeps(h, Exec(h, st, calls[0]), calls[1..]);
    }
  }

  const EMPTY := State([], [])

  /** Every successful consume by X for (action, target) comes after X's own request for exactly
      that pair and after a grant by someone else, checked within 30 minutes of the request and
      given less than 10 minutes before; and no approval is consumed twice. */
  lemma {:induction false} ApprovalSafety(h: Hash, calls: seq<Call>)
    requires FreshIds(h, EMPTY, calls)
    ensures var log := Run(h, EMPTY, calls).log;
            forall k :: 0 <= k < |log| && log[k].Redeemed? ==> exists i, j :: SafeRedeem(h, log, k, i, j)
    ensures var log := Run(h, EMPTY, calls).log;
            forall k, l :: 0 <= k < l < |log| && log[k].Redeemed? && log[l].Redeemed? ==> log[k].id != log[l].id
  {
    RunKeeps(h, EMPTY, calls);
  }

  /** In every reachable state a row has a token hash exactly when it is approved, at most one row
      is pending per (action, target, requester), and no consume call answers `not_approved`. */
  lemma {:induction false} ReachableRows(h: Hash, calls: seq<Call>, c: Call)
    requires FreshIds(h, EMPTY, calls) && !c.Request?
    ensures var rows := Run(h, EMPTY, calls).rows;
            && (forall k :: 0 <= k < |rows| ==> (rows[k].tokenHash.Some? <==> rows[k].status == Approved))
            && OnePending(rows)
    ensures Lazy(h, Run(h, EMPTY, calls).rows, c).1 != Refused(NotApproved)
  {
    RunKeeps(h, EMPTY, calls);
    var st := Run(h, EMPTY, calls);
    forall k | 0 <= k < |st.rows| ensures st.rows[k].tokenHash.Some? <==> st.rows[k].status == Approved {
      assert RowOk(h, st.log, st.rows[k]);
    }
    ExecKeeps(h, st, c);
  }

  predicate Final(s: Status) {
    s == Consumed || s == Cancelled || s == Expired
  }

  /** What one call may do to a row: never reassign it, never touch a finished one, never put an
      approved one back to pending. */
  predicate RowStays(r: Row, q: Row) {
    && q.id == r.id && SameTriple(q, r) && q.reason == r.reason
    && q.requestedAt == r.requestedAt && q.expiresAt == r.expiresAt
    && (r.status == Approved ==> q.approvedBy == r.approvedBy && q.approvedAt == r.approvedAt)
    && (Final(r.status) ==> q == r)
    && (r.status == Approved ==> q.status != Pending)
  }

  predicate StoreStays(s: seq<Row>, o: Outcome, k: nat)
    requires k < |s|
  {
    o.store.Some? ==> |s| <= |o.store.value| && RowStays(s[k], o.store.value[k])
  }

  lemma {:induction false} HandleAbsorbs(h: Hash, st: State, c: Call, k: nat)
    requires Inv(h, st) && k < |st.rows|
    ensures StoreStays(st.rows, Handle(h, st.rows, c), k)
  {
    hide Inv, CheckRequest, Find;
    if EarlyRefusal(c).None? {
      match c {
        case Request(_, _, _, _, _, _, _) => assert StoreStays(st.rows, HandleRequest(st.rows, c), k);
        case Approve(_, _, _, _, _) => assert StoreStays(st.rows, HandleApprove(h, st.rows, c), k);
        case Cancel(_, _, _, _) => assert StoreStays(st.rows, HandleCancel(st.rows, c), k);
        case Consume(_, _, _, _, _, _) => assert StoreStays(st.rows, HandleConsume(h, st.rows, c), k);
        case List(_, _) =>
        case Get(_, _, _) =>
      }
    }
  }

  lemma {:induction false} ExecAbsorbs(h: Hash, st: State, c: Call, k: nat)
    requires Inv(h, st) && k < |st.rows|
    ensures |st.rows| <= |Exec(h, st, c).rows| && RowStays(st.rows[k], Exec(h, st, c).rows[k])
  {
    hide Inv, Handle;
    SweepKeeps(h, st, c.now);
    HandleAbsorbs(h, st.(rows := Sweep(st.rows, c.now)), c, k);
  }

  lemma {:induction false} FinalIsForever(h: Hash, st: State, calls: seq<Call>, k: nat)
    requires Inv(h, st) && FreshIds(h, st, calls)
    requires k < |st.rows| && Final(st.rows[k].status)
    ensures k < |Run(h, st, calls).rows| && Run(h, st, calls).rows[k] == st.rows[k]
    decreases |calls|
  {
    if calls != [] {
      ExecKeeps(h, st, calls[0]);
      ExecAbsorbs(h, st, calls[0], k);
      FinalIsForever(h, Exec(h, st, calls[0]), calls[1..], k);
    }
  }

  // ----- lazy expiry refines eager expiry ----------------------------------------------------

  predicate ClockOk(calls: seq<Call>, start: int) {
    && (forall i :: 0 <= i < |calls| ==> start <= calls[i].now)
    && (forall i, j :: 0 <= i < j < |calls| ==> calls[i].now <= calls[j].now)
  }

  function Replies(h: Hash, rows: seq<Row>, calls: seq<Call>, lazy: bool): seq<Reply>
    decreases |calls|
  {
    if calls == [] then []
    else
      var (next, reply) := if lazy then Lazy(h, rows, calls[0]) else Eager(h, rows, calls[0]);
      [reply] + Replies(h, next, calls[1..], lazy)
  }

  /** Dropping the swept rows is never observable: every call of every run answers as if each
      sweep were written back. */
  lemma {:induction false} LazyRefinesEager(h: Hash, a: seq<Row>, b: seq<Row>, calls: seq<Call>, start: int)
    requires ClockOk(calls, start) && Sweep(a, start) == Sweep(b, start)
    ensures Replies(h, a, calls, true) == Replies(h, b, calls, false)
    decreases |calls|
  {
    if calls != [] {
      var c := calls[0];
      SweepComposes(a, start, c.now);
      SweepComposes(b, start, c.now);
      SweepComposes(a, c.now, c.now);
      assert Lazy(h, a, c).1 == Eager(h, b, c).1;
      assert forall i :: 0 <= i < |calls[1..]| ==> calls[1..][i] == calls[i + 1];
      LazyRefinesEager(h, Lazy(h, a, c).0, Eager(h, b, c).0, calls[1..], c.now);
    }
  }
}
