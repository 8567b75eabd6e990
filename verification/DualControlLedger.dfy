/** The rows of the approval store, told from what happened alone (web/lib/dualControlStore.ts). */
module DualControlLedger {
  import opened Prelude
  import opened DualControl
  import opened DualControlRuns

  /** Entry `i` is the last word on the request. */
  ghost predicate LastWord(log: seq<Entry>, id: string, i: nat) {
    && i < |log| && log[i].id == id
    && forall k :: i < k < |log| ==> log[k].id != id
  }

  /** The status of a request whose last word is `e`, at `now`: 30 minutes to be approved, then 10
      to be used. */
  function StatusOf(e: Entry, now: int): Status {
    match e
    case Requested(_, _, _, _, at) => if now < at + 1_800_000 then Pending else Expired
    case Granted(_, _, _, _, at) => if now < at + 600_000 then Approved else Expired
    case Redeemed(_, _, _, _, _, _) => Consumed
    case Withdrawn(_, _, _) => Cancelled
  }

  /** The stored row says what its last word says; an expiry may be marked, once it is due. */
  ghost predicate Fits(h: Hash, r: Row, e: Entry, t: int) {
    && (r.status == StatusOf(e, t) || (StatusOf(e, t) == Expired && r.status == StatusOf(e, e.at)))
    && (r.tokenHash.Some? <==> r.status == Approved)
    && match e
       case Requested(_, _, _, _, at) => r.expiresAt == at + 1_800_000
       case Granted(_, approver, token, _, at) =>
         && r.approvedBy == Some(approver) && r.approvedAt == Some(at) && r.tokenExpiresAt == Some(at + 600_000)
         && (r.status == Approved ==> r.tokenHash == Some(h(token)))
       case Redeemed(_, _, _, _, _, at) => r.consumedAt == Some(at)
       case Withdrawn(_, actor, at) =>
         r.cancelledAt == Some(at) && r.cancelledBy == if actor == "" then None else Some(actor)
  }

  /** The row was made by its own request. */
  ghost predicate Born(log: seq<Entry>, r: Row) {
    exists q: nat :: WasRequested(log, r, q)
  }

  ghost predicate Told(h: Hash, log: seq<Entry>, r: Row, t: int) {
    Born(log, r) && exists i: nat :: LastWord(log, r.id, i) && Fits(h, r, log[i], t)
  }

  /** Of one request: it is made once, granted at most once, and over once redeemed or withdrawn. */
  ghost predicate Orderly(log: seq<Entry>) {
    forall k, l :: 0 <= k < l < |log| && log[k].id == log[l].id ==>
      && !log[l].Requested? && !log[k].Redeemed? && !log[k].Withdrawn?
      && (log[k].Granted? ==> !log[l].Granted?)
  }

  ghost predicate HasRow(rows: seq<Row>, id: string) {
    exists k :: 0 <= k < |rows| && rows[k].id == id
  }

  ghost predicate AllHaveRows(rows: seq<Row>, log: seq<Entry>) {
    forall i :: 0 <= i < |log| ==> HasRow(rows, log[i].id)
  }

  ghost predicate AllTold(h: Hash, log: seq<Entry>, rows: seq<Row>, t: int) {
    forall k :: 0 <= k < |rows| ==> Told(h, log, rows[k], t)
  }

  /** The rows and the log tell the same story, as of `t`. */
  ghost predicate Tracks(h: Hash, st: State, t: int) {
    && UniqueIds(st.rows) && AllHaveRows(st.rows, st.log) && Orderly(st.log)
    && AllTold(h, st.log, st.rows, t)
  }

  /** The same, with every expiry that is due already marked. */
  ghost predicate Exact(log: seq<Entry>, r: Row, now: int) {
    forall i: nat :: LastWord(log, r.id, i) ==> r.status == StatusOf(log[i], now)
  }

  ghost predicate Swept(h: Hash, st: State, now: int) {
    && Tracks(h, st, now)
    && forall k :: 0 <= k < |st.rows| ==> Exact(st.log, st.rows[k], now)
  }

  // ----- one row -----------------------------------------------------------------------------

  lemma OneLastWord(log: seq<Entry>, id: string, i: nat, j: nat)
    requires LastWord(log, id, i) && LastWord(log, id, j)
    ensures i == j
  {
  }

  lemma FitsSwept(h: Hash, r: Row, e: Entry, t: int, now: int)
    requires Fits(h, r, e, t) && t <= now
    requires e.Requested? ==> r.requestedAt == e.at
    ensures Fits(h, SweepRow(r, now), e, now)
    ensures SweepRow(r, now).status == StatusOf(e, now)
  {
  }

  lemma FitsLater(h: Hash, r: Row, e: Entry, t: int, u: int)
    requires Fits(h, r, e, t) && t <= u
    ensures Fits(h, r, e, u)
  {
  }

  lemma BornWhen(log: seq<Entry>, r: Row, i: nat)
    requires Orderly(log) && Born(log, r) && LastWord(log, r.id, i) && log[i].Requested?
    ensures log[i] == Requested(r.id, r.requestedBy, r.action, r.target, r.requestedAt)
  {
    var q: nat :| WasRequested(log, r, q);
    assert q <= i;
  }

  lemma BornGrows(log: seq<Entry>, r: Row, e: Entry)
    requires Born(log, r)
    ensures Born(log + [e], r)
  {
    var q: nat :| WasRequested(log, r, q);
    assert WasRequested(log + [e], r, q);
  }

  lemma BornStays(log: seq<Entry>, r: Row, q: Row)
    requires Born(log, r) && q.id == r.id && SameTriple(q, r) && q.requestedAt == r.requestedAt
    ensures Born(log, q)
  {
    var i: nat :| WasRequested(log, r, i);
    assert WasRequested(log, q, i);
  }

  lemma ToldSwept(h: Hash, log: seq<Entry>, r: Row, t: int, now: int)
    requires Orderly(log) && Told(h, log, r, t) && t <= now
    ensures Told(h, log, SweepRow(r, now), now) && Exact(log, SweepRow(r, now), now)
  {
    hide Orderly, Fits, StatusOf;
    BornStays(log, r, SweepRow(r, now));
    var i: nat :| LastWord(log, r.id, i) && Fits(h, r, log[i], t);
    if log[i].Requested? {
      BornWhen(log, r, i);
    }
    FitsSwept(h, r, log[i], t, now);
    forall j: nat | LastWord(log, r.id, j) ensures i == j {
      OneLastWord(log, r.id, i, j);
    }
  }

  lemma ToldGrows(h: Hash, log: seq<Entry>, r: Row, e: Entry, t: int, u: int)
    requires Told(h, log, r, t) && t <= u && e.id != r.id
    ensures Told(h, log + [e], r, u)
  {
    hide Fits, Born;
    BornGrows(log, r, e);
    var i: nat :| LastWord(log, r.id, i) && Fits(h, r, log[i], t);
    FitsLater(h, r, log[i], t, u);
    assert LastWord(log + [e], r.id, i);
  }

  lemma ToldLater(h: Hash, log: seq<Entry>, r: Row, t: int, u: int)
    requires Told(h, log, r, t) && t <= u
    ensures Told(h, log, r, u)
  {
    hide Fits, Born;
    var i: nat :| LastWord(log, r.id, i) && Fits(h, r, log[i], t);
    FitsLater(h, r, log[i], t, u);
  }

  lemma ToldNow(h: Hash, log: seq<Entry>, r: Row, e: Entry, t: int)
    requires Born(log + [e], r) && e.id == r.id && Fits(h, r, e, t)
    ensures Told(h, log + [e], r, t)
  {
    hide Fits, Born;
    assert LastWord(log + [e], r.id, |log|);
  }

  // ----- all rows ----------------------------------------------------------------------------

  lemma SweepTracks(h: Hash, st: State, t: int, now: int)
    requires Tracks(h, st, t) && t <= now
    ensures Swept(h, st.(rows := Sweep(st.rows, now)), now)
  {
    hide Told, Exact, Orderly, HasRow;
    var s := Sweep(st.rows, now);
    forall k | 0 <= k < |s| ensures Told(h, st.log, s[k], now) && Exact(st.log, s[k], now) && s[k].id == st.rows[k].id
    {
      hide SweepRow;
      ToldSwept(h, st.log, st.rows[k], t, now);
      SweptId(st.rows[k], now);
    }
    forall i | 0 <= i < |st.log| ensures HasRow(s, st.log[i].id) {
      SameIdsHaveRows(st.rows, s, st.log[i].id);
    }
  }

  lemma SweptId(r: Row, now: int)
    ensures SweepRow(r, now).id == r.id
  {
  }

  lemma SameIdsHaveRows(rows: seq<Row>, s: seq<Row>, id: string)
    requires HasRow(rows, id) && |rows| <= |s|
    requires forall k :: 0 <= k < |rows| ==> s[k].id == rows[k].id
    ensures HasRow(s, id)
  {
    var k :| 0 <= k < |rows| && rows[k].id == id;
    assert s[k].id == id;
  }

  lemma OrderlyGrows(log: seq<Entry>, e: Entry, i: nat)
    requires Orderly(log) && LastWord(log, e.id, i) && !e.Requested?
    requires log[i].Requested? || (log[i].Granted? && !e.Granted?)
    ensures Orderly(log + [e])
  {
  }

  lemma OrderlyStarts(log: seq<Entry>, e: Entry)
    requires Orderly(log) && forall k :: 0 <= k < |log| ==> log[k].id != e.id
    ensures Orderly(log + [e])
  {
  }

  /** One row changes and its entry is appended. */
  lemma UpdateTracks(h: Hash, st: State, k: nat, r: Row, e: Entry, i: nat, t: int, u: int)
    requires Tracks(h, st, t) && t <= u && k < |st.rows|
    requires e.id == r.id == st.rows[k].id && SameTriple(r, st.rows[k]) && r.requestedAt == st.rows[k].requestedAt
    requires LastWord(st.log, e.id, i) && !e.Requested?
    requires st.log[i].Requested? || (st.log[i].Granted? && !e.Granted?)
    requires Fits(h, r, e, u)
    ensures Tracks(h, State(st.rows[k := r], st.log + [e]), u)
  {
    hide Orderly, LastWord, Fits, HasRow;
    var rows, log := st.rows[k := r], st.log + [e];
    OrderlyGrows(st.log, e, i);
    forall l | 0 <= l < |rows| ensures Told(h, log, rows[l], u) {
      assert Told(h, st.log, st.rows[l], t);
      hide Told, Born;
      if l == k {
        BornOf(h, st.log, st.rows[k], t);
        BornStays(st.log, st.rows[k], r);
        BornGrows(st.log, r, e);
        ToldNow(h, st.log, r, e, u);
      } else {
        ToldGrows(h, st.log, st.rows[l], e, t, u);
      }
    }
    hide Told;
    forall j | 0 <= j < |log| ensures HasRow(rows, log[j].id) {
      if j < |st.log| {
        SameIdsHaveRows(st.rows, rows, st.log[j].id);
      } else {
        HasRowAt(rows, k);
      }
    }
  }

  lemma BornOf(h: Hash, log: seq<Entry>, r: Row, t: int)
    requires Told(h, log, r, t)
    ensures Born(log, r)
  {
  }

  lemma HasRowAt(rows: seq<Row>, k: nat)
    requires k < |rows|
    ensures HasRow(rows, rows[k].id)
  {
  }

  /** One row changes without an entry. */
  lemma MarkTracks(h: Hash, st: State, k: nat, r: Row, t: int, u: int)
    requires Tracks(h, st, t) && t <= u && k < |st.rows|
    requires r.id == st.rows[k].id && Told(h, st.log, r, u)
    ensures Tracks(h, State(st.rows[k := r], st.log), u)
  {
    hide Orderly, Told, HasRow;
    var rows := st.rows[k := r];
    forall l | 0 <= l < |rows| ensures Told(h, st.log, rows[l], u) {
      if l != k {
        ToldLater(h, st.log, st.rows[l], t, u);
      }
    }
    forall j | 0 <= j < |st.log| ensures HasRow(rows, st.log[j].id) {
      SameIdsHaveRows(st.rows, rows, st.log[j].id);
    }
  }

  lemma LaterTracks(h: Hash, st: State, t: int, u: int)
    requires Tracks(h, st, t) && t <= u
    ensures Tracks(h, st, u)
  {
    hide Orderly, Told, HasRow;
    forall l | 0 <= l < |st.rows| ensures Told(h, st.log, st.rows[l], u) {
      ToldLater(h, st.log, st.rows[l], t, u);
    }
  }

  lemma NoWord(rows: seq<Row>, log: seq<Entry>, id: string)
    requires AllHaveRows(rows, log) && forall k :: 0 <= k < |rows| ==> rows[k].id != id
    ensures forall k :: 0 <= k < |log| ==> log[k].id != id
  {
    forall k | 0 <= k < |log| ensures log[k].id != id {
      assert HasRow(rows, log[k].id);
    }
  }

  lemma AddTracks(h: Hash, st: State, r: Row, e: Entry, t: int, u: int)
    requires Tracks(h, st, t) && t <= u
    requires forall k :: 0 <= k < |st.rows| ==> st.rows[k].id != r.id
    requires e == Requested(r.id, r.requestedBy, r.action, r.target, r.requestedAt) && Fits(h, r, e, u)
    ensures Tracks(h, State(st.rows + [r], st.log + [e]), u)
  {
    hide Orderly, Fits, HasRow;
    var rows, log := st.rows + [r], st.log + [e];
    NoWord(st.rows, st.log, r.id);
    OrderlyStarts(st.log, e);
    forall l | 0 <= l < |rows| ensures Told(h, log, rows[l], u) {
      hide Told;
      if l < |st.rows| {
        ToldGrows(h, st.log, st.rows[l], e, t, u);
      } else {
        assert WasRequested(log, r, |st.log|);
        ToldNow(h, st.log, r, e, u);
      }
    }
    hide Told;
    forall j | 0 <= j < |log| ensures HasRow(rows, log[j].id) {
      if j < |st.log| {
        SameIdsHaveRows(st.rows, rows, st.log[j].id);
      } else {
        HasRowAt(rows, |st.rows|);
      }
    }
  }

  // ----- what a sweep returns ------------------------------------------------------------------

  predicate Due(r: Row, now: int) {
    || (r.status == Pending && r.expiresAt <= now)
    || (r.status == Approved && r.tokenExpiresAt.Some? && r.tokenExpiresAt.value <= now)
  }

  /** The rows whose time is up, in order, marked as expired and without their token hash. */
  function DueRows(rows: seq<Row>, now: int): seq<Row> {
    if rows == [] then []
    else
      var r := rows[0];
      (if Due(r, now) then [r.(status := Expired, tokenHash := if r.status == Pending then r.tokenHash else None)]
       else []) + DueRows(rows[1..], now)
  }

  lemma {:induction false} DueRowsSnoc(rows: seq<Row>, r: Row, now: int)
    ensures DueRows(rows + [r], now) == DueRows(rows, now) + DueRows([r], now)
  {
    if rows != [] {
      assert (rows + [r])[1..] == rows[1..] + [r];
      DueRowsSnoc(rows[1..], r, now);
    } else {
      assert rows + [r] == [r];
    }
  }

  lemma DueIsSwept(r: Row, now: int)
    ensures DueRows([r], now) == if SweepRow(r, now) != r then [SweepRow(r, now)] else []
  {
    assert [r][1..] == [];
  }

  /** The list that the sweep returns is the list of rows whose time is up. */
  lemma {:induction false} ExpiredAreDue(rows: seq<Row>, now: int)
    ensures NewlyExpired(rows, now) == DueRows(rows, now)
  {
    if rows != [] {
      var init, r := rows[..|rows| - 1], rows[|rows| - 1];
      ExpiredAreDue(init, now);
      assert rows == init + [r];
      hide SweepRow, DueRows;
      DueRowsSnoc(init, r, now);
      DueIsSwept(r, now);
    } else {
      assert DueRows(rows, now) == [];
    }
  }
}
