/** When the calls on the approval store succeed, in every run from the empty store
    (web/lib/dualControlStore.ts). */
module DualControlExact {
  import opened Prelude
  import opened Text
  import opened DualControl
  import opened DualControlRuns
  import opened DualControlLedger
  import opened DualControlAnswers

  /** Each call ends before the next one starts. */
  ghost predicate Timely(calls: seq<Call>) {
    && (forall i :: 0 <= i < |calls| ==> calls[i].now <= calls[i].later)
    && (forall i, j :: 0 <= i < j < |calls| ==> calls[i].later <= calls[j].now)
  }

  /** `c` is called after the run, and a request draws a new id. */
  ghost predicate Follows(h: Hash, calls: seq<Call>, c: Call) {
    FreshIds(h, EMPTY, calls) && Fresh(Run(h, EMPTY, calls), c) && Timely(calls + [c])
  }

  // ----- every run ---------------------------------------------------------------------------

  lemma EntryNeedsStore(c: Call, o: Outcome)
    requires o.store.None?
    ensures EntryOf(c, o) == None
  {
  }

  lemma ListTracks(h: Hash, st: State, c: Call)
    requires Swept(h, st, c.now) && (c.List? || c.Get?)
    ensures var o := Handle(h, st.rows, c);
            EntryOf(c, o) == None && (o.store.Some? ==> o.store.value == st.rows)
  {
  }

  /** Every call keeps rows and log in step. */
  lemma HandleTracks(h: Hash, st: State, c: Call)
    requires Swept(h, st, c.now) && c.now <= c.later && Fresh(st, c)
    ensures var o := Handle(h, st.rows, c);
            o.store.Some? ==>
              Tracks(h, State(o.store.value, if EntryOf(c, o).Some? then st.log + [EntryOf(c, o).value] else st.log),
                     c.later)
  {
    hide Handle, Tracks, Fresh;
    match c {
      case Request(_, _, _, _, _, _, _) => RequestTracks(h, st, c);
      case Approve(_, _, _, _, _) => ApproveTracks(h, st, c);
      case Cancel(_, _, _, _) => CancelTracks(h, st, c);
      case Consume(_, _, _, _, _, _) => ConsumeTracks(h, st, c);
      case List(_, _) =>
        ListTracks(h, st, c);
        LaterTracks(h, st, c.now, c.later);
      case Get(_, _, _) =>
        ListTracks(h, st, c);
        LaterTracks(h, st, c.now, c.later);
    }
  }

  lemma FreshSwept(st: State, c: Call)
    requires Fresh(st, c)
    ensures Fresh(st.(rows := Sweep(st.rows, c.now)), c)
  {
  }

  lemma ExecTracks(h: Hash, st: State, c: Call, t: int)
    requires Tracks(h, st, t) && t <= c.now <= c.later && Fresh(st, c)
    ensures Tracks(h, Exec(h, st, c), c.later)
  {
    hide Tracks, Handle, Fresh, Swept;
    var swept := st.(rows := Sweep(st.rows, c.now));
    SweepTracks(h, st, t, c.now);
    FreshSwept(st, c);
    HandleTracks(h, swept, c);
    LaterTracks(h, st, t, c.later);
    var o := Handle(h, swept.rows, c);
    if o.store.None? {
      EntryNeedsStore(c, o);
    }
  }

  lemma {:induction false} RunTracks(h: Hash, st: State, calls: seq<Call>, c: Call, t: int)
    requires Tracks(h, st, t) && FreshIds(h, st, calls) && Timely(calls + [c])
    requires t <= (calls + [c])[0].now
    ensures exists u :: u <= c.now && Tracks(h, Run(h, st, calls), u)
    decreases |calls|
  {
    hide Tracks;
    if calls == [] {
      assert (calls + [c])[0] == c;
      assert t <= c.now && Tracks(h, Run(h, st, calls), t);
    } else {
      ExecTracks(h, st, calls[0], t);
      var rest := calls[1..] + [c];
      assert forall i :: 0 <= i < |rest| ==> rest[i] == (calls + [c])[i + 1];
      RunTracks(h, Exec(h, st, calls[0]), calls[1..], c, calls[0].later);
      var u :| u <= c.now && Tracks(h, Run(h, Exec(h, st, calls[0]), calls[1..]), u);
      assert Tracks(h, Run(h, st, calls), u);
    }
  }

  lemma EmptyTracks(h: Hash, t: int)
    ensures Tracks(h, EMPTY, t)
  {
  }

  ghost function SweptRun(h: Hash, calls: seq<Call>, now: int): State {
    var st := Run(h, EMPTY, calls);
    st.(rows := Sweep(st.rows, now))
  }

  lemma Ready(h: Hash, calls: seq<Call>, c: Call)
    requires Follows(h, calls, c)
    ensures Swept(h, SweptRun(h, calls, c.now), c.now)
    ensures Fresh(SweptRun(h, calls, c.now), c) && c.now <= c.later
  {
    hide Tracks, Run, FreshIds, Swept;
    var t := (calls + [c])[0].now;
    EmptyTracks(h, t);
    RunTracks(h, EMPTY, calls, c, t);
    var st := Run(h, EMPTY, calls);
    var u :| u <= c.now && Tracks(h, st, u);
    SweepTracks(h, st, u, c.now);
    FreshSwept(st, c);
    assert (calls + [c])[|calls|] == c;
  }

  /** The log after the run, the answer of `c`, and the state it leaves. */
  ghost function LogOf(h: Hash, calls: seq<Call>): seq<Entry> {
    Run(h, EMPTY, calls).log
  }

  ghost function ReplyOf(h: Hash, calls: seq<Call>, c: Call): Reply {
    Lazy(h, Run(h, EMPTY, calls).rows, c).1
  }

  ghost function After(h: Hash, calls: seq<Call>, c: Call): State {
    Exec(h, Run(h, EMPTY, calls), c)
  }

  lemma Unfold(h: Hash, calls: seq<Call>, c: Call)
    ensures var o := Handle(h, SweptRun(h, calls, c.now).rows, c);
            && LogOf(h, calls) == SweptRun(h, calls, c.now).log
            && ReplyOf(h, calls, c) == o.reply
            && (o.store.Some? ==> After(h, calls, c).rows == o.store.value)
            && (o.store.None? ==> After(h, calls, c) == Run(h, EMPTY, calls))
            && (EntryOf(c, o).Some? ==> After(h, calls, c).log == LogOf(h, calls) + [EntryOf(c, o).value])
  {
    hide Handle, Run;
    var o := Handle(h, SweptRun(h, calls, c.now).rows, c);
    if o.store.None? {
      EntryNeedsStore(c, o);
    }
  }

  /** A consume succeeds if and only if its caller asked for exactly this action and target, the
      request was granted with this token less than 10 minutes ago, at both clocks of the call, and
      it was neither redeemed nor withdrawn since. Then that row is consumed. */
  lemma ConsumeIff(h: Hash, calls: seq<Call>, c: Call)
    requires Follows(h, calls, c) && c.Consume? && DistinctTokens(h, LogOf(h, calls))
    ensures ReplyOf(h, calls, c).Done? <==> c.token != "" && Redeemable(h, LogOf(h, calls), c)
    ensures var reply := ReplyOf(h, calls, c);
            reply.Done? ==>
              && (exists j: nat :: LiveFor(h, LogOf(h, calls), c.token, j, c.now) &&
                                   LogOf(h, calls)[j].id == reply.row.id)
              && reply.row.status == Consumed && reply.row.consumedAt == Some(c.later) && reply.row.tokenHash == None
              && reply.row in After(h, calls, c).rows
              && After(h, calls, c).log ==
                 LogOf(h, calls) + [Redeemed(reply.row.id, c.caller, c.action, c.target, c.token, c.later)]
  {
    hide Follows, SweptRun, ReplyOf, LogOf, After, Swept, Handle, Redeemable, LiveFor;
    Ready(h, calls, c);
    Unfold(h, calls, c);
    ConsumeReplies(h, SweptRun(h, calls, c.now), c);
    ConsumeTracks(h, SweptRun(h, calls, c.now), c);
  }

  /** Which refusal a consume gets. */
  lemma ConsumeRefusals(h: Hash, calls: seq<Call>, c: Call)
    requires Follows(h, calls, c) && c.Consume? && DistinctTokens(h, LogOf(h, calls))
    ensures ConsumesAs(h, LogOf(h, calls), c, ReplyOf(h, calls, c))
  {
    hide Follows, SweptRun, ReplyOf, LogOf, After, Swept, Handle, ConsumesAs;
    Ready(h, calls, c);
    Unfold(h, calls, c);
    ConsumeReplies(h, SweptRun(h, calls, c.now), c);
  }

  /** An approval mints its token if and only if someone else made the request less than 30 minutes
      ago and nothing happened to it since. Otherwise nothing changes. */
  lemma ApproveIff(h: Hash, calls: seq<Call>, c: Call)
    requires Follows(h, calls, c) && c.Approve?
    ensures var reply := ReplyOf(h, calls, c);
            && ApprovesAs(LogOf(h, calls), c, reply)
            && (!reply.Minted? ==> After(h, calls, c) == Run(h, EMPTY, calls))
            && (reply.Minted? ==>
                  && reply.token == c.token && reply.row in After(h, calls, c).rows
                  && reply.row.id == c.rowId && reply.row.status == Approved
                  && reply.row.approvedBy == Some(c.approver) && reply.row.approvedAt == Some(c.later)
                  && reply.row.tokenExpiresAt == Some(c.later + 600_000)
                  && reply.row.tokenHash == Some(h(c.token))
                  && After(h, calls, c).log ==
                     LogOf(h, calls) + [Granted(c.rowId, c.approver, c.token, c.now, c.later)])
  {
    hide Follows, SweptRun, ReplyOf, LogOf, After, Swept, Handle, ApprovesAs;
    Ready(h, calls, c);
    Unfold(h, calls, c);
    ApproveReplies(h, SweptRun(h, calls, c.now), c);
    ApproveTracks(h, SweptRun(h, calls, c.now), c);
  }

  /** A cancel succeeds if and only if the request still waits or its grant is still good. */
  lemma CancelIff(h: Hash, calls: seq<Call>, c: Call)
    requires Follows(h, calls, c) && c.Cancel?
    ensures var reply := ReplyOf(h, calls, c);
            && (reply.Done? <==> Cancellable(LogOf(h, calls), c.rowId, c.now))
            && (!reply.Done? ==>
                  && reply == Refused(if Mentions(LogOf(h, calls), c.rowId) then NotCancellable else NotFound)
                  && After(h, calls, c) == Run(h, EMPTY, calls))
            && (reply.Done? ==>
                  && reply.row in After(h, calls, c).rows && reply.row.id == c.rowId
                  && reply.row.status == Cancelled && reply.row.tokenHash == None
                  && reply.row.cancelledAt == Some(c.later)
                  && reply.row.cancelledBy == (if c.actor == "" then None else Some(c.actor))
                  && After(h, calls, c).log == LogOf(h, calls) + [Withdrawn(c.rowId, c.actor, c.later)])
  {
    hide Follows, SweptRun, ReplyOf, LogOf, After, Swept, Handle, Cancellable, Mentions;
    Ready(h, calls, c);
    Unfold(h, calls, c);
    CancelReplies(h, SweptRun(h, calls, c.now), c);
    CancelTracks(h, SweptRun(h, calls, c.now), c);
  }

  /** A well-formed request is answered by the row that still waits for the same approval, and by a
      new row of 30 minutes exactly when there is none. */
  lemma RequestIff(h: Hash, calls: seq<Call>, c: Call)
    requires Follows(h, calls, c) && c.Request?
    ensures var log, reply := LogOf(h, calls), ReplyOf(h, calls, c);
            && (reply.Done? <==> GoodRequest(c))
            && (!reply.Done? ==> reply == Refused(RequestCode(c)) && After(h, calls, c) == Run(h, EMPTY, calls))
            && (reply.Done? && (exists i: nat :: Waiting(log, c, i)) ==>
                  && After(h, calls, c) == Run(h, EMPTY, calls) && reply.row.status == Pending
                  && exists i: nat :: Waiting(log, c, i) && log[i].id == reply.row.id)
            && (reply.Done? && !(exists i: nat :: Waiting(log, c, i)) ==>
                  && reply.row in After(h, calls, c).rows
                  && reply.row == Row(c.id, c.action, c.target, Trim(c.reason), c.requester, c.later,
                                      c.later + 1_800_000, Pending, None, None, None, None, None, None, None)
                  && After(h, calls, c).log == log + [Requested(c.id, c.requester, c.action, c.target, c.later)])
  {
    hide Follows, SweptRun, ReplyOf, LogOf, After, Swept, Handle, Waiting, GoodRequest, RequestCode;
    Ready(h, calls, c);
    Unfold(h, calls, c);
    RequestReplies(h, SweptRun(h, calls, c.now), c);
  }

  /** What reading tells: one row for every request ever made, with the status that its last word
      has by then. */
  ghost predicate ReadsAs(h: Hash, log: seq<Entry>, rows: seq<Row>, now: int) {
    && UniqueIds(rows) && AllHaveRows(rows, log)
    && forall k :: 0 <= k < |rows| ==> Known(h, log, rows[k], now)
  }

  ghost predicate Known(h: Hash, log: seq<Entry>, r: Row, now: int) {
    exists i: nat :: Knows(h, log, r, i, now)
  }

  lemma SweptReads(h: Hash, st: State, now: int)
    requires Swept(h, st, now)
    ensures ReadsAs(h, st.log, st.rows, now)
  {
    hide AllHaveRows, UniqueIds, Told, Exact, Orderly, Knows;
    forall k | 0 <= k < |st.rows| ensures Known(h, st.log, st.rows[k], now) {
      RowKnows(h, st, k, now);
    }
  }

  lemma ListTells(h: Hash, calls: seq<Call>, c: Call)
    requires Follows(h, calls, c) && c.List?
    ensures ReplyOf(h, calls, c).Rows? && ReadsAs(h, LogOf(h, calls), ReplyOf(h, calls, c).rows, c.now)
  {
    hide Follows, LogOf, ReplyOf, After, SweptRun, Swept, ReadsAs;
    Ready(h, calls, c);
    Unfold(h, calls, c);
    SweptReads(h, SweptRun(h, calls, c.now), c.now);
  }

  lemma GetTells(h: Hash, calls: seq<Call>, c: Call)
    requires Follows(h, calls, c) && c.Get?
    ensures var reply := ReplyOf(h, calls, c);
            && reply.Maybe? && (reply.found.Some? <==> Mentions(LogOf(h, calls), c.rowId))
            && (reply.found.Some? ==>
                  && reply.found.value.id == c.rowId
                  && Known(h, LogOf(h, calls), reply.found.value, c.now))
  {
    hide Follows, LogOf, ReplyOf, After, SweptRun, Knows, Swept, Mentions, Find;
    Ready(h, calls, c);
    Unfold(h, calls, c);
    var st := SweptRun(h, calls, c.now);
    SomeRow(h, st, c.rowId, c.now);
    var k := FindId(st.rows, c.rowId);
    if k >= 0 {
      RowKnows(h, st, k, c.now);
    }
  }
}
