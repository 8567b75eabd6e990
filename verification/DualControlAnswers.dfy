/** What each call on the approval store answers and leaves, told from the log of what happened
    (web/lib/dualControlStore.ts). */
module DualControlAnswers {
  import opened Prelude
  import opened Text
  import opened DualControl
  import opened DualControlRuns
  import opened DualControlLedger

  // ----- what the log says -------------------------------------------------------------------

  ghost predicate Mentions(log: seq<Entry>, id: string) {
    exists k :: 0 <= k < |log| && log[k].id == id
  }

  /** Requested less than 30 minutes ago, by someone else, and nothing happened to it since. */
  ghost predicate Approvable(log: seq<Entry>, id: string, approver: string, now: int) {
    exists i: nat :: LastWord(log, id, i) && log[i].Requested? && log[i].requester != approver &&
                     now < log[i].at + 1_800_000
  }

  ghost predicate Cancellable(log: seq<Entry>, id: string, now: int) {
    exists i: nat ::
      LastWord(log, id, i) &&
      ((log[i].Requested? && now < log[i].at + 1_800_000) || (log[i].Granted? && now < log[i].at + 600_000))
  }

  /** A grant less than 10 minutes old that was neither redeemed nor withdrawn. */
  ghost predicate Live(log: seq<Entry>, j: nat, now: int) {
    && j < |log| && log[j].Granted? && now < log[j].at + 600_000
    && forall k :: j < k < |log| && log[k].id == log[j].id ==> !log[k].Redeemed? && !log[k].Withdrawn?
  }

  ghost predicate LiveFor(h: Hash, log: seq<Entry>, token: string, j: nat, now: int) {
    j < |log| && log[j].Granted? && Live(log, j, now) && h(log[j].token) == h(token)
  }

  /** The caller asked for exactly this pair; that request was then granted with this token. */
  ghost predicate Redeemable(h: Hash, log: seq<Entry>, c: Call)
    requires c.Consume?
  {
    exists i: nat, j: nat ::
      i < j && LiveFor(h, log, c.token, j, c.now) && c.later < log[j].at + 600_000 &&
      log[i] == Requested(log[j].id, c.caller, c.action, c.target, log[i].at)
  }

  /** No two grants drew tokens with the same hash. */
  ghost predicate DistinctTokens(h: Hash, log: seq<Entry>) {
    forall i, j :: 0 <= i < j < |log| && log[i].Granted? && log[j].Granted? ==> h(log[i].token) != h(log[j].token)
  }

  // ----- facts about the swept rows ----------------------------------------------------------

  /** What a swept row knows of its last word. */
  ghost predicate Knows(h: Hash, log: seq<Entry>, r: Row, i: nat, now: int) {
    && LastWord(log, r.id, i) && Fits(h, r, log[i], now) && r.status == StatusOf(log[i], now)
    && (log[i].Requested? ==> log[i] == Requested(r.id, r.requestedBy, r.action, r.target, r.requestedAt))
  }

  lemma RowKnows(h: Hash, st: State, k: nat, now: int)
    requires Swept(h, st, now) && k < |st.rows|
    ensures exists i: nat :: Knows(h, st.log, st.rows[k], i, now)
  {
    hide Fits, Orderly, StatusOf, AllHaveRows, UniqueIds, Born;
    var r := st.rows[k];
    assert Told(h, st.log, r, now) && Exact(st.log, r, now);
    var i: nat :| LastWord(st.log, r.id, i) && Fits(h, r, st.log[i], now);
    if st.log[i].Requested? {
      BornWhen(st.log, r, i);
    }
    assert Knows(h, st.log, r, i, now);
  }

  lemma SomeRow(h: Hash, st: State, id: string, now: int)
    requires Swept(h, st, now)
    ensures Mentions(st.log, id) <==> FindId(st.rows, id) >= 0
  {
    hide Fits, Orderly, StatusOf, UniqueIds, Born, Find;
    var k := FindId(st.rows, id);
    if k >= 0 {
      assert st.rows[k].id == id;
      RowKnows(h, st, k, now);
    }
    if Mentions(st.log, id) {
      var i :| 0 <= i < |st.log| && st.log[i].id == id;
      assert HasRow(st.rows, st.log[i].id);
    }
  }

  lemma KnowsLast(h: Hash, log: seq<Entry>, r: Row, i: nat, j: nat, now: int)
    requires Knows(h, log, r, i, now) && LastWord(log, r.id, j)
    ensures i == j
  {
    OneLastWord(log, r.id, i, j);
  }

  // ----- approving ---------------------------------------------------------------------------

  ghost predicate ApprovesAs(log: seq<Entry>, c: Call, reply: Reply)
    requires c.Approve?
  {
    && (reply.Minted? <==> c.approver != "" && Approvable(log, c.rowId, c.approver, c.now))
    && (c.approver == "" ==> reply == Refused(BadApprover))
    && (c.approver != "" && !Mentions(log, c.rowId) ==> reply == Refused(NotFound))
    && (c.approver != "" ==> forall i: nat :: LastWord(log, c.rowId, i) ==>
          match StatusOf(log[i], c.now)
          case Pending => log[i].requester == c.approver ==> reply == Refused(SelfApproval)
          case Expired => reply == Refused(RequestExpired)
          case _ => reply == Refused(NotPending))
  }

  lemma PendingIsRequested(e: Entry, now: int)
    ensures StatusOf(e, now) == Pending <==> e.Requested? && now < e.at + 1_800_000
    ensures StatusOf(e, now) == Approved <==> e.Granted? && now < e.at + 600_000
    ensures StatusOf(e, now) == Pending || StatusOf(e, now) == Approved <==>
              (e.Requested? && now < e.at + 1_800_000) || (e.Granted? && now < e.at + 600_000)
  {
  }

  lemma ApproveReplies(h: Hash, st: State, c: Call)
    requires Swept(h, st, c.now) && c.Approve?
    ensures ApprovesAs(st.log, c, Handle(h, st.rows, c).reply)
  {
    hide Fits, Swept, StatusOf, Find;
    SomeRow(h, st, c.rowId, c.now);
    var k := FindId(st.rows, c.rowId);
    if k >= 0 {
      RowKnows(h, st, k, c.now);
      var r := st.rows[k];
      assert r.id == c.rowId;
      var i: nat :| Knows(h, st.log, r, i, c.now);
      PendingIsRequested(st.log[i], c.now);
      forall j: nat | LastWord(st.log, c.rowId, j) ensures i == j {
        KnowsLast(h, st.log, r, i, j, c.now);
      }
    }
  }

  /** What a successful approval leaves: the row, and one more grant in the log. */
  ghost predicate ApprovesTo(h: Hash, log: seq<Entry>, c: Call, o: Outcome)
    requires c.Approve?
  {
    o.reply.Minted? ==>
      && o.reply.token == c.token && o.store.Some? && o.reply.row in o.store.value
      && EntryOf(c, o) == Some(Granted(c.rowId, c.approver, c.token, c.now, c.later))
      && var r := o.reply.row;
         && r.id == c.rowId && r.status == Approved && r.approvedBy == Some(c.approver)
         && r.approvedAt == Some(c.later) && r.tokenExpiresAt == Some(c.later + 600_000)
         && r.tokenHash == Some(h(c.token))
  }

  lemma ApproveTracks(h: Hash, st: State, c: Call)
    requires Swept(h, st, c.now) && c.Approve? && c.now <= c.later
    ensures var o := Handle(h, st.rows, c);
            && (o.reply.Minted? <==> o.store.Some?) && ApprovesTo(h, st.log, c, o)
            && (o.store.Some? ==> Tracks(h, State(o.store.value, st.log + [EntryOf(c, o).value]), c.later))
  {
    hide Tracks, StatusOf, Find;
    var k := FindId(st.rows, c.rowId);
    var o := Handle(h, st.rows, c);
    if o.store.Some? {
      RowKnows(h, st, k, c.now);
      var r := st.rows[k];
      assert r.id == c.rowId;
      var i: nat :| Knows(h, st.log, r, i, c.now);
      PendingIsRequested(st.log[i], c.now);
      var q, e := ApprovedRow(h, r, c), EntryOf(c, o).value;
      FitsGranted(h, q, e, c.later);
      assert o.store.value[k] == q;
      hide Fits, LastWord;
      UpdateTracks(h, st, k, q, e, i, c.now, c.later);
    }
  }

  lemma FitsGranted(h: Hash, r: Row, e: Entry, t: int)
    requires e.Granted? && e.at == t && r.status == Approved && r.tokenHash == Some(h(e.token))
    requires r.approvedBy == Some(e.approver) && r.approvedAt == Some(t) && r.tokenExpiresAt == Some(t + 600_000)
    ensures Fits(h, r, e, t)
  {
  }

  // ----- cancelling --------------------------------------------------------------------------

  ghost predicate CancelsAs(log: seq<Entry>, c: Call, reply: Reply)
    requires c.Cancel?
  {
    && (reply.Done? <==> Cancellable(log, c.rowId, c.now))
    && (!reply.Done? ==> reply == Refused(if Mentions(log, c.rowId) then NotCancellable else NotFound))
  }

  lemma CancelReplies(h: Hash, st: State, c: Call)
    requires Swept(h, st, c.now) && c.Cancel?
    ensures CancelsAs(st.log, c, Handle(h, st.rows, c).reply)
  {
    hide Fits, Swept, StatusOf, Find;
    SomeRow(h, st, c.rowId, c.now);
    var k := FindId(st.rows, c.rowId);
    if k >= 0 {
      RowKnows(h, st, k, c.now);
      var r := st.rows[k];
      assert r.id == c.rowId;
      var i: nat :| Knows(h, st.log, r, i, c.now);
      PendingIsRequested(st.log[i], c.now);
      forall j: nat | LastWord(st.log, c.rowId, j) ensures i == j {
        KnowsLast(h, st.log, r, i, j, c.now);
      }
    } else {
      assert !Cancellable(st.log, c.rowId, c.now);
    }
  }

  ghost predicate CancelsTo(log: seq<Entry>, c: Call, o: Outcome)
    requires c.Cancel?
  {
    o.reply.Done? ==>
      && o.store.Some? && o.reply.row in o.store.value
      && EntryOf(c, o) == Some(Withdrawn(c.rowId, c.actor, c.later))
      && var r := o.reply.row;
         && r.id == c.rowId && r.status == Cancelled && r.tokenHash == None && r.cancelledAt == Some(c.later)
         && r.cancelledBy == if c.actor == "" then None else Some(c.actor)
  }

  lemma CancelTracks(h: Hash, st: State, c: Call)
    requires Swept(h, st, c.now) && c.Cancel? && c.now <= c.later
    ensures var o := Handle(h, st.rows, c);
            && (o.reply.Done? <==> o.store.Some?) && CancelsTo(st.log, c, o)
            && (o.store.Some? ==> Tracks(h, State(o.store.value, st.log + [EntryOf(c, o).value]), c.later))
  {
    hide Tracks, StatusOf, Find;
    var k := FindId(st.rows, c.rowId);
    var o := Handle(h, st.rows, c);
    if o.store.Some? {
      RowKnows(h, st, k, c.now);
      var r := st.rows[k];
      assert r.id == c.rowId;
      var i: nat :| Knows(h, st.log, r, i, c.now);
      PendingIsRequested(st.log[i], c.now);
      var q, e := CancelledRow(r, c), EntryOf(c, o).value;
      FitsWithdrawn(h, q, e, c.later);
      assert o.store.value[k] == q;
      hide Fits, LastWord;
      UpdateTracks(h, st, k, q, e, i, c.now, c.later);
    }
  }

  lemma FitsWithdrawn(h: Hash, r: Row, e: Entry, t: int)
    requires e.Withdrawn? && e.at == t && r.status == Cancelled && r.tokenHash == None
    requires r.cancelledAt == Some(t) && r.cancelledBy == if e.actor == "" then None else Some(e.actor)
    ensures Fits(h, r, e, t)
  {
  }

  // ----- consuming ---------------------------------------------------------------------------

  /** With distinct tokens, a consume finds the live grant of its token or nothing. */
  ghost predicate ConsumesAs(h: Hash, log: seq<Entry>, c: Call, reply: Reply)
    requires c.Consume?
  {
    && (reply.Done? <==> c.token != "" && Redeemable(h, log, c))
    && (c.token == "" ==> reply == Refused(MissingToken))
    && (c.token != "" && (forall j: nat :: !LiveFor(h, log, c.token, j, c.now)) ==> reply == Refused(BadToken))
    && (c.token != "" ==> forall i: nat, j: nat ::
          i < j && LiveFor(h, log, c.token, j, c.now) && log[i].Requested? && log[i].id == log[j].id ==>
            ConsumeCode(log[i], log[j], c, reply))
  }

  ghost predicate ConsumeCode(asked: Entry, granted: Entry, c: Call, reply: Reply)
    requires c.Consume? && asked.Requested? && granted.Granted?
  {
    && (c.later >= granted.at + 600_000 ==> reply == Refused(TokenExpired))
    && (c.later < granted.at + 600_000 ==>
          && (asked.action != c.action ==> reply == Refused(ActionMismatch))
          && (asked.action == c.action && asked.target != c.target ==> reply == Refused(TargetMismatch))
          && (asked.action == c.action && asked.target == c.target && asked.requester != c.caller ==>
                reply == Refused(WrongCaller)))
  }

  lemma LiveIsLast(log: seq<Entry>, j: nat, now: int)
    requires Orderly(log)
    ensures Live(log, j, now) <==>
              j < |log| && log[j].Granted? && now < log[j].at + 600_000 && LastWord(log, log[j].id, j)
  {
  }

  /** The row of a live grant carries the hash of its token. */
  lemma LiveHasHash(h: Hash, st: State, token: string, j: nat, now: int)
    requires Swept(h, st, now) && LiveFor(h, st.log, token, j, now)
    ensures FindHash(st.rows, h(token)) >= 0
  {
    hide Fits, Knows, StatusOf, Find, LastWord, Told, UniqueIds;
    LiveIsLast(st.log, j, now);
    assert HasRow(st.rows, st.log[j].id);
    var k :| 0 <= k < |st.rows| && st.rows[k].id == st.log[j].id;
    hide Swept, Live, HasRow;
    RowKnows(h, st, k, now);
    var i: nat :| Knows(h, st.log, st.rows[k], i, now);
    KnowsLast(h, st.log, st.rows[k], i, j, now);
    GrantKnown(h, st.log, st.rows[k], j, now);
  }

  lemma GrantKnown(h: Hash, log: seq<Entry>, r: Row, j: nat, now: int)
    requires Knows(h, log, r, j, now) && log[j].Granted? && now < log[j].at + 600_000
    ensures r.tokenHash == Some(h(log[j].token)) && r.status == Approved
    ensures r.tokenExpiresAt == Some(log[j].at + 600_000)
  {
  }

  /** A row that carries a hash is the row of a live grant, and was asked for before. */
  ghost predicate GrantOf(h: Hash, log: seq<Entry>, r: Row, i: nat, j: nat, now: int) {
    && i < j < |log| && log[j].Granted? && Live(log, j, now) && log[j].id == r.id && LastWord(log, r.id, j)
    && log[i] == Requested(r.id, r.requestedBy, r.action, r.target, r.requestedAt)
    && r.tokenHash == Some(h(log[j].token)) && r.status == Approved
    && r.tokenExpiresAt == Some(log[j].at + 600_000)
  }

  lemma HashIsLive(h: Hash, st: State, k: nat, now: int)
    requires Swept(h, st, now) && k < |st.rows| && st.rows[k].tokenHash.Some?
    ensures exists i: nat, j: nat :: GrantOf(h, st.log, st.rows[k], i, j, now)
  {
    hide StatusOf, UniqueIds, AllHaveRows, Born, Exact;
    var r := st.rows[k];
    assert Told(h, st.log, r, now);
    RowKnows(h, st, k, now);
    hide Told;
    var j: nat :| Knows(h, st.log, r, j, now);
    PendingIsRequested(st.log[j], now);
    LiveIsLast(st.log, j, now);
    GrantKnown(h, st.log, r, j, now);
    BornOf(h, st.log, r, now);
    BornBefore(st.log, r, j);
    var i: nat :| i < j && WasRequested(st.log, r, i);
    assert GrantOf(h, st.log, r, i, j, now);
  }

  lemma BornBefore(log: seq<Entry>, r: Row, j: nat)
    requires Born(log, r) && LastWord(log, r.id, j) && log[j].Granted?
    ensures exists i: nat :: i < j && WasRequested(log, r, i)
  {
    var i: nat :| WasRequested(log, r, i);
    assert i < j;
  }

  lemma OneLive(h: Hash, log: seq<Entry>, token: string, j: nat, l: nat, now: int)
    requires DistinctTokens(h, log) && LiveFor(h, log, token, j, now) && LiveFor(h, log, token, l, now)
    ensures j == l
  {
  }

  lemma OneRequest(log: seq<Entry>, i: nat, l: nat, id: string)
    requires Orderly(log) && i < |log| && l < |log| && log[i].Requested? && log[l].Requested?
    requires log[i].id == log[l].id == id
    ensures i == l
  {
  }

  lemma ConsumeFound(h: Hash, log: seq<Entry>, r: Row, i: nat, j: nat, c: Call, reply: Reply)
    requires Orderly(log) && DistinctTokens(h, log) && c.Consume? && c.token != ""
    requires GrantOf(h, log, r, i, j, c.now) && r.tokenHash == Some(h(c.token))
    requires reply.Done? <==>
               c.later < log[j].at + 600_000 && r.action == c.action && r.target == c.target
               && r.requestedBy == c.caller
    requires ConsumeCode(log[i], log[j], c, reply)
    ensures ConsumesAs(h, log, c, reply)
  {
    hide Orderly, DistinctTokens, Live, ConsumeCode;
    assert LiveFor(h, log, c.token, j, c.now);
    forall x: nat, y: nat | x < y && LiveFor(h, log, c.token, y, c.now) && log[x].Requested? && log[x].id == log[y].id
      ensures x == i && y == j
    {
      OneLive(h, log, c.token, j, y, c.now);
      OneRequest(log, i, x, r.id);
    }
  }

  lemma ConsumeReplies(h: Hash, st: State, c: Call)
    requires Swept(h, st, c.now) && c.Consume? && DistinctTokens(h, st.log)
    ensures ConsumesAs(h, st.log, c, Handle(h, st.rows, c).reply)
  {
    hide Swept, Find, Live, DistinctTokens;
    var k := FindHash(st.rows, h(c.token));
    forall j: nat | LiveFor(h, st.log, c.token, j, c.now) ensures k >= 0 {
      LiveHasHash(h, st, c.token, j, c.now);
    }
    if k >= 0 && c.token != "" {
      var r := st.rows[k];
      assert r.tokenHash == Some(h(c.token));
      HashIsLive(h, st, k, c.now);
      var i: nat, j: nat :| GrantOf(h, st.log, r, i, j, c.now);
      SweptOrderly(h, st, c.now);
      ConsumeFound(h, st.log, r, i, j, c, Handle(h, st.rows, c).reply);
    }
  }

  lemma SweptOrderly(h: Hash, st: State, now: int)
    requires Swept(h, st, now)
    ensures Orderly(st.log)
  {
  }

  ghost predicate ConsumesTo(h: Hash, log: seq<Entry>, c: Call, o: Outcome)
    requires c.Consume?
  {
    o.reply.Done? ==>
      && o.store.Some? && o.reply.row in o.store.value
      && EntryOf(c, o) == Some(Redeemed(o.reply.row.id, c.caller, c.action, c.target, c.token, c.later))
      && (exists j: nat :: LiveFor(h, log, c.token, j, c.now) && log[j].id == o.reply.row.id)
      && o.reply.row.status == Consumed && o.reply.row.tokenHash == None && o.reply.row.consumedAt == Some(c.later)
  }

  lemma ConsumeTracks(h: Hash, st: State, c: Call)
    requires Swept(h, st, c.now) && c.Consume? && c.now <= c.later
    ensures var o := Handle(h, st.rows, c);
            && ConsumesTo(h, st.log, c, o)
            && (o.store.Some? ==>
                  Tracks(h, State(o.store.value, if o.reply.Done? then st.log + [EntryOf(c, o).value] else st.log),
                         c.later))
  {
    hide Tracks, Find, Exact, Live, ConsumeCode;
    var k := FindHash(st.rows, h(c.token));
    var o := Handle(h, st.rows, c);
    if o.store.Some? {
      var r := st.rows[k];
      assert r.tokenHash == Some(h(c.token));
      HashIsLive(h, st, k, c.now);
      var i: nat, j: nat :| GrantOf(h, st.log, r, i, j, c.now);
      if o.reply.Done? {
        assert o.store.value[k] == o.reply.row;
        assert LiveFor(h, st.log, c.token, j, c.now);
        ConsumeRedeems(h, st, c, k, j, EntryOf(c, o).value);
      } else {
        ConsumeExpires(h, st, c, k, i, j);
      }
    }
  }

  lemma ConsumeRedeems(h: Hash, st: State, c: Call, k: nat, j: nat, e: Entry)
    requires Tracks(h, st, c.now) && c.Consume? && c.now <= c.later && k < |st.rows|
    requires LastWord(st.log, st.rows[k].id, j) && st.log[j].Granted?
    requires e.Redeemed? && e.id == st.rows[k].id && e.at == c.later
    ensures Tracks(h, State(st.rows[k := ConsumedRow(st.rows[k], c)], st.log + [e]), c.later)
  {
    hide Tracks, LastWord;
    UpdateTracks(h, st, k, ConsumedRow(st.rows[k], c), e, j, c.now, c.later);
  }

  lemma ConsumeExpires(h: Hash, st: State, c: Call, k: nat, i: nat, j: nat)
    requires Tracks(h, st, c.now) && c.Consume? && c.now <= c.later && k < |st.rows|
    requires GrantOf(h, st.log, st.rows[k], i, j, c.now) && st.log[j].at + 600_000 <= c.later
    ensures Tracks(h, State(st.rows[k := st.rows[k].(status := Expired, tokenHash := None)], st.log), c.later)
  {
    var r := st.rows[k];
    var q := r.(status := Expired, tokenHash := None);
    assert Told(h, st.log, r, c.now);
    ExpiredTold(h, st.log, r, q, j, c.now, c.later);
    hide Tracks, GrantOf;
    MarkTracks(h, st, k, q, c.now, c.later);
  }

  lemma ExpiredTold(h: Hash, log: seq<Entry>, r: Row, q: Row, j: nat, t: int, u: int)
    requires Told(h, log, r, t) && q == r.(status := Expired, tokenHash := None)
    requires LastWord(log, r.id, j) && log[j].Granted? && log[j].at + 600_000 <= u
    ensures Told(h, log, q, u)
  {
    var i: nat :| LastWord(log, r.id, i) && Fits(h, r, log[i], t);
    OneLastWord(log, r.id, i, j);
    assert Fits(h, q, log[j], u);
    BornStays(log, r, q);
  }

  // ----- requesting --------------------------------------------------------------------------

  /** A lower-case letter, then lower-case letters, digits and underscores. */
  ghost predicate Word(w: string) {
    && w != "" && w[0] in "abcdefghijklmnopqrstuvwxyz"
    && forall c :: c in w ==> c in "abcdefghijklmnopqrstuvwxyz0123456789_"
  }

  /** A word, a dot and a word. */
  ghost predicate ActionText(s: string) {
    exists a, b :: s == a + "." + b && Word(a) && Word(b)
  }

  ghost predicate GoodRequest(c: Call)
    requires c.Request?
  {
    && ActionText(c.action) && 1 <= |c.target| <= 200
    && 1 <= |Trim(c.reason)| <= 500 && c.requester != ""
  }

  /** The same request still waits for its approval. */
  ghost predicate Waiting(log: seq<Entry>, c: Call, i: nat)
    requires c.Request?
  {
    && i < |log| && log[i] == Requested(log[i].id, c.requester, c.action, c.target, log[i].at)
    && LastWord(log, log[i].id, i) && c.now < log[i].at + 1_800_000
  }

  lemma LetterIff(c: char)
    ensures c in "abcdefghijklmnopqrstuvwxyz" <==> 'a' <= c <= 'z'
  {
    if 'a' <= c <= 'm' {
      assert c == "abcdefghijklm"[(c as int) - ('a' as int)];
    } else if 'n' <= c <= 'z' {
      assert c == "nopqrstuvwxyz"[(c as int) - ('n' as int)];
    }
    assert "abcdefghijklmnopqrstuvwxyz" == "abcdefghijklm" + "nopqrstuvwxyz";
  }

  lemma DigitIff(c: char)
    ensures c in "0123456789" <==> '0' <= c <= '9'
  {
    if '0' <= c <= '9' {
      assert c == "0123456789"[(c as int) - ('0' as int)];
    }
  }

  lemma WordCharIff(c: char)
    ensures c in "abcdefghijklmnopqrstuvwxyz0123456789_" <==> 'a' <= c <= 'z' || '0' <= c <= '9' || c == '_'
  {
    LetterIff(c);
    DigitIff(c);
    assert "abcdefghijklmnopqrstuvwxyz0123456789_" == "abcdefghijklmnopqrstuvwxyz" + "0123456789" + "_";
  }

  lemma NameIff(w: string)
    ensures IsName(w) <==> Word(w)
  {
    forall c: char ensures c in "abcdefghijklmnopqrstuvwxyz0123456789_" <==>
                             'a' <= c <= 'z' || '0' <= c <= '9' || c == '_'
    {
      WordCharIff(c);
    }
    if w != "" {
      LetterIff(w[0]);
    }
  }

  lemma WordHasNoDot(w: string)
    requires Word(w)
    ensures '.' !in w
  {
    WordCharIff('.');
  }

  lemma ActionIff(s: string)
    ensures IsAction(s) <==> ActionText(s)
  {
    hide Word, IsName, Split, Join;
    var parts := Split(s, '.');
    if IsAction(s) {
      NameIff(parts[0]);
      NameIff(parts[1]);
      JoinSplit(s, '.');
      JoinTwo(parts[0], parts[1]);
      assert parts == [parts[0], parts[1]];
    }
    if ActionText(s) {
      var a, b :| s == a + "." + b && Word(a) && Word(b);
      NameIff(a);
      NameIff(b);
      WordHasNoDot(a);
      WordHasNoDot(b);
      JoinTwo(a, b);
      SplitJoin([a, b], '.');
    }
  }

  lemma JoinTwo(a: string, b: string)
    ensures Join([a, b], '.') == a + "." + b
  {
    assert [a, b][1..] == [b];
  }

  ghost predicate RequestsAs(log: seq<Entry>, c: Call, o: Outcome)
    requires c.Request?
  {
    && (o.reply.Done? <==> GoodRequest(c))
    && (!GoodRequest(c) ==> o.store.None? && o.reply == Refused(RequestCode(c)))
    && (GoodRequest(c) && (exists i: nat :: Waiting(log, c, i)) ==>
          && o.store.None? && o.reply.row.status == Pending
          && exists i: nat :: Waiting(log, c, i) && log[i].id == o.reply.row.id)
    && (GoodRequest(c) && (forall i: nat :: !Waiting(log, c, i)) ==>
          && o.store.Some? && o.store.value != [] && o.store.value[|o.store.value| - 1] == o.reply.row
          && EntryOf(c, o) == Some(Requested(c.id, c.requester, c.action, c.target, c.later))
          && o.reply.row == Row(c.id, c.action, c.target, Trim(c.reason), c.requester, c.later, c.later + 1_800_000,
                                Pending, None, None, None, None, None, None, None))
  }

  ghost function RequestCode(c: Call): Code
    requires c.Request?
  {
    if !ActionText(c.action) then BadAction
    else if !(1 <= |c.target| <= 200) then BadTarget
    else if !(1 <= |Trim(c.reason)| <= 500) then BadReason
    else BadRequester
  }

  lemma WaitingIsPending(h: Hash, st: State, c: Call, i: nat)
    requires Swept(h, st, c.now) && c.Request? && Waiting(st.log, c, i)
    ensures FindPending(st.rows, c.action, c.target, c.requester) >= 0
  {
    hide Fits, Knows, StatusOf, Find, LastWord, Told, UniqueIds;
    assert HasRow(st.rows, st.log[i].id);
    var k :| 0 <= k < |st.rows| && st.rows[k].id == st.log[i].id;
    hide Swept, HasRow;
    RowKnows(h, st, k, c.now);
    var j: nat :| Knows(h, st.log, st.rows[k], j, c.now);
    KnowsLast(h, st.log, st.rows[k], j, i, c.now);
    PendingKnown(h, st.log, st.rows[k], i, c.now);
  }

  lemma PendingKnown(h: Hash, log: seq<Entry>, r: Row, i: nat, now: int)
    requires Knows(h, log, r, i, now) && log[i].Requested? && now < log[i].at + 1_800_000
    ensures r.status == Pending
    ensures log[i] == Requested(r.id, r.requestedBy, r.action, r.target, r.requestedAt)
  {
  }

  lemma PendingIsWaiting(h: Hash, st: State, c: Call, k: nat)
    requires Swept(h, st, c.now) && c.Request? && k < |st.rows|
    requires SamePending(st.rows[k], c.action, c.target, c.requester)
    ensures exists i: nat :: Waiting(st.log, c, i) && st.log[i].id == st.rows[k].id
  {
    hide Swept, StatusOf;
    RowKnows(h, st, k, c.now);
    var i: nat :| Knows(h, st.log, st.rows[k], i, c.now);
    PendingIsRequested(st.log[i], c.now);
    assert Waiting(st.log, c, i);
  }

  lemma RequestCheck(c: Call)
    requires c.Request?
    ensures EarlyRefusal(c) == if GoodRequest(c) then None else Some(RequestCode(c))
  {
    hide IsAction, ActionText, Trim;
    ActionIff(c.action);
  }

  lemma RequestReplies(h: Hash, st: State, c: Call)
    requires Swept(h, st, c.now) && c.Request?
    ensures RequestsAs(st.log, c, Handle(h, st.rows, c))
  {
    hide Swept, Find, GoodRequest, RequestCode, Waiting;
    hide CheckRequest, Trim;
    RequestCheck(c);
    hide EarlyRefusal;
    var k := FindPending(st.rows, c.action, c.target, c.requester);
    forall i: nat | Waiting(st.log, c, i) ensures k >= 0 {
      WaitingIsPending(h, st, c, i);
    }
    if k >= 0 {
      assert SamePending(st.rows[k], c.action, c.target, c.requester);
      PendingIsWaiting(h, st, c, k);
    }
  }

  lemma RequestTracks(h: Hash, st: State, c: Call)
    requires Swept(h, st, c.now) && c.Request? && c.now <= c.later && Fresh(st, c)
    ensures var o := Handle(h, st.rows, c);
            o.store.Some? ==>
              EntryOf(c, o).Some? && Tracks(h, State(o.store.value, st.log + [EntryOf(c, o).value]), c.later)
  {
    hide Tracks, Find, CheckRequest, Trim;
    var o := Handle(h, st.rows, c);
    if o.store.Some? {
      AddTracks(h, st, NewRow(c), EntryOf(c, o).value, c.now, c.later);
    }
  }
}
