/** The grant store against the log of everything that was done to it (web/lib/breakGlassStore.ts). */
module BreakGlassRuns {
  import opened Prelude
  import opened Text
  import opened BreakGlass

  datatype Event =
    | Issue(id: string, reason: string, ttl: Option<real>, actor: Option<string>, now: int)
    | Revoke(actor: Option<string>, now: int)
    | Use(now: int)

  function Step(s: State, e: Event): State {
    match e
    case Issue(id, reason, ttl, actor, now) =>
      if Check(reason, ttl).Some? then s else Issued(s, NewGrant(id, reason, ttl, actor, now), actor, now)
    case Revoke(actor, now) => Revoked(s, actor, now)
    case Use(now) => Used(s, now)
  }

  function Run(log: seq<Event>): State {
    if log == [] then State(None, []) else Step(Run(log[..|log| - 1]), log[|log| - 1])
  }

  predicate Timely(log: seq<Event>) {
    forall i, j :: 0 <= i < j < |log| ==> log[i].now <= log[j].now
  }

  /** The lifetime asked for: whole seconds, 1800 when it is not a number. */
  function Seconds(ttl: Option<real>): int {
    if ttl == None then 1800 else ttl.value.Floor
  }

  /** The reason has 10 to 500 characters without the spaces around it, the lifetime 1 to 60 minutes. */
  predicate Grants(e: Event) {
    e.Issue? && 10 <= |Trim(e.reason)| <= 500 && 60 <= Seconds(e.ttl) <= 3600
  }

  function GrantOf(e: Event): Grant
    requires Grants(e)
  {
    Grant(e.id, e.now, e.now + 1000 * Seconds(e.ttl), e.actor, Trim(e.reason), Seconds(e.ttl), 0, None, None, None)
  }

  /** Which requests are refused, why, and what the others get. */
  lemma IssueIs(e: Event)
    requires e.Issue?
    ensures Check(e.reason, e.ttl) ==
            if !(10 <= |Trim(e.reason)| <= 500) then Some(BadReason)
            else if !(60 <= Seconds(e.ttl) <= 3600) then Some(BadTtl)
            else None
    ensures Grants(e) ==> NewGrant(e.id, e.reason, e.ttl, e.actor, e.now) == GrantOf(e)
  {
    hide Trim;
  }

  // ----- the reference: read off the log -------------------------------------------------------

  /** Every grant ever issued, newest first, as it was issued. */
  function AllGrants(log: seq<Event>): seq<Grant> {
    if log == [] then []
    else
      var e := log[|log| - 1];
      (if Grants(e) then [GrantOf(e)] else []) + AllGrants(log[..|log| - 1])
  }

  /** Someone asked for revocation after the last grant. */
  function RevokeAsked(log: seq<Event>): bool {
    if log == [] then false
    else
      var e := log[|log| - 1];
      if Grants(e) then false else if e.Revoke? then true else RevokeAsked(log[..|log| - 1])
  }

  /** How often the last grant was used while it was valid. */
  function UsesSince(log: seq<Event>): nat {
    if log == [] then 0
    else
      var e, init := log[|log| - 1], log[..|log| - 1];
      if Grants(e) then 0
      else if e.Use? && AllGrants(init) != [] && !RevokeAsked(init) && e.now < AllGrants(init)[0].expiresAt
      then UsesSince(init) + 1
      else UsesSince(init)
  }

  predicate Same(g: Grant, issued: Grant) {
    && g.id == issued.id && g.grantedAt == issued.grantedAt && g.expiresAt == issued.expiresAt
    && g.grantedBy == issued.grantedBy && g.reason == issued.reason && g.ttlSeconds == issued.ttlSeconds
  }

  /** `h` lists the grants of `all`, as far as it goes, and no more than the limit. */
  ghost predicate Truncated(h: seq<Grant>, all: seq<Grant>) {
    && |h| == Min(|all|, MAX_HISTORY)
    && forall i :: 0 <= i < |h| ==> Same(h[i], all[i])
  }

  ghost predicate Inv(s: State, log: seq<Event>, now: int) {
    var all := AllGrants(log);
    match s.active
    case Some(g) =>
      && all != [] && Same(g, all[0]) && g.revokedAt.None?
      && (RevokeAsked(log) ==> g.expiresAt <= now)
      && g.uses == UsesSince(log)
      && Truncated(s.history, all[1..])
    case None =>
      && (all != [] ==> RevokeAsked(log))
      && Truncated(s.history, all)
  }

  lemma PushTruncated(g: Grant, issued: Grant, h: seq<Grant>, rest: seq<Grant>)
    requires Same(g, issued) && Truncated(h, rest)
    ensures Truncated(Take([g] + h), [issued] + rest)
  {
  }

  function LastTime(log: seq<Event>): int {
    if log == [] then 0 else log[|log| - 1].now
  }

  lemma GrantAdded(init: seq<Event>, e: Event)
    requires Grants(e)
    ensures AllGrants(init + [e]) == [GrantOf(e)] + AllGrants(init)
    ensures !RevokeAsked(init + [e]) && UsesSince(init + [e]) == 0
  {
    hide NewGrant, Check, Trim;
    assert (init + [e])[..|init|] == init;
  }

  lemma RefusedInv(s: State, init: seq<Event>, e: Event, t: int)
    requires Inv(s, init, t) && t <= e.now && e.Issue? && !Grants(e)
    ensures Inv(Step(s, e), init + [e], e.now)
  {
    IssueIs(e);
    hide NewGrant, Check, Trim;
    assert (init + [e])[..|init|] == init;
    assert AllGrants(init + [e]) == AllGrants(init);
  }

  lemma FirstIssueInv(s: State, init: seq<Event>, e: Event, t: int)
    requires Inv(s, init, t) && e.Issue? && Grants(e) && s.active.None?
    ensures Inv(Step(s, e), init + [e], e.now)
  {
    IssueIs(e);
    GrantAdded(init, e);
    hide AllGrants, RevokeAsked, UsesSince, Check;
    assert AllGrants(init + [e])[1..] == AllGrants(init);
    assert [] + s.history == s.history;
  }

  /** The old grant joins the history, revoked if it was still valid. */
  lemma OldGrantFiled(s: State, all: seq<Grant>, actor: Option<string>, now: int)
    requires s.active.Some? && all != [] && Same(s.active.value, all[0]) && Truncated(s.history, all[1..])
    ensures Truncated(Issued(s, s.active.value, actor, now).history, all)
  {
    hide Truncated, Take;
    var g := s.active.value;
    assert all == [all[0]] + all[1..];
    PushTruncated(g, all[0], s.history, all[1..]);
    PushTruncated(g.(revokedAt := Some(now), revokedBy := actor), all[0], s.history, all[1..]);
  }

  lemma NextIssueInv(s: State, init: seq<Event>, e: Event, t: int)
    requires Inv(s, init, t) && e.Issue? && Grants(e) && s.active.Some?
    ensures Inv(Step(s, e), init + [e], e.now)
  {
    IssueIs(e);
    GrantAdded(init, e);
    hide AllGrants, RevokeAsked, UsesSince, Check, Truncated, Take;
    OldGrantFiled(s, AllGrants(init), e.actor, e.now);
    assert AllGrants(init + [e])[1..] == AllGrants(init);
  }

  lemma IssueInv(s: State, init: seq<Event>, e: Event, t: int)
    requires Inv(s, init, t) && e.Issue? && Grants(e)
    ensures Inv(Step(s, e), init + [e], e.now)
  {
    hide Inv, Step, Grants;
    if s.active.Some? {
      NextIssueInv(s, init, e, t);
    } else {
      FirstIssueInv(s, init, e, t);
    }
  }

  lemma RevokeInv(s: State, init: seq<Event>, e: Event, t: int)
    requires Inv(s, init, t) && t <= e.now && e.Revoke?
    ensures Inv(Step(s, e), init + [e], e.now)
  {
    var all, log := AllGrants(init), init + [e];
    assert log[..|log| - 1] == init;
    assert AllGrants(log) == all;
    if s.active.Some? {
      assert all == [all[0]] + all[1..];
      var g := s.active.value.(revokedAt := Some(e.now), revokedBy := e.actor);
      PushTruncated(g, all[0], s.history, all[1..]);
    }
  }

  lemma UseInv(s: State, init: seq<Event>, e: Event, t: int)
    requires Inv(s, init, t) && t <= e.now && e.Use?
    ensures Inv(Step(s, e), init + [e], e.now)
  {
    var all, log := AllGrants(init), init + [e];
    assert log[..|log| - 1] == init;
    assert AllGrants(log) == all;
  }

  lemma EmptyInv(t: int)
    ensures Inv(Run([]), [], t)
  {
  }

  lemma StepInv(s: State, init: seq<Event>, e: Event, t: int)
    requires Inv(s, init, t) && t <= e.now
    ensures Inv(Step(s, e), init + [e], e.now)
  {
    hide Inv, Step, Grants;
    match e
    case Issue(_, _, _, _, _) =>
      if Grants(e) {
        IssueInv(s, init, e, t);
      } else {
        RefusedInv(s, init, e, t);
      }
    case Revoke(_, _) => RevokeInv(s, init, e, t);
    case Use(_) => UseInv(s, init, e, t);
  }

  lemma {:induction false} RunInv(log: seq<Event>)
    requires Timely(log)
    ensures Inv(Run(log), log, LastTime(log))
  {
    hide Inv, Step;
    if log == [] {
      EmptyInv(0);
    } else {
      var init, e := log[..|log| - 1], log[|log| - 1];
      var t := if init == [] then e.now else LastTime(init);
      EmptyInv(t);
      RunInv(init);
      assert log == init + [e];
      StepInv(Run(init), init, e, t);
    }
  }

  /** A grant is active exactly when it is the last one issued, nobody asked for revocation since,
      and its own lifetime, at most an hour, has not passed; its uses are the valid uses since. */
  lemma {:induction false} ActiveIff(log: seq<Event>, now: int)
    requires Timely(log) && LastTime(log) <= now
    ensures var g, all := Active(Run(log), now), AllGrants(log);
            && (g.Some? <==> all != [] && !RevokeAsked(log) && now < all[0].expiresAt)
            && (g.Some? ==> Same(g.value, all[0]) && g.value.uses == UsesSince(log))
            && (g.Some? ==> now < g.value.grantedAt + 3_600_000)
  {
    RunInv(log);
    LifetimeBound(log);
  }

  lemma {:induction false} LifetimeBound(log: seq<Event>)
    ensures forall i :: 0 <= i < |AllGrants(log)| ==>
              AllGrants(log)[i].expiresAt <= AllGrants(log)[i].grantedAt + 3_600_000
  {
    if log != [] {
      LifetimeBound(log[..|log| - 1]);
    }
  }

  /** Using a grant never moves its expiry. */
  lemma UseKeepsExpiry(s: State, now: int)
    ensures Used(s, now).history == s.history
    ensures s.active.Some? <==> Used(s, now).active.Some?
    ensures s.active.Some? ==> Same(Used(s, now).active.value, s.active.value)
    ensures s.active.Some? ==> Used(s, now).active.value.revokedAt == s.active.value.revokedAt
  {
  }

  /** The active grant and the history, in this order. */
  function Stored(s: State): seq<Grant> {
    (if s.active.Some? then [s.active.value] else []) + s.history
  }

  lemma {:induction false} StoredAre(s: State, log: seq<Event>, now: int)
    requires Inv(s, log, now)
    ensures |Stored(s)| == Min(|AllGrants(log)|, if s.active.Some? then MAX_HISTORY + 1 else MAX_HISTORY)
    ensures forall i :: 0 <= i < |Stored(s)| ==> Same(Stored(s)[i], AllGrants(log)[i])
  {
    hide AllGrants, RevokeAsked, UsesSince, Same;
    var all := AllGrants(log);
    if s.active.Some? {
      forall i | 1 <= i < |Stored(s)| ensures Same(Stored(s)[i], all[i]) {
        assert Stored(s)[i] == s.history[i - 1] && all[1..][i - 1] == all[i];
      }
    }
  }

  /** The store lists the newest grants first, each as it was issued but for its uses and revocation,
      truncated to the active one and fifty past ones, and no grant twice. */
  lemma {:induction false} HistoryIsNewestFirst(log: seq<Event>)
    requires Timely(log)
    requires forall i, j :: 0 <= i < j < |AllGrants(log)| ==> AllGrants(log)[i].id != AllGrants(log)[j].id
    ensures var stored, all := Stored(Run(log)), AllGrants(log);
            && |stored| == Min(|all|, if Run(log).active.Some? then MAX_HISTORY + 1 else MAX_HISTORY)
            && (forall i :: 0 <= i < |stored| ==> Same(stored[i], all[i]))
            && (forall i, j :: 0 <= i < j < |stored| ==> stored[i].id != stored[j].id)
  {
    RunInv(log);
    StoredAre(Run(log), log, LastTime(log));
    hide AllGrants, Run, Stored, Inv;
    var stored := Stored(Run(log));
    forall i | 0 <= i < |stored| ensures stored[i].id == AllGrants(log)[i].id {
      assert Same(stored[i], AllGrants(log)[i]);
    }
  }

  // ----- every mark on every grant -----------------------------------------------------------------

  predicate Open(all: seq<Grant>, now: int) {
    all != [] && all[0].revokedAt == None && now < all[0].expiresAt
  }

  /** The newest grant, if it is still open, is marked as revoked. */
  function Closed(all: seq<Grant>, actor: Option<string>, now: int): seq<Grant> {
    if Open(all, now) then [all[0].(revokedAt := Some(now), revokedBy := actor)] + all[1..] else all
  }

  /** All grants, newest first, with what happened to them. */
  function Ledger(log: seq<Event>): seq<Grant> {
    if log == [] then []
    else
      var all, e := Ledger(log[..|log| - 1]), log[|log| - 1];
      match e
      case Issue(_, _, _, actor, now) => if Grants(e) then [GrantOf(e)] + Closed(all, actor, now) else all
      case Revoke(actor, now) => Closed(all, actor, now)
      case Use(now) => UsedFirst(all, now)
  }

  function UsedFirst(all: seq<Grant>, now: int): seq<Grant> {
    if Open(all, now) then [all[0].(uses := all[0].uses + 1, lastUsedAt := Some(now))] + all[1..] else all
  }

  function Newest(all: seq<Grant>, n: nat): seq<Grant> {
    if |all| <= n then all else all[..n]
  }

  ghost predicate Mirrors(s: State, all: seq<Grant>) {
    match s.active
    case Some(g) => all != [] && g == all[0] && g.revokedAt == None && s.history == Newest(all[1..], 50)
    case None => (all != [] ==> all[0].revokedAt != None) && s.history == Newest(all, 50)
  }

  lemma TakePushed(g: Grant, rest: seq<Grant>)
    ensures Take([g] + Newest(rest, 50)) == Newest([g] + rest, 50)
    ensures Take(Newest(rest, 50)) == Newest(rest, 50)
  {
  }

  lemma RevokeMirrors(s: State, all: seq<Grant>, actor: Option<string>, now: int)
    requires Mirrors(s, all)
    ensures Mirrors(Revoked(s, actor, now), Closed(all, actor, now))
  {
    hide Take;
    if s.active.Some? {
      TakePushed(s.active.value.(revokedAt := Some(now), revokedBy := actor), all[1..]);
    }
  }

  lemma UseMirrors(s: State, all: seq<Grant>, now: int)
    requires Mirrors(s, all)
    ensures Mirrors(Used(s, now), UsedFirst(all, now))
  {
    assert Open(all, now) ==> UsedFirst(all, now)[1..] == all[1..];
  }

  lemma StepMirrors(s: State, all: seq<Grant>, log: seq<Event>)
    requires log != [] && all == Ledger(log[..|log| - 1]) && Mirrors(s, all)
    ensures Mirrors(Step(s, log[|log| - 1]), Ledger(log))
  {
    var e := log[|log| - 1];
    hide NewGrant, Check, Trim, Issued, Revoked, Used, Mirrors, Closed, UsedFirst, Open, Newest;
    match e {
      case Issue(_, _, _, actor, now) =>
        IssueIs(e);
        hide GrantOf;
        if Grants(e) {
          NewGrantUnrevoked(e);
          hide Grants;
          IssueMirrors(s, all, GrantOf(e), actor, now);
        }
      case Revoke(actor, now) => RevokeMirrors(s, all, actor, now);
      case Use(now) => UseMirrors(s, all, now);
    }
  }

  lemma NewGrantUnrevoked(e: Event)
    requires Grants(e)
    ensures GrantOf(e).revokedAt == None
  {
  }

  lemma IssueMirrors(s: State, all: seq<Grant>, g: Grant, actor: Option<string>, now: int)
    requires Mirrors(s, all) && g.revokedAt == None
    ensures Mirrors(Issued(s, g, actor, now), [g] + Closed(all, actor, now))
  {
    hide Take;
    assert ([g] + Closed(all, actor, now))[1..] == Closed(all, actor, now);
    if s.active.Some? {
      TakePushed(s.active.value.(revokedAt := Some(now), revokedBy := actor), all[1..]);
      TakePushed(s.active.value, all[1..]);
      assert all == [all[0]] + all[1..];
    } else {
      TakePushed(g, all);
      assert [] + s.history == s.history;
    }
  }

  lemma {:induction false} RunMirrors(log: seq<Event>)
    ensures Mirrors(Run(log), Ledger(log))
  {
    hide Mirrors, Step, Ledger;
    if log == [] {
      EmptyMirrors();
    } else {
      RunMirrors(log[..|log| - 1]);
      StepMirrors(Run(log[..|log| - 1]), Ledger(log[..|log| - 1]), log);
    }
  }

  lemma EmptyMirrors()
    ensures Mirrors(Run([]), Ledger([]))
  {
  }

  /** The store is the newest part of the ledger, mark by mark: the active grant is its first entry, and
      behind it, or from the first on when it was revoked, come at most fifty. */
  lemma StoreIsLedger(log: seq<Event>, actor: Option<string>, now: int)
    ensures var s, all := Run(log), Ledger(log);
            && Active(s, now) == (if Open(all, now) then Some(all[0]) else None)
            && (s.active.Some? ==>
                  all != [] && s.active.value == all[0] && s.history == Newest(all[1..], 50))
            && (s.active == None ==> s.history == Newest(all, 50))
            && Superseded(s, actor, now) == if Open(all, now) then Some(Closed(all, actor, now)[0]) else None
  {
    hide Run, Ledger;
    RunMirrors(log);
  }
}
