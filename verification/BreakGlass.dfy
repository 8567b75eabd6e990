/** Time-boxed emergency grants (web/lib/breakGlassStore.ts). */
module BreakGlass {
  import opened Prelude
  import opened Text

  const MIN_TTL_SECONDS := 60
  const MAX_TTL_SECONDS := 3600
  const DEFAULT_TTL_SECONDS := 1800
  const MIN_REASON_LEN := 10
  const MAX_REASON_LEN := 500
  const MAX_HISTORY: nat := 50

  /** Times are milliseconds. */
  datatype Grant = Grant(
    id: string,
    grantedAt: int,
    expiresAt: int,
    grantedBy: Option<string>,
    reason: string,
    ttlSeconds: int,
    uses: nat,
    lastUsedAt: Option<int>,
    revokedAt: Option<int>,
    revokedBy: Option<string>)

  datatype State = State(active: Option<Grant>, history: seq<Grant>)

  datatype Code = BadReason | BadTtl | NoActive

  function Expired(g: Grant, now: int): bool {
    g.revokedAt.Some? || g.expiresAt <= now
  }

  function Take(s: seq<Grant>): seq<Grant> {
    if |s| <= MAX_HISTORY then s else s[..MAX_HISTORY]
  }

  /** Lifetime in whole seconds; anything that is not a number means the default. */
  function Ttl(ttl: Option<real>): int {
    if ttl.None? then DEFAULT_TTL_SECONDS else ttl.value.Floor
  }

  function Check(reason: string, ttl: Option<real>): Option<Code> {
    var text := Trim(reason);
    if |text| < MIN_REASON_LEN || |text| > MAX_REASON_LEN then Some(BadReason)
    else if Ttl(ttl) < MIN_TTL_SECONDS || Ttl(ttl) > MAX_TTL_SECONDS then Some(BadTtl)
    else None
  }

  function NewGrant(id: string, reason: string, ttl: Option<real>, actor: Option<string>, now: int): Grant {
    Grant(id, now, now + Ttl(ttl) * 1000, actor, Trim(reason), Ttl(ttl), 0, None, None, None)
  }

  /** The still valid grant that a new one replaces, marked as revoked. */
  function Superseded(s: State, actor: Option<string>, now: int): Option<Grant> {
    if s.active.Some? && !Expired(s.active.value, now)
    then Some(s.active.value.(revokedAt := Some(now), revokedBy := actor))
    else None
  }

  function Issued(s: State, g: Grant, actor: Option<string>, now: int): State {
    var past :=
      if Superseded(s, actor, now).Some? then [Superseded(s, actor, now).value]
      else if s.active.Some? then [s.active.value]
      else [];
    State(Some(g), Take(past + s.history))
  }

  function Revoked(s: State, actor: Option<string>, now: int): State {
    if s.active.None? || Expired(s.active.value, now) then s
    else State(None, Take([s.active.value.(revokedAt := Some(now), revokedBy := actor)] + s.history))
  }

  function Used(s: State, now: int): State {
    if s.active.None? || Expired(s.active.value, now) then s
    else s.(active := Some(s.active.value.(uses := s.active.value.uses + 1, lastUsedAt := Some(now))))
  }

  function Active(s: State, now: int): Option<Grant> {
    if s.active.None? || Expired(s.active.value, now) then None else s.active
  }

  class BreakGlassStore {
    var active: Option<Grant>
    var history: seq<Grant>

    constructor ()
      ensures Abs() == State(None, [])
    {
      active, history := None, [];
    }

    function Abs(): State
      reads this
    {
      State(active, history)
    }

    method Issue(id: string, reason: string, ttl: Option<real>, actor: Option<string>, now: int)
      returns (r: Result<Grant, Code>, superseded: Option<Grant>)
      modifies this
      ensures Check(reason, ttl).Some? ==>
                r == Err(Check(reason, ttl).value) && Abs() == old(Abs()) && superseded == None
      ensures Check(reason, ttl).None? ==>
                && r == Ok(NewGrant(id, reason, ttl, actor, now))
                && superseded == Superseded(old(Abs()), actor, now)
                && Abs() == Issued(old(Abs()), r.value, actor, now)
    {
      hide Trim, Take;
      var text := Trim(reason);
      if |text| < MIN_REASON_LEN {
        return Err(BadReason), None;
      }
      if |text| > MAX_REASON_LEN {
        return Err(BadReason), None;
      }
      var seconds := if ttl.None? then DEFAULT_TTL_SECONDS else ttl.value.Floor;
      if seconds < MIN_TTL_SECONDS || seconds > MAX_TTL_SECONDS {
        return Err(BadTtl), None;
      }
      superseded := None;
      var past := [];
      if active.Some? {
        if !Expired(active.value, now) {
          superseded := Some(active.value.(revokedAt := Some(now), revokedBy := actor));
          past := [superseded.value];
        } else {
          past := [active.value];
        }
      }
      var g := Grant(id, now, now + seconds * 1000, actor, text, seconds, 0, None, None, None);
      active := Some(g);
      history := Take(past + history);
      r := Ok(g);
    }

    method Revoke(actor: Option<string>, now: int) returns (r: Result<Grant, Code>)
      modifies this
      ensures Abs() == Revoked(old(Abs()), actor, now)
      ensures r == if Active(old(Abs()), now).None? then Err(NoActive)
                   else Ok(old(active).value.(revokedAt := Some(now), revokedBy := actor))
    {
      if active.None? || Expired(active.value, now) {
        return Err(NoActive);
      }
      var g := active.value.(revokedAt := Some(now), revokedBy := actor);
      history := Take([g] + history);
      active := None;
      r := Ok(g);
    }

    method RecordUse(now: int)
      modifies `active
      ensures Abs() == Used(old(Abs()), now)
    {
      if active.None? || Expired(active.value, now) {
        return;
      }
      active := Some(active.value.(uses := active.value.uses + 1, lastUsedAt := Some(now)));
    }

    method GetActive(now: int) returns (g: Option<Grant>)
      ensures g == Active(Abs(), now)
    {
      if active.None? || Expired(active.value, now) {
        return None;
      }
      g := active;
    }
  }
}
