/** The coalescing single writer behind the monthly quota store: `flush` (web/lib/monthlyQuotaStore.ts).

    Every value the cache ever had is numbered; `history` lists them, and the store a mutation
    leaves behind is version `|history| - 1`. */
module QuotaFlush {

  /** Where a running flush body waits: for `mkdir`, `writeFile`, `rename`, or to go on after it. */
  datatype Writer<S> =
    | AwaitMkdir
    | AwaitWrite(value: S, version: nat)
    | AwaitRename(value: S, version: nat)
    | Renamed(value: S, version: nat)

  /** `waiting` and `resolved` hold the versions of the callers whose promise is pending or has resolved. */
  datatype State<S> = State(
    cache: S,
    flushing: bool,
    pending: bool,
    writers: seq<Writer<S>>,
    disk: S,
    diskVersion: nat,
    lastFailed: bool,
    history: seq<S>,
    waiting: seq<nat>,
    resolved: seq<nat>)

  function Start<S>(s: S): State<S> {
    State(s, false, false, [], s, 0, false, [s], [], [])
  }

  /** A caller changes the cache and calls `flush`, or some writer's awaited operation ends. */
  datatype Event<S> = Mutate(value: S) | Advance(writer: nat, ok: bool)

  function Flush<S>(st: State<S>): State<S> {
    if st.flushing then st.(pending := true)
    else st.(flushing := true, pending := false, writers := st.writers + [AwaitMkdir])
  }

  function MutateStep<S>(st: State<S>, value: S): State<S> {
    Flush(st.(cache := value, history := st.history + [value], waiting := st.waiting + [|st.history|]))
  }

  function Without<T>(s: seq<T>, i: nat): seq<T>
    requires i < |s|
  {
    s[..i] + s[i + 1..]
  }

  function AdvanceStep<S>(st: State<S>, w: nat, ok: bool): State<S>
    requires w < |st.writers| && st.history != []
  {
    var writer := st.writers[w];
    if !ok && !writer.Renamed? then
      st.(flushing := false, lastFailed := true, writers := Without(st.writers, w), waiting := [])
    else
      match writer
      case AwaitMkdir => st.(writers := st.writers[w := AwaitWrite(st.cache, |st.history| - 1)])
      case AwaitWrite(s, v) => st.(writers := st.writers[w := AwaitRename(s, v)])
      case AwaitRename(s, v) => st.(disk := s, diskVersion := v, writers := st.writers[w := Renamed(s, v)])
      case Renamed(s, v) =>
        if st.pending then st.(pending := false, writers := st.writers[w := AwaitMkdir])
        else
          st.(flushing := false, lastFailed := false, writers := Without(st.writers, w),
              waiting := [], resolved := st.resolved + st.waiting)
  }

  predicate Enabled<S>(st: State<S>, e: Event<S>) {
    e.Advance? ==> e.writer < |st.writers| && st.history != []
  }

  function Next<S>(st: State<S>, e: Event<S>): State<S>
    requires Enabled(st, e)
  {
    match e
    case Mutate(v) => MutateStep(st, v)
    case Advance(w, ok) => AdvanceStep(st, w, ok)
  }

  /** The version that a writer is about to put on disk. */
  ghost predicate Snapshot<S>(st: State<S>, s: S, v: nat) {
    && st.diskVersion <= v < |st.history|
    && s == st.history[v]
    && (!st.pending ==> v == |st.history| - 1)
  }

  ghost predicate WriterOk<S>(st: State<S>, w: Writer<S>) {
    match w
    case AwaitMkdir => true
    case AwaitWrite(s, v) => Snapshot(st, s, v)
    case AwaitRename(s, v) => Snapshot(st, s, v)
    case Renamed(s, v) => Snapshot(st, s, v) && st.diskVersion == v
  }

  ghost predicate Inv<S>(st: State<S>) {
    && |st.writers| == (if st.flushing then 1 else 0)
    && (forall i :: 0 <= i < |st.writers| ==> WriterOk(st, st.writers[i]))
    && st.diskVersion < |st.history|
    && st.disk == st.history[st.diskVersion]
    && st.cache == st.history[|st.history| - 1]
    && (!st.flushing ==> st.waiting == [])
    && (!st.flushing && !st.lastFailed ==> st.diskVersion == |st.history| - 1)
    && (forall i :: 0 <= i < |st.waiting| ==> st.waiting[i] < |st.history|)
    && (forall i :: 0 <= i < |st.resolved| ==> st.resolved[i] <= st.diskVersion)
  }

  lemma {:induction false} MutateInv<S>(st: State<S>, v: S)
    requires Inv(st)
    ensures Inv(MutateStep(st, v))
    ensures st.diskVersion <= MutateStep(st, v).diskVersion
    ensures st.history <= MutateStep(st, v).history
  {
    var before := st.(cache := v, history := st.history + [v], waiting := st.waiting + [|st.history|]);
    assert forall k :: 0 <= k < |st.history| ==> before.history[k] == st.history[k];
  }

  lemma FailureInv<S>(st: State<S>)
    requires Inv(st) && |st.writers| > 0 && st.history != [] && !st.writers[0].Renamed?
    ensures Inv(AdvanceStep(st, 0, false))
    ensures st.diskVersion <= AdvanceStep(st, 0, false).diskVersion
    ensures st.history <= AdvanceStep(st, 0, false).history
  {
  }

  lemma EndInv<S>(st: State<S>, ok: bool)
    requires Inv(st) && |st.writers| > 0 && st.history != [] && st.writers[0].Renamed?
    ensures Inv(AdvanceStep(st, 0, ok))
    ensures st.diskVersion <= AdvanceStep(st, 0, ok).diskVersion
    ensures st.history <= AdvanceStep(st, 0, ok).history
  {
  }

  lemma AdvanceInv<S>(st: State<S>, w: nat, ok: bool)
    requires Inv(st) && w < |st.writers| && st.history != []
    ensures Inv(AdvanceStep(st, w, ok))
    ensures st.diskVersion <= AdvanceStep(st, w, ok).diskVersion
    ensures st.history <= AdvanceStep(st, w, ok).history
  {
    assert w == 0;
    if st.writers[0].Renamed? {
      EndInv(st, ok);
    } else if !ok {
      FailureInv(st);
    }
  }

  lemma {:induction false} NextInv<S>(st: State<S>, e: Event<S>)
    requires Inv(st) && Enabled(st, e)
    ensures Inv(Next(st, e))
    ensures st.diskVersion <= Next(st, e).diskVersion
    ensures st.history <= Next(st, e).history
  {
    hide Inv, MutateStep, AdvanceStep;
    match e
    case Mutate(v) => MutateInv(st, v);
    case Advance(w, ok) => AdvanceInv(st, w, ok);
  }

  // ----- every run --------------------------------------------------------------------------

  /** The events can happen in this order. */
  ghost predicate Follows<S>(st: State<S>, events: seq<Event<S>>, end: State<S>)
    decreases |events|
  {
    if events == [] then st == end
    else Enabled(st, events[0]) && Follows(Next(st, events[0]), events[1..], end)
  }

  predicate NoFailure<S>(events: seq<Event<S>>) {
    forall i :: 0 <= i < |events| ==> events[i].Advance? ==> events[i].ok
  }

  lemma {:induction false} RunInv<S>(st: State<S>, events: seq<Event<S>>, end: State<S>)
    requires Inv(st) && Follows(st, events, end)
    ensures Inv(end)
    ensures st.diskVersion <= end.diskVersion && st.history <= end.history
    ensures !st.lastFailed && NoFailure(events) ==> !end.lastFailed
    decreases |events|
  {
    if events != [] {
      NextInv(st, events[0]);
      RunInv(Next(st, events[0]), events[1..], end);
      if NoFailure(events) {
        assert events[0].Advance? ==> events[0].ok;
        assert forall i :: 0 <= i < |events[1..]| ==> events[1..][i] == events[i + 1];
      }
    }
  }

  /** Under every interleaving, with or without I/O errors, at every moment `mid` of a run: there is
      never more than one writer, the disk holds a past value of the cache, and a caller's promise has
      resolved only if its own mutation is on disk. From there to any later moment `end` the disk
      never goes back to an older value, so what was saved stays. */
  lemma EveryInterleaving<S>(s: S, first: seq<Event<S>>, mid: State<S>, second: seq<Event<S>>, end: State<S>)
    requires Follows(Start(s), first, mid) && Follows(mid, second, end)
    ensures |mid.writers| <= 1
    ensures mid.diskVersion < |mid.history| && mid.disk == mid.history[mid.diskVersion]
    ensures forall i :: 0 <= i < |mid.resolved| ==> mid.resolved[i] <= mid.diskVersion
    ensures mid.diskVersion <= end.diskVersion < |end.history| && end.disk == end.history[end.diskVersion]
    ensures mid.history <= end.history
  {
    RunInv(Start(s), first, mid);
    RunInv(mid, second, end);
  }

  /** Nothing is lost: whenever no flush runs and the last one to end did not fail, the disk equals
      the cache and nobody waits; without I/O errors none ever fails. */
  lemma IdleMeansSaved<S>(s: S, events: seq<Event<S>>, end: State<S>)
    requires Follows(Start(s), events, end)
    ensures !end.flushing && !end.lastFailed ==> end.disk == end.cache && end.waiting == []
    ensures NoFailure(events) ==> !end.lastFailed
  {
    RunInv(Start(s), events, end);
  }

  // ----- a flush comes to an end ----------------------------------------------------------------

  /** Steps that a flush still takes if nobody mutates. */
  function Rank<S>(st: State<S>): nat {
    if st.writers == [] then 0
    else
      (if st.pending then 4 else 0) +
      (match st.writers[0]
       case AwaitMkdir => 4
       case AwaitWrite(_, _) => 3
       case AwaitRename(_, _) => 2
       case Renamed(_, _) => 1)
  }

  function Advances<S>(n: nat): seq<Event<S>> {
    seq(n, _ => Advance(0, true))
  }

  /** From any reachable state, `Rank` successful operations later every pending caller has been
      resolved and the disk equals the cache. */
  lemma {:induction false} FlushEnds<S>(st: State<S>) returns (end: State<S>)
    requires Inv(st) && st.flushing
    ensures Rank(st) <= 8
    ensures Follows(st, Advances(Rank(st)), end)
    ensures !end.flushing && end.cache == st.cache && end.disk == st.cache
    ensures end.resolved == st.resolved + st.waiting
    decreases Rank(st)
  {
    var e: Event<S> := Advance(0, true);
    var st' := Next(st, e);
    NextInv(st, e);
    var events: seq<Event<S>> := Advances(Rank(st));
    assert events[0] == e && events[1..] == Advances(Rank(st'));
    if st'.flushing {
      end := FlushEnds(st');
    } else {
      end := st';
    }
  }

  // ----- the module state -------------------------------------------------------------------------

  /** The store object; `disk` is the file, and one method runs per synchronous stretch. */
  class QuotaFile<S> {
    var cache: S
    var flushing: bool
    var pending: bool
    var writers: seq<Writer<S>>
    var disk: S
    // Bookkeeping that the source does not keep: it numbers the cache values and the callers.
    var diskVersion: nat
    var lastFailed: bool
    var history: seq<S>
    var waiting: seq<nat>
    var resolved: seq<nat>

    function Abs(): State<S>
      reads this
    {
      State(cache, flushing, pending, writers, disk, diskVersion, lastFailed, history, waiting, resolved)
    }

    constructor (s: S)
      ensures Abs() == Start(s)
    {
      cache, disk, flushing, pending, writers := s, s, false, false, [];
      diskVersion, lastFailed, history, waiting, resolved := 0, false, [s], [], [];
    }

    /** Changes the cache and calls `flush`: joins the running body or starts one. */
    method Mutate(value: S)
      modifies this
      ensures Abs() == Next(old(Abs()), Event.Mutate(value))
    {
      cache := value;
      waiting := waiting + [|history|];
      history := history + [value];
      if flushing {
        pending := true;
        return;
      }
      flushing := true;
      pending := false;
      writers := writers + [AwaitMkdir];
    }

    /** The operation that writer `w` awaits ends. */
    method Advance(w: nat, ok: bool)
      requires Enabled(Abs(), Event.Advance(w, ok))
      modifies this
      ensures Abs() == Next(old(Abs()), Event.Advance(w, ok))
    {
      if !ok && !writers[w].Renamed? {
        Finish(w);
        lastFailed, waiting := true, [];
        return;
      }
      match writers[w] {
        case AwaitMkdir =>
          writers := writers[w := AwaitWrite(cache, |history| - 1)];
        case AwaitWrite(s, v) =>
          writers := writers[w := AwaitRename(s, v)];
        case AwaitRename(s, v) =>
          disk := s;
          diskVersion := v;
          writers := writers[w := Renamed(s, v)];
        case Renamed(_, _) =>
          if pending {
            pending := false;
            writers := writers[w := AwaitMkdir];
          } else {
            Finish(w);
            lastFailed, resolved, waiting := false, resolved + waiting, [];
          }
      }
    }

    method Finish(w: nat)
      requires w < |writers|
      modifies `flushing, `writers
      ensures !flushing && writers == Without(old(writers), w)
    {
      flushing := false;
      writers := writers[..w] + writers[w + 1..];
    }
  }
}
