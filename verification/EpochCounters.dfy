/** Counters that start over with every new epoch, against the log of everything admitted. */
module EpochCounters {

  datatype Counter = Counter(epoch: int, count: nat)

  type Counters = map<string, Counter>

  /** An admitted call: its key, the epoch it fell into, and when it happened. */
  datatype Admit = Admit(key: string, epoch: int, at: int)

  /** The stored count of a key, if it belongs to this epoch. */
  function Current(cs: Counters, key: string, epoch: int): nat {
    if key in cs && cs[key].epoch == epoch then cs[key].count else 0
  }

  function Bump(cs: Counters, key: string, epoch: int): Counters {
    cs[key := Counter(epoch, Current(cs, key, epoch) + 1)]
  }

  /** How many calls of the key were admitted in the epoch. */
  function Count(log: seq<Admit>, key: string, epoch: int): nat {
    if log == [] then 0
    else
      var a := log[|log| - 1];
      (if a.key == key && a.epoch == epoch then 1 else 0) + Count(log[..|log| - 1], key, epoch)
  }

  /** Each counter holds the count of the newest epoch of its key; no call is from the future. */
  ghost predicate Inv(cs: Counters, log: seq<Admit>, now: int) {
    && (forall i :: 0 <= i < |log| ==>
          log[i].key in cs && log[i].epoch <= cs[log[i].key].epoch)
    && (forall k :: k in cs ==> cs[k].epoch <= now && cs[k].count == Count(log, k, cs[k].epoch))
  }

  lemma {:induction false} CountNone(log: seq<Admit>, key: string, epoch: int)
    requires forall i :: 0 <= i < |log| ==> log[i].key == key ==> log[i].epoch < epoch
    ensures Count(log, key, epoch) == 0
  {
    if log != [] {
      CountNone(log[..|log| - 1], key, epoch);
    }
  }

  /** In the current or a later epoch the stored count is the number of calls admitted in it. */
  lemma CurrentIsCount(cs: Counters, log: seq<Admit>, now: int, key: string, epoch: int)
    requires Inv(cs, log, now) && now <= epoch
    ensures Current(cs, key, epoch) == Count(log, key, epoch)
  {
    if key !in cs || cs[key].epoch != epoch {
      CountNone(log, key, epoch);
    }
  }

  lemma {:induction false} CountSnoc(log: seq<Admit>, a: Admit, key: string, epoch: int)
    ensures Count(log + [a], key, epoch) ==
            Count(log, key, epoch) + (if a.key == key && a.epoch == epoch then 1 else 0)
  {
    assert (log + [a])[..|log|] == log;
  }

  lemma BumpKeeps(cs: Counters, log: seq<Admit>, now: int, a: Admit)
    requires Inv(cs, log, now) && now <= a.epoch
    ensures Inv(Bump(cs, a.key, a.epoch), log + [a], a.epoch)
  {
    var cs' := Bump(cs, a.key, a.epoch);
    CurrentIsCount(cs, log, now, a.key, a.epoch);
    forall k | k in cs' ensures cs'[k].epoch <= a.epoch && cs'[k].count == Count(log + [a], k, cs'[k].epoch) {
      CountSnoc(log, a, k, cs'[k].epoch);
    }
  }
}
