/** Dropping repetitions, as a JavaScript `Set` filled in order does. */
module Distinct {
  /** Keeps the first of equal elements. */
  function FirstOccurrences<T(==)>(s: seq<T>): (r: seq<T>)
    ensures forall i :: 0 <= i < |r| ==> r[i] in s
    ensures forall i, j :: 0 <= i < j < |r| ==> r[i] != r[j]
  {
    if s == [] then []
    else
      var init, x := FirstOccurrences(s[..|s| - 1]), s[|s| - 1];
      if x in init then init else init + [x]
  }

  lemma {:induction false} FirstOccurrencesCover<T>(s: seq<T>, x: T)
    requires x in s
    ensures x in FirstOccurrences(s)
  {
    if x in s[..|s| - 1] {
      FirstOccurrencesCover(s[..|s| - 1], x);
    }
  }

  /** Nothing is reordered: kept elements stand in the order in which they first occur. */
  lemma {:induction false} FirstOccurrencesOrder<T>(s: seq<T>, i: nat, j: nat) returns (p: nat, q: nat)
    requires i < j < |FirstOccurrences(s)|
    ensures p < q < |s|
    ensures s[p] == FirstOccurrences(s)[i] && s[p] !in s[..p]
    ensures s[q] == FirstOccurrences(s)[j] && s[q] !in s[..q]
  {
    var init, x := s[..|s| - 1], s[|s| - 1];
    if j < |FirstOccurrences(init)| {
      p, q := FirstOccurrencesOrder(init, i, j);
      assert init[..p] == s[..p] && init[..q] == s[..q];
    } else {
      q := |s| - 1;
      p := FirstPosition(init, FirstOccurrences(init)[i]);
      assert init[..p] == s[..p];
      if x in init {
        FirstOccurrencesCover(init, x);
      }
    }
  }

  lemma {:induction false} FirstPosition<T>(s: seq<T>, x: T) returns (p: nat)
    requires x in s
    ensures p < |s| && s[p] == x && x !in s[..p]
  {
    if x in s[..|s| - 1] {
      p := FirstPosition(s[..|s| - 1], x);
      assert s[..|s| - 1][..p] == s[..p];
    } else {
      p := |s| - 1;
    }
  }

  lemma {:induction false} DistinctUnchanged<T>(s: seq<T>)
    requires forall i, j :: 0 <= i < j < |s| ==> s[i] != s[j]
    ensures FirstOccurrences(s) == s
  {
    if s != [] {
      var init := s[..|s| - 1];
      DistinctUnchanged(init);
      assert s == init + [s[|s| - 1]];
    }
  }

  lemma {:induction false} OccurrencesStep<T>(s: seq<T>, x: T)
    ensures FirstOccurrences(s + [x]) ==
            if x in FirstOccurrences(s) then FirstOccurrences(s) else FirstOccurrences(s) + [x]
  {
    assert (s + [x])[..|s|] == s;
  }
}
