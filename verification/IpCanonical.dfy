/** Canonical allowlists: `canonicalizeCidrList` (web/lib/ipMatch.ts). */
module IpCanonical {
  import opened Prelude
  import opened Distinct
  import opened Text
  import opened IpParse
  import opened IpPrint
  import opened IpRoundTrip
  import opened IpNetwork

  const MAX_CIDR_ENTRIES := 64

  /** The three structured errors, with the entry at which the loop stops. */
  datatype ListError = BadType(index: nat) | BadCidr(index: nat) | TooMany(index: nat)

  /** An entry is `None` when it is not a string. */
  type Entries = seq<Option<string>>

  predicate Acceptable(e: Option<string>) {
    e.Some? && (Trim(e.value) == "" || CidrOfText(e.value).Some?)
  }

  /** The text under which an entry is stored; blank and unreadable entries have none. */
  ghost function FormOf(e: Option<string>): Option<string> {
    if e.Some? && CidrOfText(e.value).Some? then Some(CidrText(CidrOfText(e.value).value)) else None
  }

  /** The canonical texts of the nonblank entries, in order. */
  ghost function Forms(entries: Entries): seq<string> {
    if entries == [] then []
    else
      var init, e := Forms(entries[..|entries| - 1]), entries[|entries| - 1];
      if FormOf(e).Some? then init + [FormOf(e).value] else init
  }

  ghost predicate AllAcceptable(entries: Entries) {
    forall i :: 0 <= i < |entries| ==> Acceptable(entries[i])
  }

  /** The accepted lists and what they canonicalize to. */
  ghost function Canonical(entries: Entries): Option<seq<string>> {
    var out := FirstOccurrences(Forms(entries));
    if AllAcceptable(entries) && |out| <= 64 then Some(out) else None
  }

  /** Entry `i` is the first one at which the list cannot go on, for the stated reason. */
  ghost predicate StopsAt(entries: Entries, e: ListError) {
    && e.index < |entries|
    && AllAcceptable(entries[..e.index])
    && |FirstOccurrences(Forms(entries[..e.index]))| <= 64
    && match e {
         case BadType(i) => entries[i].None?
         case BadCidr(i) => entries[i].Some? && !Acceptable(entries[i])
         case TooMany(i) =>
           Acceptable(entries[i]) && |FirstOccurrences(Forms(entries[..i + 1]))| > 64
       }
  }

  lemma FormsStep(entries: Entries, i: nat)
    requires i < |entries|
    ensures Forms(entries[..i + 1]) ==
            if FormOf(entries[i]).Some? then Forms(entries[..i]) + [FormOf(entries[i]).value] else Forms(entries[..i])
  {
    assert entries[..i + 1][..i] == entries[..i];
  }

  method ReadEntry(s: string) returns (ok: bool, canon: Option<string>)
    ensures ok == Acceptable(Some(s))
    ensures canon == FormOf(Some(s))
  {
    var trimmed := Trim(s);
    if trimmed == "" {
      return true, None;
    }
    var parsed := ParseCidr(trimmed);
    if parsed.None? {
      return false, None;
    }
    var text := CidrToString(parsed.value);
    ok, canon := true, Some(text);
  }

  predicate SameElements(seen: set<string>, out: seq<string>) {
    seen == set x | x in out
  }

  method PushUnseen(seen: set<string>, out: seq<string>, canon: string)
    returns (seen': set<string>, out': seq<string>)
    requires SameElements(seen, out)
    ensures SameElements(seen', out')
    ensures out' == if canon in out then out else out + [canon]
  {
    seen', out' := seen, out;
    if canon !in seen {
      seen' := seen + {canon};
      out' := out + [canon];
    }
  }

  /** The loop has accepted the first `i` entries and collected `out`. */
  ghost predicate Progress(entries: Entries, i: nat, out: seq<string>) {
    && i <= |entries|
    && AllAcceptable(entries[..i])
    && out == FirstOccurrences(Forms(entries[..i]))
    && |out| <= 64
  }

  lemma ProgressDone(entries: Entries, out: seq<string>)
    requires Progress(entries, |entries|, out)
    ensures Canonical(entries) == Some(out)
  {
    assert entries[..|entries|] == entries;
  }

  ghost function Pushed(out: seq<string>, form: Option<string>): seq<string> {
    if form.None? || form.value in out then out else out + [form.value]
  }

  lemma ProgressStep(entries: Entries, i: nat, out: seq<string>)
    requires Progress(entries, i, out) && i < |entries| && Acceptable(entries[i])
    ensures FirstOccurrences(Forms(entries[..i + 1])) == Pushed(out, FormOf(entries[i]))
    ensures AllAcceptable(entries[..i + 1])
  {
    hide Acceptable, FormOf, Forms, FirstOccurrences;
    FormsStep(entries, i);
    if FormOf(entries[i]).Some? {
      OccurrencesStep(Forms(entries[..i]), FormOf(entries[i]).value);
    }
  }

  lemma {:induction false} ProgressNext(entries: Entries, i: nat, out: seq<string>)
    requires Progress(entries, i, out) && i < |entries| && Acceptable(entries[i])
    ensures var next := Pushed(out, FormOf(entries[i]));
            if |next| > 64 then StopsAt(entries, TooMany(i)) else Progress(entries, i + 1, next)
  {
    hide Acceptable, FormOf, Forms, FirstOccurrences;
    ProgressStep(entries, i, out);
  }

  method CanonicalizeCidrList(entries: Entries) returns (r: Result<seq<string>, ListError>)
    ensures r.Ok? ==> Canonical(entries) == Some(r.value)
    ensures r.Err? ==> StopsAt(entries, r.error)
  {
    var seen: set<string> := {};
    var out: seq<string> := [];
    for i := 0 to |entries|
      invariant Progress(entries, i, out)
      invariant SameElements(seen, out)
    {
      if entries[i].None? {
        return Err(BadType(i));
      }
      var ok, canon := ReadEntry(entries[i].value);
      if !ok {
        return Err(BadCidr(i));
      }
      ProgressNext(entries, i, out);
      if canon.Some? {
        seen, out := PushUnseen(seen, out, canon.value);
        if |out| > MAX_CIDR_ENTRIES {
          return Err(TooMany(i));
        }
      }
    }
    ProgressDone(entries, out);
    r := Ok(out);
  }

  lemma {:induction false} FormsAreTexts(entries: Entries, i: nat) returns (c: Cidr)
    requires i < |Forms(entries)|
    ensures Valid(c) && Forms(entries)[i] == CidrText(c)
  {
    var init, e := entries[..|entries| - 1], entries[|entries| - 1];
    if i < |Forms(init)| {
      c := FormsAreTexts(init, i);
    } else {
      c := CidrOfText(e.value).value;
      ParsedIsValid(e.value);
    }
  }

  function AsEntries(out: seq<string>): Entries {
    seq(|out|, i requires 0 <= i < |out| => Some(out[i]))
  }

  lemma {:induction false} FormsOfCanonical(out: seq<string>, n: nat)
    requires n <= |out|
    requires forall i :: 0 <= i < |out| ==> CidrOfText(out[i]).Some? && CidrText(CidrOfText(out[i]).value) == out[i]
    ensures Forms(AsEntries(out)[..n]) == out[..n]
  {
    hide CidrOfText, CidrText;
    if n > 0 {
      FormsOfCanonical(out, n - 1);
      FormsStep(AsEntries(out), n - 1);
    }
  }

  lemma CanonicalTextsParse(entries: Entries, out: seq<string>, i: nat)
    requires Canonical(entries) == Some(out) && i < |out|
    ensures CidrOfText(out[i]).Some? && Valid(CidrOfText(out[i]).value)
    ensures CidrText(CidrOfText(out[i]).value) == out[i]
  {
    var forms := Forms(entries);
    var k :| 0 <= k < |forms| && forms[k] == out[i];
    var c := FormsAreTexts(entries, k);
    CidrRoundTrip(c);
  }

  /** Canonicalizing a canonical list changes nothing. */
  lemma CanonicalIdempotent(entries: Entries, out: seq<string>)
    requires Canonical(entries) == Some(out)
    ensures Canonical(AsEntries(out)) == Some(out)
  {
    forall i | 0 <= i < |out|
      ensures CidrOfText(out[i]).Some? && CidrText(CidrOfText(out[i]).value) == out[i]
      ensures Acceptable(AsEntries(out)[i])
    {
      CanonicalTextsParse(entries, out, i);
    }
    assert Forms(AsEntries(out)) == out by {
      FormsOfCanonical(out, |out|);
      assert AsEntries(out)[..|out|] == AsEntries(out) && out[..|out|] == out;
    }
    DistinctUnchanged(out);
  }

  /** No two stored entries denote the same set of addresses. */
  lemma CanonicalNetworksDiffer(entries: Entries, out: seq<string>, i: nat, j: nat)
    requires Canonical(entries) == Some(out) && i < j < |out|
    ensures CidrOfText(out[i]).Some? && CidrOfText(out[j]).Some?
    ensures Valid(CidrOfText(out[i]).value) && Valid(CidrOfText(out[j]).value)
    ensures var c, d := CidrOfText(out[i]).value, CidrOfText(out[j]).value;
            c.family == d.family ==> !(forall v :: Member(c, v) <==> Member(d, v))
  {
    CanonicalTextsParse(entries, out, i);
    CanonicalTextsParse(entries, out, j);
    var c, d := CidrOfText(out[i]).value, CidrOfText(out[j]).value;
    if c.family == d.family && forall v :: Member(c, v) <==> Member(d, v) {
      NetworkDetermined(c, d);
    }
  }

  /** Two spellings of one network are stored as one entry: the list denotes what was submitted. */
  lemma {:induction false} CanonicalKeepsNetworks(entries: Entries, out: seq<string>, e: nat)
    requires Canonical(entries) == Some(out)
    requires e < |entries| && Trim(entries[e].value) != ""
    ensures exists i :: 0 <= i < |out| && CidrOfText(out[i]) == CidrOfText(entries[e].value)
  {
    var text := entries[e].value;
    assert Acceptable(entries[e]);
    var c := CidrOfText(text).value;
    ParsedIsValid(text);
    FormOfEntry(entries, |entries|, e);
    assert entries[..|entries|] == entries;
    FirstOccurrencesCover(Forms(entries), CidrText(c));
    CidrRoundTrip(c);
    var i :| 0 <= i < |out| && out[i] == CidrText(c);
  }

  lemma {:induction false} FormOfEntry(entries: Entries, n: nat, e: nat)
    requires e < n <= |entries| && entries[e].Some? && CidrOfText(entries[e].value).Some?
    ensures CidrText(CidrOfText(entries[e].value).value) in Forms(entries[..n])
  {
    hide CidrOfText, CidrText, Forms;
    FormsStep(entries, n - 1);
    if e < n - 1 {
      FormOfEntry(entries, n - 1, e);
    }
  }

  /** The networks that the entries denote. */
  ghost function Networks(entries: Entries): set<Cidr> {
    if entries == [] then {}
    else
      var init, e := Networks(entries[..|entries| - 1]), entries[|entries| - 1];
      if e.Some? && CidrOfText(e.value).Some? then init + {CidrOfText(e.value).value} else init
  }

  lemma {:induction false} OneTextPerNetwork(entries: Entries, c: Cidr)
    ensures |FirstOccurrences(Forms(entries))| == |Networks(entries)|
    ensures Valid(c) ==> (CidrText(c) in FirstOccurrences(Forms(entries)) <==> c in Networks(entries))
  {
    hide CidrOfText, CidrText, Valid;
    if entries != [] {
      var init, e := entries[..|entries| - 1], entries[|entries| - 1];
      assert entries[..|entries|] == entries;
      FormsStep(entries, |entries| - 1);
      OneTextPerNetwork(init, c);
      if e.Some? && CidrOfText(e.value).Some? {
        var d := CidrOfText(e.value).value;
        ParsedIsValid(e.value);
        OneTextPerNetwork(init, d);
        OccurrencesStep(Forms(init), CidrText(d));
        if Valid(c) && CidrText(c) == CidrText(d) {
          PrintingIsInjective(c, d);
        }
      }
    }
  }

  /** Exactly the lists of strings that are blank or readable and denote at most 64 networks are
      accepted, and what is stored denotes these networks. */
  lemma AcceptedIff(entries: Entries)
    ensures Canonical(entries).Some? <==>
              && (forall i :: 0 <= i < |entries| ==>
                    entries[i].Some? && (Trim(entries[i].value) == "" || CidrOfText(entries[i].value).Some?))
              && |Networks(entries)| <= 64
  {
    hide CidrOfText, Trim;
    OneTextPerNetwork(entries, Cidr(V4, 0, 0));
  }

  lemma StoredNetworks(entries: Entries, out: seq<string>, c: Cidr)
    requires Canonical(entries) == Some(out) && Valid(c)
    ensures (exists i :: 0 <= i < |out| && CidrOfText(out[i]) == Some(c)) <==> c in Networks(entries)
    ensures |out| == |Networks(entries)|
  {
    hide CidrOfText, CidrText, Valid, Networks, Forms, FirstOccurrences, AllAcceptable;
    OneTextPerNetwork(entries, c);
    CidrRoundTrip(c);
    forall i | 0 <= i < |out| && CidrOfText(out[i]) == Some(c) ensures out[i] == CidrText(c) {
      CanonicalTextsParse(entries, out, i);
    }
  }
}
