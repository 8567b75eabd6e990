/** Which texts the IPv6 parser accepts, and what they mean, without its splitting and scanning
    (web/lib/ipMatch.ts). */
module IpLanguage {
  import opened Prelude
  import opened Text
  import opened Numerals
  import opened IpParse
  import opened IpPrint
  import opened IpRoundTrip

  /** The groups from `i` to `j` are left out and the two halves joined by "::". */
  ghost predicate Elides(text: string, groups: seq<string>, i: int, j: int) {
    && 0 <= i <= j <= |groups|
    && groups[i..j] == ZeroGroups(j - i)
    && text == Join(groups[..i], ':') + "::" + Join(groups[j..], ':')
  }

  /** Eight hexadecimal groups with colons between them, or with one "::" in place of some zero
      groups; also in place of none. */
  ghost predicate Spells(text: string, groups: seq<string>) {
    && |groups| == 8 && HexGroups(groups)
    && (text == Join(groups, ':') || exists i, j :: Elides(text, groups, i, j))
  }

  /** From `n` on, after a colon, the text is a dotted quad in place of the last two groups. */
  ghost predicate SpellsDotted(text: string, groups: seq<string>, n: int) {
    && 0 < n <= |text| && text[n - 1] == ':'
    && V4Value(text[n..]).Some?
    && Spells(text[..n] + TailGroups(V4Value(text[n..]).value), groups)
  }

  ghost predicate Denotes(text: string, groups: seq<string>) {
    Spells(text, groups) || exists n :: SpellsDotted(text, groups, n)
  }

  function GroupsNumber(groups: seq<string>): nat {
    if forall g :: g in groups ==> IsHexGroup(g) then FoldParts(groups, 16, 65536) else 0
  }

  // ----- without a dotted tail -----------------------------------------------------------------

  lemma JoinSplitHalf(s: string)
    ensures Join(SplitHalf(s), ':') == s
  {
    JoinSplit(s, ':');
  }

  lemma ElidedGroups(text: string, groups: seq<string>, i: int, j: int)
    requires |groups| == 8 && HexGroups(groups) && Elides(text, groups, i, j)
    ensures Groups(text) == Some(groups)
  {
    hide Join, Groups;
    var head, tail := groups[..i], groups[j..];
    GroupsOfHalves(head, tail);
    assert groups == head + groups[i..j] + tail;
  }

  lemma SpelledGroups(text: string, groups: seq<string>)
    requires Spells(text, groups)
    ensures Groups(text) == Some(groups)
  {
    hide Groups, Elides, Join;
    if text == Join(groups, ':') {
      GroupsOfCompressed(groups, 0, 0);
      PlainCompress(groups);
    } else {
      var i, j :| Elides(text, groups, i, j);
      ElidedGroups(text, groups, i, j);
    }
  }

  lemma PlainCompress(groups: seq<string>)
    ensures Compress(groups, 0, 0) == Join(groups, ':')
  {
  }

  lemma DoubleSplits(text: string, k: int)
    requires FirstDouble(text) == k >= 0
    ensures k + 2 <= |text| && text == text[..k] + "::" + text[k + 2..]
  {
    FirstDoubleSpec(text);
    assert text[k..k + 2] == "::";
    assert text == text[..k] + text[k..k + 2] + text[k + 2..];
  }

  lemma GroupsOfDouble(text: string, k: int)
    requires Groups(text).Some? && FirstDouble(text) == k >= 0
    ensures k + 2 <= |text|
    ensures var head, tail := SplitHalf(text[..k]), SplitHalf(text[k + 2..]);
            |head| + |tail| <= 8 && Groups(text).value == head + ZeroGroups(8 - |head| - |tail|) + tail
  {
    hide SplitHalf, FirstDouble;
  }

  lemma MiddleIsElided(head: seq<string>, n: nat, tail: seq<string>)
    ensures var groups := head + ZeroGroups(n) + tail;
            Elides(Join(head, ':') + "::" + Join(tail, ':'), groups, |head|, |head| + n)
  {
    hide Join;
    var groups := head + ZeroGroups(n) + tail;
    assert groups[..|head|] == head && groups[|head| + n..] == tail;
    assert groups[|head|..|head| + n] == ZeroGroups(n);
  }

  lemma GroupsAroundElide(text: string, k: int)
    requires Groups(text).Some? && FirstDouble(text) == k >= 0
    ensures exists i, j :: Elides(text, Groups(text).value, i, j)
  {
    GroupsOfDouble(text, k);
    DoubleSplits(text, k);
    hide Join, SplitHalf, FirstDouble, Groups, Elides;
    var head, tail := SplitHalf(text[..k]), SplitHalf(text[k + 2..]);
    JoinSplitHalf(text[..k]);
    JoinSplitHalf(text[k + 2..]);
    MiddleIsElided(head, 8 - |head| - |tail|, tail);
  }

  lemma GroupsSpelled(text: string)
    requires Groups(text).Some? && HexGroups(Groups(text).value)
    ensures Spells(text, Groups(text).value)
  {
    var k := FirstDouble(text);
    if k >= 0 {
      hide Groups, HexGroups, Elides, FirstDouble;
      GroupsAroundElide(text, k);
    } else {
      JoinSplit(text, ':');
    }
  }

  // ----- with a dotted tail --------------------------------------------------------------------

  lemma SpelledChars(text: string, groups: seq<string>)
    requires Spells(text, groups)
    ensures forall c :: c in text ==> DigitValue(c) < 16 || c == ':'
    ensures ':' in text && '.' !in text
  {
    hide IsHexGroup, HexGroups, DigitValue;
    if text == Join(groups, ':') {
      HexJoinChars(groups);
      assert Join(groups, ':') == groups[0] + [':'] + Join(groups[1..], ':');
    } else {
      var i, j :| Elides(text, groups, i, j);
      HexParts(groups, i, j);
      HexJoinChars(groups[..i]);
      HexJoinChars(groups[j..]);
    }
    NoDigits();
  }

  lemma NoDigits()
    ensures DigitValue('.') == 99 && DigitValue(':') == 99
  {
  }

  lemma HexParts(groups: seq<string>, i: int, j: int)
    requires HexGroups(groups) && 0 <= i <= j <= |groups|
    ensures HexGroups(groups[..i]) && HexGroups(groups[j..])
  {
  }

  lemma HexJoinChars(parts: seq<string>)
    requires HexGroups(parts)
    ensures forall c :: c in Join(parts, ':') ==> DigitValue(c) < 16 || c == ':'
  {
    forall c | c in Join(parts, ':') ensures DigitValue(c) < 16 || c == ':' {
      JoinedChars(parts, c);
    }
  }

  lemma DecimalJoinChars(s: string)
    requires forall p :: p in Split(s, '.') ==> IsNumeral(p, 10)
    ensures forall c :: c in s ==> DigitValue(c) < 10 || c == '.'
  {
    JoinSplit(s, '.');
    var parts := Split(s, '.');
    forall c | c in s ensures DigitValue(c) < 10 || c == '.' {
      JoinChars(parts, '.', c);
      if c != '.' {
        var i :| 0 <= i < |parts| && c in parts[i];
        assert parts[i] in parts;
      }
    }
  }

  lemma QuadHasDot(s: string)
    requires |Split(s, '.')| > 1
    ensures '.' in s
  {
    JoinSplit(s, '.');
    var parts := Split(s, '.');
    assert Join(parts, '.') == parts[0] + ['.'] + Join(parts[1..], '.');
  }

  lemma QuadChars(s: string)
    requires V4Value(s).Some?
    ensures forall c :: c in s ==> DigitValue(c) < 10 || c == '.'
    ensures ':' !in s && '.' in s
  {
    QuadHasDot(s);
    DecimalJoinChars(s);
    NoDigits();
  }

  lemma LastColon(text: string, n: int)
    requires 0 < n <= |text| && text[n - 1] == ':' && ':' !in text[n..]
    ensures LastIndexOf(text, ':') == n - 1
  {
    var k := LastIndexOf(text, ':');
    forall i | k < i < |text| ensures text[i] != ':' {
      assert text[i] == text[k + 1..][i - k - 1];
    }
    forall i | n <= i < |text| ensures text[i] != ':' {
      assert text[i] == text[n..][i - n];
    }
  }

  lemma DottedExpands(text: string, n: int)
    requires 0 < n <= |text| && text[n - 1] == ':' && V4Value(text[n..]).Some?
    ensures ':' in text
    ensures ExpandTail(text) == Some(text[..n] + TailGroups(V4Value(text[n..]).value))
  {
    hide V4Value, TailGroups;
    QuadChars(text[n..]);
    LastColon(text, n);
  }

  lemma UndottedExpands(text: string)
    requires ':' in text && '.' !in text
    ensures ExpandTail(text) == Some(text)
  {
    hide V4Value, TailGroups;
  }

  lemma ValueFromGroups(text: string, work: string, groups: seq<string>)
    requires ':' in text && ExpandTail(text) == Some(work)
    requires Groups(work) == Some(groups) && HexGroups(groups)
    ensures V6Value(text) == Some(GroupsNumber(groups))
  {
    hide Groups, ExpandTail, IsHexGroup, FoldParts;
  }

  /** Completeness: whatever denotes eight groups is accepted, with the number they write. */
  lemma DenotesIsAccepted(text: string, groups: seq<string>)
    requires Denotes(text, groups)
    ensures V6Value(text) == Some(GroupsNumber(groups))
  {
    hide Spells, Groups, HexGroups, V4Value, TailGroups, V6Value, GroupsNumber, ExpandTail;
    if Spells(text, groups) {
      SpelledChars(text, groups);
      UndottedExpands(text);
      SpelledGroups(text, groups);
      SpelledHex(text, groups);
      ValueFromGroups(text, text, groups);
    } else {
      var n :| SpellsDotted(text, groups, n);
      var work := text[..n] + TailGroups(V4Value(text[n..]).value);
      DottedExpands(text, n);
      SpelledGroups(work, groups);
      SpelledHex(work, groups);
      ValueFromGroups(text, work, groups);
    }
  }

  lemma DottedIsAccepted(text: string, groups: seq<string>, n: int)
    requires SpellsDotted(text, groups, n)
    ensures V6Value(text) == Some(GroupsNumber(groups))
  {
    hide SpellsDotted, Spells, V6Value, GroupsNumber;
    DenotesIsAccepted(text, groups);
  }

  lemma SpelledHex(text: string, groups: seq<string>)
    requires Spells(text, groups)
    ensures HexGroups(groups)
  {
  }

  lemma AcceptedGroups(text: string)
    requires V6Value(text).Some?
    ensures ':' in text && ExpandTail(text).Some?
    ensures Groups(ExpandTail(text).value).Some? && HexGroups(Groups(ExpandTail(text).value).value)
  {
    hide Groups, ExpandTail, IsHexGroup, FoldParts;
  }

  lemma ExpandedTail(text: string)
    requires ':' in text && ExpandTail(text).Some?
    ensures var n := LastIndexOf(text, ':') + 1;
            && 0 < n <= |text| && text[n - 1] == ':'
            && (ExpandTail(text) == Some(text)
                || (V4Value(text[n..]).Some?
                    && ExpandTail(text).value == text[..n] + TailGroups(V4Value(text[n..]).value)))
  {
    hide V4Value, TailGroups, LastIndexOf;
  }

  lemma TailIsDotted(text: string, groups: seq<string>)
    requires ':' in text && ExpandTail(text).Some? && ExpandTail(text).value != text
    requires Spells(ExpandTail(text).value, groups)
    ensures SpellsDotted(text, groups, LastIndexOf(text, ':') + 1)
  {
    hide Spells, V4Value, TailGroups, ExpandTail, LastIndexOf;
    ExpandedTail(text);
  }

  /** Soundness: every accepted text denotes eight groups. */
  lemma AcceptedDenotes(text: string)
    requires V6Value(text).Some?
    ensures exists groups :: Denotes(text, groups)
  {
    hide Spells, SpellsDotted, Groups, HexGroups, V6Value, ExpandTail, LastIndexOf;
    AcceptedGroups(text);
    var work := ExpandTail(text).value;
    GroupsSpelled(work);
    var groups := Groups(work).value;
    if work != text {
      TailIsDotted(text, groups);
    }
    assert Denotes(text, groups);
  }

  /** The accepted language and its meaning: a text is read as `v` if and only if it denotes eight
      groups that write `v`. */
  lemma AcceptedLanguage(text: string, v: nat)
    ensures V6Value(text) == Some(v) <==> exists groups :: Denotes(text, groups) && GroupsNumber(groups) == v
  {
    hide Denotes, V6Value, GroupsNumber;
    if V6Value(text).Some? {
      AcceptedDenotes(text);
      var groups :| Denotes(text, groups);
      DenotesIsAccepted(text, groups);
    }
    forall groups | Denotes(text, groups) ensures V6Value(text) == Some(GroupsNumber(groups)) {
      DenotesIsAccepted(text, groups);
    }
  }

  /** Unlike section 2.2 of RFC 4291, "::" may stand for no group at all, as in "1:2:3:4:5:6:7::8":
      the text is read as if the colon were single. */
  lemma EmptyElision(groups: seq<string>, i: nat)
    requires |groups| == 8 && HexGroups(groups) && i <= 8
    ensures V6Value(Join(groups[..i], ':') + "::" + Join(groups[i..], ':')) == Some(GroupsNumber(groups))
    ensures V6Value(Join(groups, ':')) == Some(GroupsNumber(groups))
  {
    hide Join, V6Value, GroupsNumber, HexGroups;
    var text := Join(groups[..i], ':') + "::" + Join(groups[i..], ':');
    assert groups[i..i] == ZeroGroups(0);
    assert Elides(text, groups, i, i);
    assert Spells(text, groups);
    DenotesIsAccepted(text, groups);
    assert Spells(Join(groups, ':'), groups);
    DenotesIsAccepted(Join(groups, ':'), groups);
  }

  lemma DottedTextChars(text: string, groups: seq<string>, n: int)
    requires SpellsDotted(text, groups, n)
    ensures forall c :: c in text ==> DigitValue(c) < 16 || c == ':' || c == '.'
  {
    hide Spells, DigitValue, V4Value, TailGroups;
    SpelledChars(text[..n] + TailGroups(V4Value(text[n..]).value), groups);
    QuadChars(text[n..]);
    assert text == text[..n] + text[n..];
  }

  /** Every character of an accepted text is a hexadecimal digit, a colon or a dot. */
  lemma AcceptedChars(text: string)
    requires V6Value(text).Some?
    ensures forall c :: c in text ==> DigitValue(c) < 16 || c == ':' || c == '.'
  {
    AcceptedDenotes(text);
    hide Spells, SpellsDotted, DigitValue, V6Value;
    var groups :| Denotes(text, groups);
    if Spells(text, groups) {
      SpelledChars(text, groups);
    } else {
      var n :| SpellsDotted(text, groups, n);
      DottedTextChars(text, groups, n);
    }
  }
}
