/** The digits of an address: which characters they are, what they are worth, and that reading does
    not depend on their case (web/lib/ipMatch.ts). */
module IpCase {
  import opened Prelude
  import opened Text
  import opened Numerals
  import opened IpParse
  import opened IpMatch

  /** The sixteen digits in either case are worth 0 to 15, and nothing else is a digit. */
  lemma DigitsMean(c: char, d: nat)
    requires d < 16
    ensures DigitValue(c) < 16 <==> c in "0123456789abcdefABCDEF"
    ensures DigitValue(c) < 10 <==> c in "0123456789"
    ensures DigitValue("0123456789abcdef"[d]) == d && DigitValue("0123456789ABCDEF"[d]) == d
  {
    KnownDigit(c);
  }

  lemma KnownDigit(c: char)
    ensures DigitValue(c) < 16 <==> c in "0123456789" + "abcdef" + "ABCDEF"
    ensures DigitValue(c) < 10 <==> c in "0123456789"
  {
    if 'a' <= c <= 'f' {
      assert c == "abcdef"[(c as int) - ('a' as int)];
    } else if 'A' <= c <= 'F' {
      assert c == "ABCDEF"[(c as int) - ('A' as int)];
    } else if '0' <= c <= '9' {
      assert c == "0123456789"[(c as int) - ('0' as int)];
    }
  }

  /** A leading digit counts as many times as the digits after it can tell apart. */
  lemma {:induction false} LeadingDigit(c: char, s: string, base: nat)
    requires DigitValue(c) < base && IsNumeral(s, base)
    ensures IsNumeral([c] + s, base)
    ensures Value([c] + s, base) == DigitValue(c) * Power(base, |s|) + Value(s, base)
  {
    hide DigitValue, Power;
    if s == "" {
      PowerStep(base, 0);
      OneMore("", c, base);
    } else {
      var t, d := s[..|s| - 1], s[|s| - 1];
      LeadingDigit(c, t, base);
      assert [c] + s == ([c] + t) + [d];
      OneMore([c] + t, d, base);
      PowerStep(base, |t|);
      Distribute(DigitValue(c), Power(base, |t|), Value(t, base), base);
    }
  }

  lemma PowerStep(base: nat, k: nat)
    ensures Power(base, 0) == 1 && Power(base, k + 1) == base * Power(base, k)
  {
  }

  lemma Distribute(a: nat, p: nat, v: nat, base: nat)
    ensures (a * p + v) * base == a * (base * p) + v * base
  {
  }

  lemma OneMore(s: string, c: char, base: nat)
    requires IsNumeral(s, base) && DigitValue(c) < base
    ensures IsNumeral(s + [c], base)
    ensures Value(s + [c], base) == Value(s, base) * base + DigitValue(c)
  {
    hide DigitValue;
    assert (s + [c])[..|s|] == s;
  }

  // ----- case ----------------------------------------------------------------------------------

  function LowerChar(c: char): char {
    if 'A' <= c <= 'F' then 'a' + (c - 'A') else c
  }

  /** The text with 'A' to 'F' written as 'a' to 'f'. */
  function Lower(s: string): (t: string)
    ensures |t| == |s| && forall i :: 0 <= i < |s| ==> t[i] == LowerChar(s[i])
  {
    seq(|s|, i requires 0 <= i < |s| => LowerChar(s[i]))
  }

  function LowerAll(parts: seq<string>): (r: seq<string>)
    ensures |r| == |parts| && forall i :: 0 <= i < |parts| ==> r[i] == Lower(parts[i])
  {
    seq(|parts|, i requires 0 <= i < |parts| => Lower(parts[i]))
  }

  lemma LowerSlice(s: string, i: int, j: int)
    requires 0 <= i <= j <= |s|
    ensures Lower(s)[i..j] == Lower(s[i..j])
    ensures Lower(s)[..j] == Lower(s[..j])
    ensures Lower(s)[i..] == Lower(s[i..])
  {
  }

  lemma LowerConcat(s: string, t: string)
    ensures Lower(s + t) == Lower(s) + Lower(t)
  {
  }

  lemma DigitOfLower(c: char)
    ensures DigitValue(LowerChar(c)) == DigitValue(c)
  {
  }

  lemma CharInLower(s: string, c: char)
    requires LowerChar(c) == c && !('a' <= c <= 'f')
    ensures c in Lower(s) <==> c in s
  {
    if c in s {
      var i :| 0 <= i < |s| && s[i] == c;
      assert Lower(s)[i] == c;
    }
    if c in Lower(s) {
      var i :| 0 <= i < |s| && Lower(s)[i] == c;
      assert s[i] == c;
    }
  }

  lemma NumeralOfLower(s: string, base: nat)
    ensures IsNumeral(Lower(s), base) <==> IsNumeral(s, base)
  {
    forall c | c in s && IsNumeral(Lower(s), base) ensures DigitValue(c) < base {
      var i :| 0 <= i < |s| && s[i] == c;
      assert Lower(s)[i] in Lower(s);
      DigitOfLower(c);
    }
    forall c | c in Lower(s) && IsNumeral(s, base) ensures DigitValue(c) < base {
      var i :| 0 <= i < |s| && Lower(s)[i] == c;
      assert s[i] in s;
      DigitOfLower(s[i]);
    }
  }

  lemma {:induction false} ValueOfLower(s: string, base: nat)
    requires IsNumeral(s, base)
    ensures IsNumeral(Lower(s), base) && Value(Lower(s), base) == Value(s, base)
  {
    NumeralOfLower(s, base);
    if s != "" {
      var t := s[..|s| - 1];
      ValueOfLower(t, base);
      LowerSlice(s, 0, |s| - 1);
      DigitOfLower(s[|s| - 1]);
    }
  }

  lemma IndexOfLower(s: string, c: char)
    requires LowerChar(c) == c && !('a' <= c <= 'f')
    ensures IndexOf(Lower(s), c) == IndexOf(s, c)
  {
    hide IndexOf, LowerChar;
    CharInLower(s, c);
    var k, l := IndexOf(s, c), IndexOf(Lower(s), c);
    if k != -1 {
      LowerSlice(s, 0, k);
      LowerSlice(s, 0, l);
      CharInLower(s[..k], c);
      FirstIsLeast(Lower(s), c, k, l);
    }
  }

  lemma LastIndexOfLower(s: string, c: char)
    requires LowerChar(c) == c && !('a' <= c <= 'f')
    ensures LastIndexOf(Lower(s), c) == LastIndexOf(s, c)
  {
    hide LastIndexOf, LowerChar;
    CharInLower(s, c);
    var k, l := LastIndexOf(s, c), LastIndexOf(Lower(s), c);
    if k != -1 {
      LowerSlice(s, k + 1, |s|);
      CharInLower(s[k + 1..], c);
      LastIsGreatest(Lower(s), c, k, l);
    }
  }

  lemma FirstIsLeast(s: string, c: char, k: nat, l: nat)
    requires k < |s| && s[k] == c && c !in s[..k]
    requires l < |s| && s[l] == c && c !in s[..l]
    ensures k == l
  {
    NoneBefore(s, c, k);
    NoneBefore(s, c, l);
  }

  lemma NoneBefore(s: string, c: char, k: nat)
    requires k < |s| && c !in s[..k]
    ensures forall i :: 0 <= i < k ==> s[i] != c
  {
    forall i | 0 <= i < k ensures s[i] != c {
      assert s[i] == s[..k][i];
    }
  }

  lemma LastIsGreatest(s: string, c: char, k: nat, l: nat)
    requires k < |s| && s[k] == c && c !in s[k + 1..]
    requires l < |s| && s[l] == c && c !in s[l + 1..]
    ensures k == l
  {
    NoneAfter(s, c, k);
    NoneAfter(s, c, l);
  }

  lemma NoneAfter(s: string, c: char, k: nat)
    requires k < |s| && c !in s[k + 1..]
    ensures forall i :: k < i < |s| ==> s[i] != c
  {
    forall i | k < i < |s| ensures s[i] != c {
      assert s[i] == s[k + 1..][i - k - 1];
    }
  }

  lemma {:induction false} SplitOfLower(s: string, sep: char)
    requires LowerChar(sep) == sep && !('a' <= sep <= 'f')
    ensures Split(Lower(s), sep) == LowerAll(Split(s, sep))
    decreases |s|
  {
    hide IndexOf, LowerChar;
    IndexOfLower(s, sep);
    var k := IndexOf(s, sep);
    if k != -1 {
      LowerSlice(s, k + 1, |s|);
      LowerSlice(s, 0, k);
      SplitOfLower(s[k + 1..], sep);
    }
  }

  lemma {:induction false} FoldOfLower(parts: seq<string>, base: nat, radix: nat)
    requires forall p :: p in parts ==> IsNumeral(p, base)
    ensures forall p :: p in LowerAll(parts) ==> IsNumeral(p, base)
    ensures FoldParts(LowerAll(parts), base, radix) == FoldParts(parts, base, radix)
  {
    forall p | p in LowerAll(parts) ensures IsNumeral(p, base) {
      var i :| 0 <= i < |parts| && LowerAll(parts)[i] == p;
      NumeralOfLower(parts[i], base);
    }
    if parts != [] {
      var init := parts[..|parts| - 1];
      FoldOfLower(init, base, radix);
      assert LowerAll(parts)[..|parts| - 1] == LowerAll(init);
      ValueOfLower(parts[|parts| - 1], base);
    }
  }

  lemma OctetOfLower(p: string)
    ensures IsOctet(Lower(p)) <==> IsOctet(p)
    ensures IsHexGroup(Lower(p)) <==> IsHexGroup(p)
  {
    NumeralOfLower(p, 10);
    NumeralOfLower(p, 16);
    if IsNumeral(p, 10) {
      ValueOfLower(p, 10);
    }
  }

  lemma AllOfLower(parts: seq<string>)
    ensures (forall p :: p in LowerAll(parts) ==> IsOctet(p)) <==> forall p :: p in parts ==> IsOctet(p)
    ensures (forall p :: p in LowerAll(parts) ==> IsHexGroup(p)) <==> forall p :: p in parts ==> IsHexGroup(p)
  {
    hide IsOctet, IsHexGroup;
    forall p | p in LowerAll(parts) ensures exists q :: q in parts && p == Lower(q) {
      var i :| 0 <= i < |parts| && LowerAll(parts)[i] == p;
      assert parts[i] in parts;
    }
    forall p | p in parts ensures Lower(p) in LowerAll(parts) {
      var i :| 0 <= i < |parts| && parts[i] == p;
      assert LowerAll(parts)[i] == Lower(p);
    }
    forall p: string ensures IsOctet(Lower(p)) <==> IsOctet(p) {
      OctetOfLower(p);
    }
    forall p: string ensures IsHexGroup(Lower(p)) <==> IsHexGroup(p) {
      OctetOfLower(p);
    }
  }

  lemma V4OfLower(s: string)
    ensures V4Value(Lower(s)) == V4Value(s)
  {
    SplitOfLower(s, '.');
    var parts := Split(s, '.');
    AllOfLower(parts);
    if forall p :: p in parts ==> IsOctet(p) {
      FoldOfLower(parts, 10, 256);
    }
  }

  lemma {:induction false} DoubleOfLower(s: string, i: nat)
    ensures FirstDoubleFrom(Lower(s), i) == FirstDoubleFrom(s, i)
    decreases |s| - i
  {
    if i + 1 < |s| {
      DoubleOfLower(s, i + 1);
    }
  }

  lemma {:induction false} PrintIsLower(n: nat, base: nat)
    requires 2 <= base <= 16
    ensures Lower(Print(n, base)) == Print(n, base)
    decreases n
  {
    if n >= base {
      DivMod(n, base);
      PrintIsLower(n / base, base);
      LowerConcat(Print(n / base, base), [Digit(n % base)]);
    }
  }

  lemma TailIsLower(v: nat)
    ensures Lower(TailGroups(v)) == TailGroups(v)
  {
    hide Print, Lower;
    var hi, lo := Print(v / 65536 % 65536, 16), Print(v % 65536, 16);
    PrintIsLower(v / 65536 % 65536, 16);
    PrintIsLower(v % 65536, 16);
    LowerConcat(hi, ":");
    LowerConcat(hi + ":", lo);
    assert Lower(":") == ":" by {
      assert LowerChar(':') == ':';
    }
  }

  function LowerText(o: Option<string>): Option<string> {
    if o.None? then None else Some(Lower(o.value))
  }

  lemma ExpandOfLower(s: string)
    requires ':' in s
    ensures ':' in Lower(s) && ExpandTail(Lower(s)) == LowerText(ExpandTail(s))
  {
    hide V4Value, TailGroups, Lower, LastIndexOf;
    CharInLower(s, ':');
    LastIndexOfLower(s, ':');
    var k := LastIndexOf(s, ':');
    var tail := s[k + 1..];
    LowerSlice(s, k + 1, |s|);
    LowerSlice(s, 0, k + 1);
    CharInLower(tail, '.');
    V4OfLower(tail);
    if '.' in tail && V4Value(tail).Some? {
      TailIsLower(V4Value(tail).value);
      LowerConcat(s[..k + 1], TailGroups(V4Value(tail).value));
    }
  }

  function LowerGroups(o: Option<seq<string>>): Option<seq<string>> {
    if o.None? then None else Some(LowerAll(o.value))
  }

  lemma HalfOfLower(s: string)
    ensures SplitHalf(Lower(s)) == LowerAll(SplitHalf(s))
  {
    SplitOfLower(s, ':');
  }

  lemma AroundOfLower(left: string, right: string)
    ensures GroupsAround(Lower(left), Lower(right)) == LowerGroups(GroupsAround(left, right))
  {
    hide SplitHalf, Lower, FirstDoubleFrom;
    HalfOfLower(left);
    HalfOfLower(right);
    DoubleOfLower(right, 0);
    var head, tail := SplitHalf(left), SplitHalf(right);
    if |head| + |tail| <= 8 {
      var zeros := ZeroGroups(8 - |head| - |tail|);
      assert Lower("0") == "0" by {
        assert LowerChar('0') == '0' && |Lower("0")| == 1;
      }
      assert LowerAll(zeros) == zeros;
      assert LowerAll(head + zeros + tail) == LowerAll(head) + zeros + LowerAll(tail);
    }
  }

  lemma GroupsOfLower(s: string)
    ensures Groups(Lower(s)) == LowerGroups(Groups(s))
  {
    hide GroupsAround, Lower, FirstDoubleFrom;
    DoubleOfLower(s, 0);
    var k := FirstDouble(s);
    if k != -1 {
      LowerSlice(s, 0, k);
      LowerSlice(s, k + 2, |s|);
      AroundOfLower(s[..k], s[k + 2..]);
    } else {
      SplitOfLower(s, ':');
    }
  }

  lemma V6OfGroups(groups: seq<string>)
    ensures GroupsValue(LowerAll(groups)) == GroupsValue(groups)
  {
    AllOfLower(groups);
    if forall g :: g in groups ==> IsHexGroup(g) {
      FoldOfLower(groups, 16, 65536);
    }
  }

  /** An address is read alike whatever the case of its digits. */
  lemma V6OfLower(s: string)
    ensures V6Value(Lower(s)) == V6Value(s)
  {
    hide ExpandTail, Groups, GroupsValue, Lower;
    CharInLower(s, ':');
    if ':' in s {
      ExpandOfLower(s);
      if ExpandTail(s).Some? {
        var work := ExpandTail(s).value;
        GroupsOfLower(work);
        if Groups(work).Some? {
          V6OfGroups(Groups(work).value);
        }
      }
    }
  }

  lemma AddressOfLower(f: Family, s: string)
    ensures AddressValue(f, Lower(s)) == AddressValue(f, s)
    ensures FamilyOf(Lower(s)) == FamilyOf(s)
  {
    hide V4Value, V6Value, Lower;
    V4OfLower(s);
    V6OfLower(s);
    CharInLower(s, ':');
  }

  lemma {:induction false} TrimOfLower(s: string)
    ensures Trim(Lower(s)) == Lower(Trim(s))
    decreases |s|
  {
    if s != "" {
      LowerSlice(s, 1, |s|);
      LowerSlice(s, 0, |s| - 1);
      assert IsSpace(LowerChar(s[0])) <==> IsSpace(s[0]);
      assert IsSpace(LowerChar(s[|s| - 1])) <==> IsSpace(s[|s| - 1]);
      if IsSpace(s[0]) {
        TrimOfLower(s[1..]);
      } else if IsSpace(s[|s| - 1]) {
        TrimOfLower(s[..|s| - 1]);
      }
    }
  }

  lemma PrefixOfLower(s: string, max: nat)
    ensures PrefixBits(Lower(s), max) == PrefixBits(s, max)
  {
    NumeralOfLower(s, 10);
    if IsNumeral(s, 10) {
      ValueOfLower(s, 10);
    }
  }

  lemma CidrFromLower(addr: string, bits: Option<string>)
    ensures CidrFrom(Lower(addr), LowerText(bits)) == CidrFrom(addr, bits)
  {
    hide AddressValue, FamilyOf, PrefixBits, Lower, Mask;
    AddressOfLower(FamilyOf(addr), addr);
    if bits.Some? {
      PrefixOfLower(bits.value, MaxBits(FamilyOf(addr)));
    }
  }

  /** An allowlist entry denotes the same network whatever the case of its digits. */
  lemma CidrOfLower(s: string)
    ensures CidrOfText(Lower(s)) == CidrOfText(s)
  {
    hide CidrFrom, Trim, Lower, IndexOf;
    TrimOfLower(s);
    var raw := Trim(s);
    assert |Lower(raw)| == |raw|;
    IndexOfLower(raw, '/');
    var k := IndexOf(raw, '/');
    if k == -1 {
      CidrFromLower(raw, None);
    } else {
      LowerSlice(raw, 0, k);
      LowerSlice(raw, k + 1, |raw|);
      CidrFromLower(raw[..k], Some(raw[k + 1..]));
    }
  }

  // ----- callers -------------------------------------------------------------------------------

  lemma DottedPart(p: string)
    ensures 1 <= |Lower(p)| <= 3 && IsNumeral(Lower(p), 10) <==> 1 <= |p| <= 3 && IsNumeral(p, 10)
  {
    NumeralOfLower(p, 10);
  }

  lemma DottedOfLower(s: string)
    ensures IsDotted(Lower(s)) <==> IsDotted(s)
  {
    hide IsNumeral;
    SplitOfLower(s, '.');
    var parts := Split(s, '.');
    forall p | p in parts && IsDotted(Lower(s)) ensures 1 <= |p| <= 3 && IsNumeral(p, 10) {
      var i :| 0 <= i < |parts| && parts[i] == p;
      assert LowerAll(parts)[i] in LowerAll(parts);
      DottedPart(p);
    }
    forall p | p in LowerAll(parts) && IsDotted(s) ensures 1 <= |p| <= 3 && IsNumeral(p, 10) {
      var i :| 0 <= i < |parts| && LowerAll(parts)[i] == p;
      assert parts[i] in parts;
      DottedPart(parts[i]);
    }
  }

  lemma MappedOfLower(s: string)
    ensures IsMappedDotted(Lower(s)) <==> IsMappedDotted(s)
  {
    hide IsDotted;
    if |s| >= 7 {
      LowerSlice(s, 7, |s|);
      DottedOfLower(s[7..]);
    }
  }

  lemma StripOfLower(s: string)
    ensures StripBrackets(Lower(s)) == Lower(StripBrackets(s))
    ensures StripZone(Lower(s)) == Lower(StripZone(s))
  {
    hide IndexOf;
    if |s| >= 2 {
      LowerSlice(s, 1, |s| - 1);
    }
    IndexOfLower(s, '%');
    if IndexOf(s, '%') != -1 {
      LowerSlice(s, 0, IndexOf(s, '%'));
    }
  }

  lemma NormalOfLower(ip: string)
    ensures NormalizeIp(Lower(ip)) == LowerText(NormalizeIp(ip))
  {
    hide Trim, IsMappedDotted, StripBrackets, StripZone, Lower;
    TrimOfLower(ip);
    assert |Lower(Trim(ip))| == |Trim(ip)|;
    StripOfLower(Trim(ip));
    StripOfLower(StripBrackets(Trim(ip)));
    var s := StripZone(StripBrackets(Trim(ip)));
    MappedOfLower(s);
    if IsMappedDotted(s) {
      MappedIsLong(s);
      LowerSlice(s, 7, |s|);
    }
  }

  lemma MappedIsLong(s: string)
    requires IsMappedDotted(s)
    ensures |s| >= 7
  {
  }

  /** A caller is judged alike whatever the case of its digits. */
  lemma MatchesOfLower(ip: string, cidrs: seq<Cidr>)
    ensures Matches(Lower(ip), cidrs) == Matches(ip, cidrs)
  {
    hide NormalizeIp, AddressValue, FamilyOf, Lower, AnyHit;
    NormalOfLower(ip);
    if NormalizeIp(ip).Some? {
      AddressOfLower(FamilyOf(NormalizeIp(ip).value), NormalizeIp(ip).value);
    }
  }
}
