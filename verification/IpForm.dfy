/** The form in which a network is stored: section 4 of RFC 5952, with the prefix length behind it
    (web/lib/ipMatch.ts). */
module IpForm {
  import opened Text
  import opened Numerals
  import opened IpParse
  import opened IpPrint
  import opened IpRoundTrip
  import opened IpLanguage
  import opened IpGrammar

  /** Digits without needless zeros in front, letters in lower case. */
  ghost predicate Plainest(s: string, base: nat) {
    && s != "" && (|s| > 1 ==> s[0] != '0')
    && forall c :: c in s ==> LowDigit(c, base)
  }

  ghost predicate LowDigit(c: char, base: nat) {
    exists d: nat :: d < base && d < 16 && c == "0123456789abcdef"[d]
  }

  lemma DigitIsLow(d: nat, base: nat)
    requires d < base <= 16
    ensures LowDigit(Digit(d), base) && (d > 0 ==> Digit(d) != '0')
  {
    assert Digit(d) == "0123456789abcdef"[d];
    DigitRoundTrip(d);
    assert DigitValue('0') == 0;
  }

  lemma {:induction false} PrintIsPlainest(n: nat, base: nat)
    requires 2 <= base <= 16
    ensures Plainest(Print(n, base), base) && (n > 0 ==> Print(n, base)[0] != '0')
    decreases n
  {
    hide Digit, LowDigit;
    if n < base {
      DigitIsLow(n, base);
      assert Print(n, base) == [Digit(n)];
    } else {
      DivMod(n, base);
      PrintIsPlainest(n / base, base);
      DigitIsLow(n % base, base);
      assert Print(n, base) == Print(n / base, base) + [Digit(n % base)];
    }
  }

  /** Joined by colons, with "::" for the leftmost longest run of two or more zero groups. */
  ghost predicate ShortForm(text: string, groups: seq<string>) {
    if exists i :: 0 <= i < |groups| - 1 && groups[i] == "0" == groups[i + 1] then
      exists start: int, len: nat ::
        len >= 2 && LeftmostLongest(groups, start, len) && Shortened(text, groups, start, len)
    else text == Join(groups, ':')
  }

  ghost predicate Shortened(text: string, groups: seq<string>, start: int, len: nat) {
    && 0 <= start && start + len <= |groups|
    && text == Join(groups[..start], ':') + "::" + Join(groups[start + len..], ':')
  }

  lemma BestRunIsBest(groups: seq<string>)
    ensures LeftmostLongest(groups, BestRun(groups).0, BestRun(groups).1)
  {
    ScanCorrect(groups, |groups|);
    assert groups[..|groups|] == groups;
  }

  lemma PairIsRun(groups: seq<string>, i: nat)
    requires i + 1 < |groups| && groups[i] == "0" == groups[i + 1]
    ensures ZeroRun(groups, i, 2)
  {
  }

  lemma RunHasPair(groups: seq<string>, start: int, len: nat)
    requires LeftmostLongest(groups, start, len) && len >= 2
    ensures 0 <= start < |groups| - 1 && start + len <= |groups| && groups[start] == "0" == groups[start + 1]
  {
  }

  lemma CompressIsShort(groups: seq<string>)
    ensures ShortForm(Compress(groups, BestRun(groups).0, BestRun(groups).1), groups)
  {
    BestRunIsBest(groups);
    var start, len := BestRun(groups).0, BestRun(groups).1;
    hide LeftmostLongest, Join, BestRun;
    if len >= 2 {
      RunHasPair(groups, start, len);
      assert Shortened(Compress(groups, start, len), groups, start, len);
    } else if i :| 0 <= i < |groups| - 1 && groups[i] == "0" == groups[i + 1] {
      PairIsRun(groups, i);
      LongerThanBest(groups, start, len, i);
    }
  }

  lemma LongerThanBest(groups: seq<string>, start: int, len: nat, i: nat)
    requires LeftmostLongest(groups, start, len) && ZeroRun(groups, i, 2)
    ensures len >= 2
  {
  }

  ghost predicate PlainGroups(groups: seq<string>) {
    |groups| == 8 && forall i :: 0 <= i < 8 ==> Plainest(groups[i], 16) && |groups[i]| <= 4
  }

  lemma GroupsArePlain(v: nat)
    ensures PlainGroups(Places(v, 8, 65536, 16))
  {
    var groups := Places(v, 8, 65536, 16);
    HexGroupsOf(v);
    forall i | 0 <= i < 8 ensures Plainest(groups[i], 16) && |groups[i]| <= 4 {
      var digit := v / Power(65536, 7 - i) % 65536;
      assert groups[i] == Print(digit, 16);
      hide Print, IsHexGroup, Plainest, Places, Power;
      PrintIsPlainest(digit, 16);
      assert groups[i] in groups;
      GroupLength(groups[i]);
    }
  }

  lemma GroupsWrite(v: nat)
    requires v < Pow2(128)
    ensures HexGroups(Places(v, 8, 65536, 16)) && GroupsNumber(Places(v, 8, 65536, 16)) == v
  {
    HexGroupsOf(v);
    AddressWidths();
    hide IsHexGroup, FoldParts, Places, Power;
    ValueOfPlaces(v, 8, 65536, 16);
  }

  /** An IPv6 address is stored as its eight groups, each as short as it can be and in lower case,
      with the leftmost longest run of zero groups, if it is longer than one, written "::". */
  lemma V6Form(v: nat)
    requires v < Pow2(128)
    ensures exists groups ::
              PlainGroups(groups) && HexGroups(groups) && GroupsNumber(groups) == v &&
              ShortForm(AddressText(V6, v), groups)
  {
    hide Places, HexGroups, GroupsNumber, PlainGroups, Compress, BestRun, ShortForm, Pow2;
    var groups := Places(v, 8, 65536, 16);
    GroupsWrite(v);
    GroupsArePlain(v);
    CompressIsShort(groups);
  }

  lemma GroupLength(g: string)
    requires IsHexGroup(g)
    ensures |g| <= 4
  {
  }

  lemma OctetsArePlain(v: nat)
    ensures |Places(v, 4, 256, 10)| == 4
    ensures forall i :: 0 <= i < 4 ==> Plainest(Places(v, 4, 256, 10)[i], 10) && IsOctet(Places(v, 4, 256, 10)[i])
  {
    var ps := Places(v, 4, 256, 10);
    OctetsOf(v);
    forall i | 0 <= i < 4 ensures Plainest(ps[i], 10) && IsOctet(ps[i]) {
      var digit := v / Power(256, 3 - i) % 256;
      assert ps[i] == Print(digit, 10);
      hide Print, IsOctet, Plainest, Places, Power;
      PrintIsPlainest(digit, 10);
      assert ps[i] in ps;
    }
  }

  /** An IPv4 address is stored as a dotted quad without leading zeros. */
  lemma V4Form(v: nat)
    requires v < Pow2(32)
    ensures exists a, b, c, d ::
              && Quad(AddressText(V4, v), a, b, c, d)
              && Plainest(a, 10) && Plainest(b, 10) && Plainest(c, 10) && Plainest(d, 10)
              && v == ((NumberOf(a, 10) * 256 + NumberOf(b, 10)) * 256 + NumberOf(c, 10)) * 256 + NumberOf(d, 10)
  {
    hide Places, IsOctet, V4Value, Plainest, NumberOf, Join, Pow2, ShortDecimal;
    var ps := Places(v, 4, 256, 10);
    OctetsArePlain(v);
    V4RoundTrip(v);
    var a, b, c, d := ps[0], ps[1], ps[2], ps[3];
    assert ps == [a, b, c, d];
    JoinFour(a, b, c, d);
    OctetIff(a);
    OctetIff(b);
    OctetIff(c);
    OctetIff(d);
    assert Quad(AddressText(V4, v), a, b, c, d);
    QuadIsRead(AddressText(V4, v), a, b, c, d);
  }

  /** A network is stored as its address, a slash and the prefix length without leading zeros, which
      is written even when it is full. */
  lemma CidrForm(c: Cidr)
    ensures exists bits ::
              CidrText(c) == AddressText(c.family, c.value) + "/" + bits &&
              Plainest(bits, 10) && NumberOf(bits, 10) == c.bits
  {
    PrintIsPlainest(c.bits, 10);
    ValueOfPrint(c.bits, 10);
  }
}
