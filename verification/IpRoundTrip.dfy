/** Printing a network and reading it back gives the same network (web/lib/ipMatch.ts). */
module IpRoundTrip {
  import opened Prelude
  import opened Text
  import opened Numerals
  import opened IpParse
  import opened IpPrint
  import Division

  /** In range and masked: no bit set past the prefix. */
  predicate Valid(c: Cidr) {
    && c.bits <= MaxBits(c.family)
    && c.value < Pow2(MaxBits(c.family))
    && Mask(c.value, c.bits, MaxBits(c.family)) == c.value
  }

  lemma {:induction false} PowerSum(b: nat, m: nat, n: nat)
    ensures Power(b, m + n) == Power(b, m) * Power(b, n)
  {
    if m > 0 {
      PowerSum(b, m - 1, n);
      var p, q := Power(b, m - 1), Power(b, n);
      assert Power(b, m + n) == b * Power(b, m - 1 + n);
      Division.Associate(b, p, q);
    }
  }

  lemma {:induction false} PowerOfPower(b: nat, k: nat, m: nat)
    ensures Power(b, k * m) == Power(Power(b, k), m)
    decreases m
  {
    if m > 0 {
      PowerOfPower(b, k, m - 1);
      assert k * m == k + k * (m - 1);
      PowerSum(b, k, k * (m - 1));
    }
  }

  /** An address is as wide as its octets or its groups. */
  lemma AddressWidths()
    ensures Pow2(32) == Power(256, 4)
    ensures Pow2(128) == Power(65536, 8)
    ensures Pow2(16) == 65536
  {
    assert Power(2, 8) == 256;
    PowerOfPower(2, 8, 4);
    PowerOfPower(2, 8, 2);
    assert Power(256, 2) == 65536;
    PowerOfPower(2, 16, 8);
  }

  lemma {:induction false} ValueOfPlaces(v: nat, count: nat, radix: nat, base: nat)
    requires radix > 0 && 2 <= base <= 16 && v < Power(radix, count)
    ensures forall p :: p in Places(v, count, radix, base) ==> IsNumeral(p, base)
    ensures FoldParts(Places(v, count, radix, base), base, radix) == v
  {
    var ps := Places(v, count, radix, base);
    PlacesNumerals(v, count, radix, base);
    FoldOfPlaces(v, count, radix, base, count);
    assert ps[..count] == ps;
    assert Power(radix, 0) == 1;
  }

  lemma OctetsOf(v: nat)
    ensures forall p :: p in Places(v, 4, 256, 10) ==> IsOctet(p) && p != "" && '.' !in p
  {
    var ps := Places(v, 4, 256, 10);
    forall i | 0 <= i < 4 ensures IsOctet(ps[i]) && '.' !in ps[i] {
      PlaceNumeral(v, 4, 256, 10, i);
      PrintLength(v / Power(256, 3 - i) % 256, 10, 3);
      assert DigitValue('.') == 99;
    }
  }

  lemma HexGroupsOf(v: nat)
    ensures forall p :: p in Places(v, 8, 65536, 16) ==> IsHexGroup(p)
  {
    var ps := Places(v, 8, 65536, 16);
    forall i | 0 <= i < 8 ensures IsHexGroup(ps[i]) {
      PlaceNumeral(v, 8, 65536, 16, i);
      PrintLength(v / Power(65536, 7 - i) % 65536, 16, 4);
    }
  }

  lemma V4RoundTrip(v: nat)
    requires v < Pow2(32)
    ensures V4Value(AddressText(V4, v)) == Some(v)
  {
    var ps := Places(v, 4, 256, 10);
    OctetsOf(v);
    SplitJoin(ps, '.');
    AddressWidths();
    ValueOfPlaces(v, 4, 256, 10);
  }

  // ----- IPv6 ------------------------------------------------------------------

  ghost predicate HexGroups(parts: seq<string>) {
    forall p :: p in parts ==> IsHexGroup(p)
  }

  lemma HexGroupChars(p: string, c: char)
    requires IsHexGroup(p) && c in p
    ensures DigitValue(c) < 16 && c != ':' && c != '.' && c != '/' && !IsSpace(c)
  {
  }

  /** A joined address neither starts nor ends with a colon and has no "::". */
  lemma {:induction false} JoinColons(parts: seq<string>)
    requires parts != [] && HexGroups(parts)
    ensures var j := Join(parts, ':');
            j != "" && j[0] != ':' && j[|j| - 1] != ':' && forall i :: !DoubleAt(j, i)
  {
    var p := parts[0];
    assert p in parts;
    assert ':' !in p;
    if |parts| == 1 {
      assert forall i :: 0 <= i < |p| ==> p[i] in p;
    } else {
      JoinColons(parts[1..]);
      var rest := Join(parts[1..], ':');
      var j := Join(parts, ':');
      assert j == p + [':'] + rest;
      forall i ensures !DoubleAt(j, i) {
        if 0 <= i < |p| {
          assert j[i] == p[i];
        } else if |p| < i < |j| - 1 {
          assert !DoubleAt(rest, i - |p| - 1);
        }
      }
    }
  }

  lemma SplitHalfJoin(parts: seq<string>)
    requires HexGroups(parts)
    ensures SplitHalf(Join(parts, ':')) == parts
  {
    if parts != [] {
      JoinColons(parts);
      SplitJoin(parts, ':');
    }
  }

  lemma FirstDoubleOfCompressed(a: string, b: string)
    requires forall i :: !DoubleAt(a, i)
    requires a == "" || a[|a| - 1] != ':'
    ensures FirstDouble(a + "::" + b) == |a|
  {
    var t := a + "::" + b;
    FirstDoubleSpec(t);
    assert DoubleAt(t, |a|);
    forall i | 0 <= i < |a| ensures !DoubleAt(t, i) {
      assert !DoubleAt(a, i);
    }
  }

  lemma NoDouble(parts: seq<string>)
    requires HexGroups(parts)
    ensures forall i :: !DoubleAt(Join(parts, ':'), i)
    ensures var j := Join(parts, ':'); j == "" || j[|j| - 1] != ':'
  {
    if parts != [] {
      JoinColons(parts);
    }
  }

  lemma {:induction false} GroupsSplitAt(a: string, b: string)
    requires FirstDouble(a + "::" + b) == |a|
    ensures Groups(a + "::" + b) == GroupsAround(a, b)
  {
    var t := a + "::" + b;
    assert t[..|a|] == a && t[|a| + 2..] == b;
  }

  lemma NoDoubleInJoin(parts: seq<string>)
    requires HexGroups(parts)
    ensures FirstDouble(Join(parts, ':')) == -1
  {
    NoDouble(parts);
    FirstDoubleSpec(Join(parts, ':'));
  }

  lemma FirstDoubleBetween(head: seq<string>, b: string)
    requires HexGroups(head)
    ensures FirstDouble(Join(head, ':') + "::" + b) == |Join(head, ':')|
  {
    NoDouble(head);
    FirstDoubleOfCompressed(Join(head, ':'), b);
  }

  lemma GroupsAroundHalves(head: seq<string>, tail: seq<string>)
    requires HexGroups(head) && HexGroups(tail) && |head| + |tail| <= 8
    ensures GroupsAround(Join(head, ':'), Join(tail, ':')) == Some(head + ZeroGroups(8 - |head| - |tail|) + tail)
  {
    hide Join, HexGroups, FirstDouble, SplitHalf;
    NoDoubleInJoin(tail);
    SplitHalfJoin(head);
    SplitHalfJoin(tail);
  }

  lemma {:induction false} GroupsOfHalves(head: seq<string>, tail: seq<string>)
    requires HexGroups(head) && HexGroups(tail) && |head| + |tail| <= 8
    ensures Groups(Join(head, ':') + "::" + Join(tail, ':'))
         == Some(head + ZeroGroups(8 - |head| - |tail|) + tail)
  {
    hide Join, HexGroups, FirstDouble, SplitHalf, Groups, GroupsAround;
    FirstDoubleBetween(head, Join(tail, ':'));
    GroupsSplitAt(Join(head, ':'), Join(tail, ':'));
    GroupsAroundHalves(head, tail);
  }

  /** Replacing any run of two or more zero groups by "::" loses nothing. */
  lemma GroupsOfCompressed(groups: seq<string>, start: int, len: nat)
    requires |groups| == 8 && HexGroups(groups)
    requires len >= 2 ==> ZeroRun(groups, start, len)
    ensures Groups(Compress(groups, start, len)) == Some(groups)
  {
    if len >= 2 {
      var head, tail := groups[..start], groups[start + len..];
      GroupsOfHalves(head, tail);
      assert groups == head + ZeroGroups(8 - |head| - |tail|) + tail;
    } else {
      JoinColons(groups);
      FirstDoubleSpec(Join(groups, ':'));
      SplitHalfJoin(groups);
    }
  }

  lemma JoinedChars(parts: seq<string>, c: char)
    requires HexGroups(parts) && c in Join(parts, ':')
    ensures DigitValue(c) < 16 || c == ':'
  {
    JoinChars(parts, ':', c);
    if c != ':' {
      var i :| 0 <= i < |parts| && c in parts[i];
      HexGroupChars(parts[i], c);
    }
  }

  lemma CompressedChars(groups: seq<string>, start: int, len: nat, c: char)
    requires HexGroups(groups) && c in Compress(groups, start, len)
    ensures DigitValue(c) < 16 || c == ':'
  {
    if len >= 2 && 0 <= start && start + len <= |groups| {
      var head, tail := groups[..start], groups[start + len..];
      if c in Join(head, ':') {
        JoinedChars(head, c);
      } else if c in Join(tail, ':') {
        JoinedChars(tail, c);
      }
    } else {
      JoinedChars(groups, c);
    }
  }

  lemma DottedChars(v: nat, c: char)
    requires c in Join(Places(v, 4, 256, 10), '.')
    ensures DigitValue(c) < 16 || c == '.'
  {
    var ps := Places(v, 4, 256, 10);
    JoinChars(ps, '.', c);
    if c != '.' {
      var i :| 0 <= i < |ps| && c in ps[i];
      PlaceNumeral(v, 4, 256, 10, i);
    }
  }

  lemma AddressChars(f: Family, v: nat, c: char)
    requires c in AddressText(f, v)
    ensures DigitValue(c) < 16 || c == (if f == V4 then '.' else ':')
  {
    if f == V4 {
      DottedChars(v, c);
    } else {
      var groups := Places(v, 8, 65536, 16);
      HexGroupsOf(v);
      CompressedChars(groups, BestRun(groups).0, BestRun(groups).1, c);
    }
  }

  lemma BestRunIsRun(groups: seq<string>)
    ensures LeftmostLongest(groups, BestRun(groups).0, BestRun(groups).1)
  {
    ScanCorrect(groups, |groups|);
    assert groups[..|groups|] == groups;
  }

  lemma {:induction false} V6RoundTrip(v: nat)
    requires v < Pow2(128)
    ensures V6Value(AddressText(V6, v)) == Some(v)
    ensures ':' in AddressText(V6, v)
  {
    var groups := Places(v, 8, 65536, 16);
    var t := AddressText(V6, v);
    HexGroupsOf(v);
    BestRunIsRun(groups);
    GroupsOfCompressed(groups, BestRun(groups).0, BestRun(groups).1);
    assert ExpandTail(t) == Some(t) by {
      if '.' in t {
        AddressChars(V6, v, '.');
      }
    }
    AddressWidths();
    ValueOfPlaces(v, 8, 65536, 16);
  }

  lemma AddressRoundTrip(f: Family, v: nat)
    requires v < Pow2(MaxBits(f))
    ensures AddressValue(f, AddressText(f, v)) == Some(v)
    ensures FamilyOf(AddressText(f, v)) == f
  {
    if f == V4 {
      V4RoundTrip(v);
      if ':' in AddressText(V4, v) {
        AddressChars(V4, v, ':');
      }
    } else {
      V6RoundTrip(v);
    }
  }

  lemma CidrChars(c: Cidr, ch: char)
    requires ch in CidrText(c)
    ensures !IsSpace(ch)
  {
    ValueOfPrint(c.bits, 10);
    if ch in AddressText(c.family, c.value) {
      AddressChars(c.family, c.value, ch);
    }
  }

  lemma BitsRoundTrip(bits: nat, max: nat)
    requires bits <= max <= 128
    ensures PrefixBits(Print(bits, 10), max) == Some(bits)
  {
    ValueOfPrint(bits, 10);
    PrintLength(bits, 10, 3);
  }

  lemma CidrOfCidrText(c: Cidr)
    requires Valid(c)
    ensures CidrOf(CidrText(c)) == Some(c)
  {
    var addr, bits := AddressText(c.family, c.value), Print(c.bits, 10);
    var t := CidrText(c);
    if '/' in addr {
      AddressChars(c.family, c.value, '/');
    }
    hide AddressText, AddressValue, PrefixBits, Mask, Valid, Pow2;
    assert t[..|addr|] == addr && t[|addr|] == '/' && t[|addr| + 1..] == bits;
    AddressRoundTrip(c.family, c.value);
    BitsRoundTrip(c.bits, MaxBits(c.family));
  }

  lemma CidrTextIsTrimmed(c: Cidr)
    ensures CidrText(c) != "" && Trim(CidrText(c)) == CidrText(c)
  {
    var t := CidrText(c);
    assert |t| > 0;
    CidrChars(c, t[0]);
    CidrChars(c, t[|t| - 1]);
  }

  /** Every masked in-range network of either family survives printing and parsing. */
  lemma {:induction false} CidrRoundTrip(c: Cidr)
    requires Valid(c)
    ensures CidrOfText(CidrText(c)) == Some(c)
  {
    CidrTextIsTrimmed(c);
    CidrOfCidrText(c);
  }

  /** Different networks never print alike. */
  lemma PrintingIsInjective(c: Cidr, d: Cidr)
    requires Valid(c) && Valid(d)
    ensures CidrText(c) == CidrText(d) ==> c == d
  {
    CidrRoundTrip(c);
    CidrRoundTrip(d);
  }
}
