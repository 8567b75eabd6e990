/** Writing a network back as text, with zero-run compression (web/lib/ipMatch.ts). */
module IpPrint {
  import opened Text
  import opened Numerals
  import opened IpParse
  import Division

  /** The `count` digits of `v` in base `radix`, each written in base `base`. */
  function Places(v: nat, count: nat, radix: nat, base: nat): seq<string>
    requires radix > 0 && 2 <= base <= 16
  {
    seq(count, i requires 0 <= i < count => Print(v / Power(radix, count - 1 - i) % radix, base))
  }

  lemma PlaceNumeral(v: nat, count: nat, radix: nat, base: nat, i: nat)
    requires radix > 0 && 2 <= base <= 16 && i < count
    ensures IsNumeral(Places(v, count, radix, base)[i], base)
    ensures Value(Places(v, count, radix, base)[i], base) == v / Power(radix, count - 1 - i) % radix
  {
    ValueOfPrint(v / Power(radix, count - 1 - i) % radix, base);
  }

  lemma PlacesNumerals(v: nat, count: nat, radix: nat, base: nat)
    requires radix > 0 && 2 <= base <= 16
    ensures forall p :: p in Places(v, count, radix, base) ==> IsNumeral(p, base)
  {
    forall i | 0 <= i < count ensures IsNumeral(Places(v, count, radix, base)[i], base) {
      PlaceNumeral(v, count, radix, base, i);
    }
  }

  lemma {:induction false} PlaceStep(v: nat, radix: nat, k: nat)
    requires radix > 0
    ensures v / Power(radix, k + 1) * radix + v / Power(radix, k) % radix == v / Power(radix, k)
  {
    Division.Nested(v, radix, Power(radix, k));
    DivMod(v / Power(radix, k), radix);
  }

  lemma {:induction false} FoldOfPlaces(v: nat, count: nat, radix: nat, base: nat, j: nat)
    requires radix > 0 && 2 <= base <= 16 && j <= count && v < Power(radix, count)
    requires forall p :: p in Places(v, count, radix, base) ==> IsNumeral(p, base)
    ensures FoldParts(Places(v, count, radix, base)[..j], base, radix) == v / Power(radix, count - j)
  {
    var ps := Places(v, count, radix, base);
    if j > 0 {
      FoldOfPlaces(v, count, radix, base, j - 1);
      assert ps[..j][..j - 1] == ps[..j - 1];
      PlaceNumeral(v, count, radix, base, j - 1);
      PlaceStep(v, radix, count - j);
    } else {
      Division.Unique(v, Power(radix, count), 0);
    }
  }

  // ----- the longest zero run -----------------------------------------------------

  /** The loop state of the zero-run scan. */
  datatype Scan = Scan(bestStart: int, bestLen: nat, curStart: int, curLen: nat)

  function ScanStep(s: Scan, i: nat, isZero: bool): Scan {
    if !isZero then s.(curStart := -1, curLen := 0)
    else
      var start := if s.curStart == -1 then i else s.curStart;
      var len := s.curLen + 1;
      if len > s.bestLen then Scan(start, len, start, len) else s.(curStart := start, curLen := len)
  }

  function ScanTo(groups: seq<string>, i: nat): Scan
    requires i <= |groups|
  {
    if i == 0 then Scan(-1, 0, -1, 0)
    else ScanStep(ScanTo(groups, i - 1), i - 1, groups[i - 1] == "0")
  }

  /** `groups[start..start + len]` is a nonempty stretch of zero groups. */
  predicate ZeroRun(groups: seq<string>, start: int, len: int) {
    1 <= len && 0 <= start && start + len <= |groups| &&
    forall i :: start <= i < start + len ==> groups[i] == "0"
  }

  /** Section 4.2.3 of RFC 5952: the longest run, and the first one of that length. */
  ghost predicate LeftmostLongest(groups: seq<string>, start: int, len: nat) {
    && (len == 0 ==> start == -1)
    && (len > 0 ==> ZeroRun(groups, start, len))
    && forall s, l :: ZeroRun(groups, s, l) ==> l < len || (l == len && start <= s)
  }

  ghost predicate ScanInvariant(groups: seq<string>, i: nat, s: Scan)
    requires i <= |groups|
  {
    && LeftmostLongest(groups[..i], s.bestStart, s.bestLen)
    && (s.curLen == 0 ==> s.curStart == -1 && (i == 0 || groups[i - 1] != "0"))
    && (s.curLen > 0 ==> s.curStart == i - s.curLen && ZeroRun(groups, s.curStart, s.curLen))
    && (s.curLen > 0 && s.curStart > 0 ==> groups[s.curStart - 1] != "0")
  }

  lemma {:induction false} ScanCorrect(groups: seq<string>, i: nat)
    requires i <= |groups|
    ensures ScanInvariant(groups, i, ScanTo(groups, i))
  {
    if i > 0 {
      ScanCorrect(groups, i - 1);
      ScanStepBest(groups, i - 1);
    }
  }

  lemma ScanStepBest(groups: seq<string>, i: nat)
    requires i < |groups| && ScanInvariant(groups, i, ScanTo(groups, i))
    ensures var s := ScanTo(groups, i + 1); LeftmostLongest(groups[..i + 1], s.bestStart, s.bestLen)
  {
    var t, s := ScanTo(groups, i), ScanTo(groups, i + 1);
    var before, after := groups[..i], groups[..i + 1];
    if s.bestLen > 0 {
      assert ZeroRun(after, s.bestStart, s.bestLen) by {
        if s.bestLen == t.bestLen {
          assert ZeroRun(before, t.bestStart, t.bestLen);
          assert forall k :: 0 <= k < i ==> before[k] == after[k];
        }
      }
    }
    forall st, l | ZeroRun(after, st, l) ensures l < s.bestLen || (l == s.bestLen && s.bestStart <= st) {
      RunAfterStep(groups, i, st, l);
    }
  }

  lemma RunAfterStep(groups: seq<string>, i: nat, st: int, l: int)
    requires i < |groups| && ScanInvariant(groups, i, ScanTo(groups, i))
    requires ZeroRun(groups[..i + 1], st, l)
    ensures var s := ScanTo(groups, i + 1); l < s.bestLen || (l == s.bestLen && s.bestStart <= st)
  {
    var t := ScanTo(groups, i);
    var before, after := groups[..i], groups[..i + 1];
    assert forall k :: 0 <= k < i ==> before[k] == after[k];
    if st + l <= i {
      assert ZeroRun(before, st, l);
    } else {
      assert after[i] == "0";
      if l > 1 {
        assert ZeroRun(before, st, l - 1);
      }
      if t.curLen > 0 {
        assert ZeroRun(before, t.curStart, t.curLen);
      }
    }
  }

  ghost function BestRun(groups: seq<string>): (int, nat) {
    (ScanTo(groups, |groups|).bestStart, ScanTo(groups, |groups|).bestLen)
  }

  /** The scanning loop finds the leftmost longest run of zero groups. */
  method FindZeroRun(groups: seq<string>) returns (bestStart: int, bestLen: nat)
    ensures (bestStart, bestLen) == BestRun(groups)
    ensures LeftmostLongest(groups, bestStart, bestLen)
  {
    bestStart, bestLen := -1, 0;
    var curStart, curLen := -1, 0;
    for i := 0 to |groups|
      invariant curLen >= 0
      invariant ScanTo(groups, i) == Scan(bestStart, bestLen, curStart, curLen)
    {
      if groups[i] == "0" {
        if curStart == -1 {
          curStart := i;
        }
        curLen := curLen + 1;
        if curLen > bestLen {
          bestLen := curLen;
          bestStart := curStart;
        }
      } else {
        curStart := -1;
        curLen := 0;
      }
    }
    ScanCorrect(groups, |groups|);
    assert groups[..|groups|] == groups;
  }

  // ----- printing -------------------------------------------------------------------

  function Compress(groups: seq<string>, start: int, len: nat): string {
    if len >= 2 && 0 <= start && start + len <= |groups|
    then Join(groups[..start], ':') + "::" + Join(groups[start + len..], ':')
    else Join(groups, ':')
  }

  ghost function AddressText(f: Family, v: nat): string {
    if f == V4 then Join(Places(v, 4, 256, 10), '.')
    else
      var groups := Places(v, 8, 65536, 16);
      Compress(groups, BestRun(groups).0, BestRun(groups).1)
  }

  /** The canonical text of a network. */
  ghost function CidrText(c: Cidr): string {
    AddressText(c.family, c.value) + "/" + Print(c.bits, 10)
  }

  method CidrToString(c: Cidr) returns (s: string)
    ensures s == CidrText(c)
  {
    var addr: string;
    if c.family == V4 {
      var a := c.value / Power(256, 3) % 256;
      var b := c.value / Power(256, 2) % 256;
      var d := c.value / Power(256, 1) % 256;
      var e := c.value / Power(256, 0) % 256;
      var parts := [Print(a, 10), Print(b, 10), Print(d, 10), Print(e, 10)];
      assert parts == Places(c.value, 4, 256, 10);
      addr := Join(parts, '.');
    } else {
      var groups := [];
      for i := 8 downto 0
        invariant |groups| == 8 - i
        invariant groups == Places(c.value, 8, 65536, 16)[..8 - i]
      {
        groups := groups + [Print(c.value / Power(65536, i) % 65536, 16)];
      }
      assert groups == Places(c.value, 8, 65536, 16);
      var bestStart, bestLen := FindZeroRun(groups);
      addr := Compress(groups, bestStart, bestLen);
    }
    s := addr + "/" + Print(c.bits, 10);
  }
}
