/** What dotted quads, groups and allowlist entries are made of, and what they are worth
    (web/lib/ipMatch.ts). */
module IpGrammar {
  import opened Prelude
  import opened Text
  import opened Numerals
  import opened IpParse
  import opened IpLanguage
  import opened IpCase

  /** One to three decimal digits, leading zeros allowed. */
  ghost predicate ShortDecimal(p: string) {
    1 <= |p| <= 3 && forall c :: c in p ==> c in "0123456789"
  }

  lemma DecimalIff(p: string)
    ensures 1 <= |p| <= 3 && IsNumeral(p, 10) <==> ShortDecimal(p)
  {
    hide DigitValue;
    forall c: char ensures DigitValue(c) < 10 <==> c in "0123456789" {
      KnownDigit(c);
    }
  }

  /** Four octets with dots between them. */
  ghost predicate Quad(s: string, a: string, b: string, c: string, d: string) {
    && s == a + "." + b + "." + c + "." + d
    && ShortDecimal(a) && ShortDecimal(b) && ShortDecimal(c) && ShortDecimal(d)
    && NumberOf(a, 10) <= 255 && NumberOf(b, 10) <= 255 && NumberOf(c, 10) <= 255 && NumberOf(d, 10) <= 255
  }

  /** The number that digits write, 0 for other texts. */
  ghost function NumberOf(p: string, base: nat): nat {
    if IsNumeral(p, base) then Value(p, base) else 0
  }

  lemma OctetIff(p: string)
    ensures IsOctet(p) <==> ShortDecimal(p) && NumberOf(p, 10) <= 255
  {
    DecimalIff(p);
  }

  lemma JoinFour(a: string, b: string, c: string, d: string)
    ensures Join([a, b, c, d], '.') == a + "." + b + "." + c + "." + d
  {
    JoinFirst(a, [b, c, d], '.');
    JoinFirst(b, [c, d], '.');
    JoinFirst(c, [d], '.');
    assert [a] + [b, c, d] == [a, b, c, d] && [b] + [c, d] == [b, c, d] && [c] + [d] == [c, d];
    hide Join;
    JoinOne(d, '.');
  }

  lemma FoldPrefix(g: seq<string>, n: nat, base: nat, radix: nat)
    requires forall p :: p in g ==> IsNumeral(p, base)
    requires 1 <= n <= |g|
    ensures FoldParts(g[..n], base, radix) ==
              FoldParts(g[..n - 1], base, radix) * radix + NumberOf(g[n - 1], base)
  {
    hide IsNumeral, Value;
    assert g[..n][..n - 1] == g[..n - 1];
  }

  lemma FoldFour(a: string, b: string, c: string, d: string)
    requires IsNumeral(a, 10) && IsNumeral(b, 10) && IsNumeral(c, 10) && IsNumeral(d, 10)
    ensures FoldParts([a, b, c, d], 10, 256) ==
              ((NumberOf(a, 10) * 256 + NumberOf(b, 10)) * 256 + NumberOf(c, 10)) * 256 + NumberOf(d, 10)
  {
    hide IsNumeral, NumberOf;
    var g := [a, b, c, d];
    FoldPrefix(g, 1, 10, 256);
    FoldPrefix(g, 2, 10, 256);
    FoldPrefix(g, 3, 10, 256);
    FoldPrefix(g, 4, 10, 256);
    assert g[..4] == g;
  }

  lemma QuadSplits(s: string, a: string, b: string, c: string, d: string)
    requires s == a + "." + b + "." + c + "." + d
    requires '.' !in a && '.' !in b && '.' !in c && '.' !in d
    ensures Split(s, '.') == [a, b, c, d]
  {
    hide Split, Join;
    JoinFour(a, b, c, d);
    SplitJoin([a, b, c, d], '.');
  }

  lemma QuadIsRead(s: string, a: string, b: string, c: string, d: string)
    requires Quad(s, a, b, c, d)
    ensures V4Value(s) ==
              Some(((NumberOf(a, 10) * 256 + NumberOf(b, 10)) * 256 + NumberOf(c, 10)) * 256 + NumberOf(d, 10))
  {
    hide Split, IsOctet, FoldParts, Value;
    OctetIff(a);
    OctetIff(b);
    OctetIff(c);
    OctetIff(d);
    QuadSplits(s, a, b, c, d);
    DecimalIff(a);
    DecimalIff(b);
    DecimalIff(c);
    DecimalIff(d);
    FoldFour(a, b, c, d);
  }

  lemma ReadIsQuad(s: string)
    requires V4Value(s).Some?
    ensures exists a, b, c, d :: Quad(s, a, b, c, d)
  {
    hide Split, Join, IsOctet, FoldParts, NumberOf, ShortDecimal;
    var parts := Split(s, '.');
    JoinSplit(s, '.');
    var a, b, c, d := parts[0], parts[1], parts[2], parts[3];
    assert parts == [a, b, c, d];
    JoinFour(a, b, c, d);
    OctetIff(a);
    OctetIff(b);
    OctetIff(c);
    OctetIff(d);
    assert Quad(s, a, b, c, d);
  }

  /** The accepted IPv4 addresses: four numbers of one to three decimal digits, none above 255,
      read in base 256. */
  lemma V4Language(s: string, v: nat)
    ensures V4Value(s) == Some(v) <==>
              exists a, b, c, d :: Quad(s, a, b, c, d) &&
                v == ((NumberOf(a, 10) * 256 + NumberOf(b, 10)) * 256 + NumberOf(c, 10)) * 256 + NumberOf(d, 10)
  {
    hide V4Value, Quad, NumberOf;
    forall a, b, c, d | Quad(s, a, b, c, d)
      ensures V4Value(s) ==
                Some(((NumberOf(a, 10) * 256 + NumberOf(b, 10)) * 256 + NumberOf(c, 10)) * 256 + NumberOf(d, 10))
    {
      QuadIsRead(s, a, b, c, d);
    }
    if V4Value(s).Some? {
      ReadIsQuad(s);
    }
  }

  /** A group is one to four hexadecimal digits in either case. */
  lemma GroupIff(g: string)
    ensures IsHexGroup(g) <==> 1 <= |g| <= 4 && forall c :: c in g ==> c in "0123456789abcdefABCDEF"
  {
    hide DigitValue;
    forall c: char ensures DigitValue(c) < 16 <==> c in "0123456789abcdefABCDEF" {
      KnownDigit(c);
    }
  }

  /** The number `x` with the digits of four more groups after it, from group `n` on. */
  ghost function Followed(x: nat, g: seq<string>, n: nat): nat
    requires n + 4 <= |g|
  {
    (((x * 65536 + NumberOf(g[n], 16)) * 65536 + NumberOf(g[n + 1], 16)) * 65536 + NumberOf(g[n + 2], 16)) * 65536
    + NumberOf(g[n + 3], 16)
  }

  lemma FourMore(g: seq<string>, n: nat)
    requires n + 4 <= |g| && forall p :: p in g ==> IsNumeral(p, 16)
    ensures FoldParts(g[..n + 4], 16, 65536) == Followed(FoldParts(g[..n], 16, 65536), g, n)
  {
    hide NumberOf, IsNumeral, FoldParts;
    FoldPrefix(g, n + 1, 16, 65536);
    FoldPrefix(g, n + 2, 16, 65536);
    FoldPrefix(g, n + 3, 16, 65536);
    FoldPrefix(g, n + 4, 16, 65536);
  }

  /** What eight groups are worth: each is sixteen bits, the first one most significant. */
  lemma FoldEight(g: seq<string>)
    requires |g| == 8 && forall p :: p in g ==> IsHexGroup(p)
    ensures GroupsNumber(g) == Followed(Followed(0, g, 0), g, 4)
  {
    forall p | p in g ensures IsNumeral(p, 16) {
      assert IsHexGroup(p);
    }
    assert FoldParts(g[..0], 16, 65536) == 0;
    hide NumberOf, IsNumeral, FoldParts, IsHexGroup, Followed;
    FourMore(g, 0);
    FourMore(g, 4);
    assert g[..8] == g;
  }

  // ----- entries -------------------------------------------------------------------------------

  /** The entry is an address alone, or an address, a slash and a prefix length. */
  ghost predicate Entry(raw: string, addr: string, bits: nat) {
    var max := if ':' in addr then 128 else 32;
    || (raw == addr && '/' !in addr && bits == max)
    || exists digits :: raw == addr + "/" + digits && '/' !in addr && ShortDecimal(digits) &&
                        NumberOf(digits, 10) == bits <= max
  }

  /** The address is readable, of the family that its colons tell, and the entry is its network. */
  ghost predicate Masked(addr: string, v: nat, c: Cidr) {
    && (if ':' in addr then c.family == V6 && V6Value(addr) == Some(v) else c.family == V4 && V4Value(addr) == Some(v))
    && c.value == Mask(v, c.bits, if ':' in addr then 128 else 32)
  }

  lemma MaskedIff(addr: string, c: Cidr)
    ensures (exists v: nat :: Masked(addr, v, c)) <==> EntryValue(addr, c.bits) == Some(c)
  {
    hide V4Value, V6Value, Mask;
    var read := AddressValue(FamilyOf(addr), addr);
    if EntryValue(addr, c.bits) == Some(c) {
      assert Masked(addr, read.value, c);
    }
    if v: nat :| Masked(addr, v, c) {
      assert read == Some(v);
    }
  }

  lemma ReadHasEntry(raw: string, c: Cidr)
    requires CidrOf(raw) == Some(c)
    ensures exists addr :: Entry(raw, addr, c.bits)
  {
    hide AddressValue, IndexOf, Mask, Value, IsNumeral;
    var slash := IndexOf(raw, '/');
    var addr := if slash == -1 then raw else raw[..slash];
    if slash != -1 {
      var digits := raw[slash + 1..];
      DecimalIff(digits);
      assert raw == addr + "/" + digits;
    }
    assert Entry(raw, addr, c.bits);
  }

  /** Accepted entries: a readable address of the family its colons tell, whole or with a prefix
      length of at most 32 or 128. */
  lemma EntryLanguage(raw: string, c: Cidr)
    ensures CidrOf(raw) == Some(c) <==> exists addr, v: nat :: Entry(raw, addr, c.bits) && Masked(addr, v, c)
  {
    hide CidrOf, Entry, Masked, EntryValue;
    if CidrOf(raw) == Some(c) {
      ReadHasEntry(raw, c);
      var addr :| Entry(raw, addr, c.bits);
      EntryIsRead(raw, addr, c.bits);
      MaskedIff(addr, c);
    }
    if addr, v: nat :| Entry(raw, addr, c.bits) && Masked(addr, v, c) {
      EntryIsRead(raw, addr, c.bits);
      MaskedIff(addr, c);
    }
  }

  ghost function EntryValue(addr: string, bits: nat): Option<Cidr> {
    var f := FamilyOf(addr);
    match AddressValue(f, addr)
    case None => None
    case Some(v) => Some(Cidr(f, bits, Mask(v, bits, MaxBits(f))))
  }

  lemma SlashAt(addr: string, digits: string)
    requires '/' !in addr
    ensures IndexOf(addr + "/" + digits, '/') == |addr|
  {
    hide IndexOf;
    var raw := addr + "/" + digits;
    var k := IndexOf(raw, '/');
    assert raw[|addr|] == '/';
    NoneBefore(raw, '/', k);
    assert k >= |addr| by {
      assert forall i :: 0 <= i < |addr| ==> raw[i] == addr[i];
    }
  }

  lemma EntryIsRead(raw: string, addr: string, bits: nat)
    requires Entry(raw, addr, bits)
    ensures CidrOf(raw) == EntryValue(addr, bits)
  {
    hide V4Value, V6Value, IndexOf, Mask, Value, IsNumeral;
    if raw != addr || '/' in addr {
      var digits :| raw == addr + "/" + digits && '/' !in addr && ShortDecimal(digits) &&
                    NumberOf(digits, 10) == bits <= if ':' in addr then 128 else 32;
      SlashAt(addr, digits);
      assert raw[..|addr|] == addr && raw[|addr| + 1..] == digits;
      DecimalIff(digits);
    }
  }
}
