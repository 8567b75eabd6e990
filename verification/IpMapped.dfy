/** Which IPv4-mapped callers are judged as IPv4 (web/lib/ipMatch.ts). */
module IpMapped {
  import opened Prelude
  import opened Text
  import opened Numerals
  import opened IpParse
  import opened IpRoundTrip
  import opened IpNetwork
  import opened IpLanguage
  import opened IpMatch

  /** The caller's text without surrounding space, brackets and zone. */
  function Bare(ip: string): string {
    StripZone(StripBrackets(Trim(ip)))
  }

  // ----- what a dotted mapped text denotes -----------------------------------------------------

  predicate IsFfff(f: string) {
    |f| == 4 && IsF(f[0]) && IsF(f[1]) && IsF(f[2]) && IsF(f[3])
  }

  /** The groups of "::ffff:" and a dotted quad of value `w`; `f` is the text between the colons. */
  function MappedGroups(f: string, w: nat): seq<string> {
    ZeroGroups(5) + [f, Print(w / 65536 % 65536, 16), Print(w % 65536, 16)]
  }

  lemma PrintIsGroup(n: nat)
    requires n < 65536
    ensures IsHexGroup(Print(n, 16)) && Value(Print(n, 16), 16) == n
  {
    ValueOfPrint(n, 16);
    assert Power(16, 4) == 65536;
    PrintLength(n, 16, 4);
  }

  lemma FfffIsGroup(f: string)
    requires IsFfff(f)
    ensures IsHexGroup(f) && Value(f, 16) == 65535
  {
    assert forall c :: c in f ==> DigitValue(c) == 15;
    assert f[..1] == [f[0]] && f[..2][..1] == f[..1] && f[..3][..2] == f[..2];
    assert f[..0] == "" && f[..1][..0] == "";
    assert Value(f[..1], 16) == 15;
    assert Value(f[..2], 16) == 255;
    assert Value(f[..3], 16) == 4095;
  }

  lemma MappedHex(f: string, w: nat)
    requires IsHexGroup(f)
    ensures HexGroups(MappedGroups(f, w)) && |MappedGroups(f, w)| == 8
  {
    PrintIsGroup(w / 65536 % 65536);
    PrintIsGroup(w % 65536);
    ZeroIsGroup();
    hide IsHexGroup;
  }

  lemma ZeroIsGroup()
    ensures IsHexGroup("0") && Value("0", 16) == 0
  {
    assert "0"[..0] == "";
  }

  lemma {:induction false} ZerosFold(n: nat)
    ensures forall p :: p in ZeroGroups(n) ==> IsNumeral(p, 16)
    ensures FoldParts(ZeroGroups(n), 16, 65536) == 0
  {
    ZeroIsGroup();
    if n > 0 {
      ZerosFold(n - 1);
      assert ZeroGroups(n)[..n - 1] == ZeroGroups(n - 1);
    }
  }

  lemma FoldSnoc(parts: seq<string>, p: string)
    requires HexGroups(parts) && IsHexGroup(p)
    ensures HexGroups(parts + [p])
    ensures GroupsNumber(parts + [p]) == GroupsNumber(parts) * 65536 + Value(p, 16)
  {
    assert (parts + [p])[..|parts|] == parts;
  }

  lemma HalvesOf(w: nat)
    requires w < 65536 * 65536
    ensures w / 65536 % 65536 * 65536 + w % 65536 == w
  {
  }

  lemma LastThree(f: string, hi: string, lo: string)
    requires IsHexGroup(f) && IsHexGroup(hi) && IsHexGroup(lo)
    ensures GroupsNumber(ZeroGroups(5) + [f, hi, lo]) ==
            (Value(f, 16) * 65536 + Value(hi, 16)) * 65536 + Value(lo, 16)
  {
    ZeroIsGroup();
    GroupsNumberOfZeros();
    hide IsHexGroup, Value, GroupsNumber;
    var z := ZeroGroups(5);
    assert HexGroups(z);
    FoldSnoc(z, f);
    FoldSnoc(z + [f], hi);
    FoldSnoc(z + [f] + [hi], lo);
    assert z + [f] + [hi] + [lo] == z + [f, hi, lo];
  }

  lemma MappedNumber(f: string, w: nat)
    requires IsFfff(f) && w < 65536 * 65536
    ensures GroupsNumber(MappedGroups(f, w)) == 65535 * (65536 * 65536) + w
  {
    FfffIsGroup(f);
    HalvesOf(w);
    PrintIsGroup(w / 65536 % 65536);
    PrintIsGroup(w % 65536);
    hide IsHexGroup, Value, IsFfff, Print, GroupsNumber;
    LastThree(f, Print(w / 65536 % 65536, 16), Print(w % 65536, 16));
  }

  lemma GroupsNumberOfZeros()
    ensures GroupsNumber(ZeroGroups(5)) == 0
  {
    ZerosFold(5);
  }

  lemma MappedSpells(f: string, w: nat)
    requires IsHexGroup(f)
    ensures Spells("::" + f + ":" + TailGroups(w), MappedGroups(f, w))
  {
    var hi, lo := Print(w / 65536 % 65536, 16), Print(w % 65536, 16);
    MappedHex(f, w);
    hide HexGroups, IsHexGroup, Print;
    var groups := MappedGroups(f, w);
    assert groups[..0] == [] && groups[0..5] == ZeroGroups(5) && groups[5..] == [f, hi, lo];
    ThreeJoined(f, hi, lo);
    assert "::" + f + ":" + TailGroups(w) == "" + "::" + Join(groups[5..], ':');
    assert Elides("::" + f + ":" + TailGroups(w), groups, 0, 5);
  }

  lemma ThreeJoined(a: string, b: string, c: string)
    ensures Join([a, b, c], ':') == a + ":" + (b + ":" + c)
  {
    assert [a, b, c][1..] == [b, c] && [b, c][1..] == [c];
    assert Join([c], ':') == c;
    assert Join([b, c], ':') == b + [':'] + c == b + ":" + c;
    assert Join([a, b, c], ':') == a + [':'] + Join([b, c], ':');
  }

  lemma MappedPrefix(u: string)
    requires IsMappedDotted(u)
    ensures IsFfff(u[2..6]) && IsHexGroup(u[2..6]) && u[..7] == "::" + u[2..6] + ":" && u[6] == ':'
  {
    hide IsDotted;
    FfffIsGroup(u[2..6]);
  }

  lemma MappedDenotes(u: string)
    requires IsMappedDotted(u) && V4Value(u[7..]).Some?
    ensures SpellsDotted(u, MappedGroups(u[2..6], V4Value(u[7..]).value), 7)
  {
    var f, w := u[2..6], V4Value(u[7..]).value;
    MappedPrefix(u);
    hide V4Value, TailGroups, Spells, IsHexGroup, MappedGroups, IsMappedDotted;
    MappedSpells(f, w);
  }

  lemma ValueOfMapped(u: string, f: string, w: nat)
    requires SpellsDotted(u, MappedGroups(f, w), 7) && IsFfff(f) && w < 65536 * 65536
    ensures V6Value(u) == Some(65535 * (65536 * 65536) + w)
  {
    hide SpellsDotted, GroupsNumber, V6Value, MappedGroups, IsFfff;
    MappedNumber(f, w);
    DottedIsAccepted(u, MappedGroups(f, w), 7);
  }

  /** A dotted mapped text is the IPv6 address ::ffff:0:0 plus the value of its quad. */
  lemma MappedValue(u: string)
    requires IsMappedDotted(u) && V4Value(u[7..]).Some?
    ensures V6Value(u) == Some(65535 * (65536 * 65536) + V4Value(u[7..]).value)
  {
    hide V4Value, SpellsDotted, V6Value, IsFfff, IsHexGroup;
    QuadBelow(u[7..]);
    MappedDenotes(u);
    MappedPrefix(u);
    ValueOfMapped(u, u[2..6], V4Value(u[7..]).value);
  }

  lemma QuadBelow(s: string)
    requires V4Value(s).Some?
    ensures V4Value(s).value < 65536 * 65536
  {
    AddressInRange(V4, s);
    AddressWidths();
    PowerSum(2, 16, 16);
  }

  /** Nothing else of that shape is an address at all. */
  lemma MappedNeedsQuad(u: string)
    requires IsMappedDotted(u) && V6Value(u).Some?
    ensures V4Value(u[7..]).Some? && ':' !in u[7..]
  {
    DottedIsPlain(u[7..]);
    LastColon(u, 7);
    DottedHasDot(u[7..]);
    AcceptedGroups(u);
    hide V4Value, TailGroups, V6Value, Groups;
  }

  lemma DottedHasDot(d: string)
    requires IsDotted(d)
    ensures '.' in d
  {
    QuadHasDot(d);
  }

  // ----- main results --------------------------------------------------------------------------

  /** The text that the matcher reads. */
  function Read(ip: string): string {
    if IsMappedDotted(Bare(ip)) then Bare(ip)[7..] else Bare(ip)
  }

  lemma CallerOf(ip: string)
    requires Trim(ip) != ""
    ensures CallerAddress(ip) ==
            match AddressValue(FamilyOf(Read(ip)), Read(ip))
            case None => None
            case Some(v) => Some((FamilyOf(Read(ip)), v))
  {
    hide V4Value, V6Value, IsMappedDotted, StripZone, StripBrackets, Trim;
  }

  lemma NonemptyCaller(ip: string)
    requires V6Value(Bare(ip)).Some?
    ensures Trim(ip) != "" && ':' in Bare(ip)
  {
    AcceptedGroups(Bare(ip));
    hide V6Value;
  }

  lemma LowHalf(v: nat, w: nat, high: nat)
    requires w < 65536 * 65536 && v == high * (65536 * 65536) + w
    ensures v % (65536 * 65536) == w
  {
  }

  /** A caller that is an IPv4-mapped IPv6 address is judged as the IPv4 address it maps, if and only
      if it is spelled as "::ffff:", in either case, and a dotted quad; in every other spelling it is
      judged as the IPv6 address. */
  lemma MappedCollapsesIff(ip: string, v: nat)
    requires V6Value(Bare(ip)) == Some(v) && v / (65536 * 65536) == 65535
    ensures CallerAddress(ip) ==
            Some(if IsMappedDotted(Bare(ip)) then (V4, v % (65536 * 65536)) else (V6, v))
  {
    var u := Bare(ip);
    NonemptyCaller(ip);
    CallerOf(ip);
    hide V4Value, V6Value, IsMappedDotted, Bare, CallerAddress;
    if IsMappedDotted(u) {
      MappedNeedsQuad(u);
      MappedValue(u);
      QuadBelow(u[7..]);
      LowHalf(v, V4Value(u[7..]).value, 65535);
    }
  }

  lemma EveryAddressHits(v: nat)
    ensures Hits(Cidr(V4, 0, 0), V4, v)
  {
  }

  lemma OnlyOwnFamily(ip: string, cidrs: seq<Cidr>)
    requires Matches(ip, cidrs)
    ensures CallerAddress(ip).Some?
    ensures exists i :: 0 <= i < |cidrs| && cidrs[i].family == CallerAddress(ip).value.0
  {
    hide CallerAddress, Mask;
    var i :| 0 <= i < |cidrs| && Hits(cidrs[i], CallerAddress(ip).value.0, CallerAddress(ip).value.1);
  }

  lemma SomeV4Hits(ip: string, v: nat)
    requires CallerAddress(ip) == Some((V4, v))
    ensures Matches(ip, [Cidr(V4, 0, 0)])
  {
    EveryAddressHits(v);
    hide CallerAddress, Hits;
    assert Hits([Cidr(V4, 0, 0)][0], V4, v);
  }

  predicate AllV4(cidrs: seq<Cidr>) {
    forall i :: 0 <= i < |cidrs| ==> cidrs[i].family == V4
  }

  /** So an allowlist of IPv4 networks can let a mapped caller in exactly when it is so spelled. */
  lemma LetInByV4Iff(ip: string, v: nat)
    requires V6Value(Bare(ip)) == Some(v) && v / (65536 * 65536) == 65535
    ensures IsMappedDotted(Bare(ip)) <==> exists cidrs :: AllV4(cidrs) && Matches(ip, cidrs)
  {
    MappedCollapsesIff(ip, v);
    hide CallerAddress, IsMappedDotted, V6Value, Bare, Hits, Matches;
    if IsMappedDotted(Bare(ip)) {
      SomeV4Hits(ip, v % (65536 * 65536));
      assert AllV4([Cidr(V4, 0, 0)]);
    }
    forall cidrs | AllV4(cidrs) && Matches(ip, cidrs) ensures IsMappedDotted(Bare(ip)) {
      OnlyOwnFamily(ip, cidrs);
    }
  }
}
