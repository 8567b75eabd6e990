/** The allowlist matcher (web/lib/ipMatch.ts). */
module IpMatch {
  import opened Prelude
  import opened Text
  import opened Numerals
  import opened IpParse
  import opened IpPrint
  import opened IpRoundTrip
  import opened IpNetwork
  import opened IpLanguage

  predicate IsDotted(s: string) {
    var parts := Split(s, '.');
    |parts| == 4 && forall p :: p in parts ==> 1 <= |p| <= 3 && IsNumeral(p, 10)
  }

  predicate IsF(c: char) {
    c == 'f' || c == 'F'
  }

  /** "::ffff:" in either case, followed by a dotted quad. */
  predicate IsMappedDotted(s: string) {
    && |s| >= 7
    && s[0] == ':' && s[1] == ':' && IsF(s[2]) && IsF(s[3]) && IsF(s[4]) && IsF(s[5]) && s[6] == ':'
    && IsDotted(s[7..])
  }

  function StripBrackets(s: string): string {
    if |s| >= 2 && s[0] == '[' && s[|s| - 1] == ']' then s[1..|s| - 1] else s
  }

  function StripZone(s: string): string {
    var k := IndexOf(s, '%');
    if k == -1 then s else s[..k]
  }

  function NormalizeIp(input: string): Option<string> {
    if Trim(input) == "" then None
    else
      var s := StripZone(StripBrackets(Trim(input)));
      Some(if IsMappedDotted(s) then s[7..] else s)
  }

  /** What the matcher tests for one entry. */
  predicate Hits(c: Cidr, f: Family, v: nat) {
    c.family == f && Mask(v, c.bits, MaxBits(f)) == c.value
  }

  /** Family and value of a caller address, if it can be read. */
  function CallerAddress(ip: string): Option<(Family, nat)> {
    match NormalizeIp(ip)
    case None => None
    case Some(norm) =>
      match AddressValue(FamilyOf(norm), norm)
      case None => None
      case Some(v) => Some((FamilyOf(norm), v))
  }

  predicate AnyHit(cidrs: seq<Cidr>, f: Family, v: nat) {
    exists i :: 0 <= i < |cidrs| && Hits(cidrs[i], f, v)
  }

  predicate Matches(ip: string, cidrs: seq<Cidr>) {
    CallerAddress(ip).Some? && AnyHit(cidrs, CallerAddress(ip).value.0, CallerAddress(ip).value.1)
  }

  method FindHit(cidrs: seq<Cidr>, f: Family, v: nat) returns (r: bool)
    ensures r == AnyHit(cidrs, f, v)
  {
    for i := 0 to |cidrs|
      invariant forall j :: 0 <= j < i ==> !Hits(cidrs[j], f, v)
    {
      if cidrs[i].family == f && Mask(v, cidrs[i].bits, MaxBits(f)) == cidrs[i].value {
        return true;
      }
    }
    r := false;
  }

  method IpMatchesAny(ip: string, cidrs: seq<Cidr>) returns (r: bool)
    ensures r == Matches(ip, cidrs)
  {
    var norm := NormalizeIp(ip);
    if norm.None? {
      return false;
    }
    var f := FamilyOf(norm.value);
    var v := ParseAddress(f, norm.value);
    if v.None? {
      return false;
    }
    r := FindHit(cidrs, f, v.value);
  }

  /** An address is let in exactly when it lies in the interval of some entry of its family. */
  lemma {:induction false} MatchingIsMembership(ip: string, cidrs: seq<Cidr>)
    requires forall i :: 0 <= i < |cidrs| ==> Valid(cidrs[i])
    ensures Matches(ip, cidrs) <==>
              CallerAddress(ip).Some? &&
              exists i :: 0 <= i < |cidrs| && cidrs[i].family == CallerAddress(ip).value.0 &&
                          Member(cidrs[i], CallerAddress(ip).value.1)
  {
    if CallerAddress(ip).Some? {
      var (f, v) := CallerAddress(ip).value;
      AddressInRange(f, NormalizeIp(ip).value);
      forall i | 0 <= i < |cidrs| && cidrs[i].family == f
        ensures Hits(cidrs[i], f, v) <==> Member(cidrs[i], v)
      {
        MaskTestIsMembership(cidrs[i], v);
      }
    }
  }

  // ----- IPv4-mapped callers ------------------------------------------------------

  /** Text that needs no normalising: no space, bracket or zone. */
  predicate Plain(s: string) {
    s != "" && forall c :: c in s ==> DigitValue(c) < 16 || c == ':' || c == '.'
  }

  lemma PlainTrims(s: string)
    requires Plain(s)
    ensures Trim(s) == s && StripBrackets(s) == s && StripZone(s) == s
  {
    assert s[0] in s && s[|s| - 1] in s;
    assert '%' !in s;
  }

  lemma PlainNormalizes(s: string)
    requires Plain(s)
    ensures Trim(s) == s
    ensures NormalizeIp(s) == Some(if IsMappedDotted(s) then s[7..] else s)
  {
    PlainTrims(s);
    hide Trim, StripBrackets, StripZone, IsMappedDotted, DigitValue;
  }

  lemma DottedIsPlain(d: string)
    requires IsDotted(d)
    ensures Plain(d) && ':' !in d
  {
    DecimalJoinChars(d);
    assert Split("", '.') == [""];
  }

  lemma DottedNormalizes(d: string)
    requires IsDotted(d)
    ensures NormalizeIp(d) == Some(d)
  {
    DottedIsPlain(d);
    PlainNormalizes(d);
    assert d[0] in d;
  }

  lemma MappedNormalizes(s: string)
    requires IsMappedDotted(s)
    ensures NormalizeIp(s) == Some(s[7..])
  {
    DottedIsPlain(s[7..]);
    MappedIsPlain(s);
    hide Plain, DigitValue, NormalizeIp, IsMappedDotted;
    PlainNormalizes(s);
  }

  lemma MappedIsPlain(s: string)
    requires IsMappedDotted(s) && Plain(s[7..])
    ensures Plain(s)
  {
    hide IsDotted;
    assert s == s[..7] + s[7..];
    forall i | 0 <= i < 7 ensures s[..7][i] == ':' || IsF(s[..7][i]) {
      assert s[..7][i] == s[i];
    }
    assert forall c :: c in s[..7] ==> DigitValue(c) < 16 || c == ':';
  }

  /** A caller on a dual-stack socket is judged exactly as its IPv4 form. */
  lemma {:induction false} MappedAnswersAsV4(s: string, cidrs: seq<Cidr>)
    requires IsMappedDotted(s)
    ensures Matches(s, cidrs) == Matches(s[7..], cidrs)
  {
    DottedNormalizes(s[7..]);
    MappedNormalizes(s);
  }

  lemma V6CallerNeverHitsV4(ip: string, cidrs: seq<Cidr>)
    requires NormalizeIp(ip).Some? && ':' in NormalizeIp(ip).value
    requires forall i :: 0 <= i < |cidrs| ==> cidrs[i].family == V4
    ensures !Matches(ip, cidrs)
  {
  }

  /** The same caller written in hexadecimal is not collapsed: no IPv4 entry lets it in. */
  lemma {:induction false} HexMappedNeverMatchesV4(v: nat, cidrs: seq<Cidr>)
    requires v / Pow2(32) == 0xffff
    requires forall i :: 0 <= i < |cidrs| ==> cidrs[i].family == V4
    ensures !Matches(AddressText(V6, v), cidrs)
  {
    assert v < Pow2(128) by {
      MappedInRange(v);
    }
    HexTextNormalizes(v);
    V6CallerNeverHitsV4(AddressText(V6, v), cidrs);
  }

  lemma {:induction false} HexTextNormalizes(v: nat)
    requires v < Pow2(128)
    ensures ':' in AddressText(V6, v)
    ensures NormalizeIp(AddressText(V6, v)) == Some(AddressText(V6, v))
  {
    var t := AddressText(V6, v);
    V6RoundTrip(v);
    forall c | c in t ensures DigitValue(c) < 16 || c == ':' {
      AddressChars(V6, v, c);
    }
    PlainNormalizes(t);
    NoDotNoMapping(t);
  }

  lemma MappedInRange(v: nat)
    requires v / Pow2(32) == 0xffff
    ensures v < Pow2(128)
  {
    Division.Bounds(v, Pow2(32));
    AddressWidths();
    PowerSum(2, 16, 32);
    PowerMonotone(48, 128);
  }

  lemma {:induction false} NoDotNoMapping(t: string)
    requires '.' !in t
    ensures !IsMappedDotted(t)
  {
    if |t| >= 7 {
      assert '.' !in t[7..];
      assert Split(t[7..], '.') == [t[7..]];
    }
  }

  // ----- an address always matches its own entry, unless it is a dotted mapped one ------

  /** Allowlisting an address lets that address in, except when it is written as "::ffff:" and a
      dotted quad: then the entry is IPv6 but the caller is judged as IPv4. */
  lemma {:induction false} OwnEntryMatches(s: string)
    requires '/' !in Trim(s) && CidrOfText(s).Some?
    ensures Matches(s, [CidrOfText(s).value]) <==> !IsMappedDotted(Trim(s))
  {
    var t := Trim(s);
    var f := FamilyOf(t);
    var c := CidrOfText(s).value;
    assert c == Cidr(f, MaxBits(f), AddressValue(f, t).value);
    assert Plain(t) by {
      if f == V4 {
        QuadChars(t);
      } else {
        AcceptedChars(t);
      }
    }
    PlainNormalizes(t);
    assert NormalizeIp(s) == NormalizeIp(t);
    if IsMappedDotted(t) {
      DottedIsPlain(t[7..]);
      assert t[0] == ':';
    } else {
      assert Hits([c][0], f, AddressValue(f, t).value);
    }
  }
}
