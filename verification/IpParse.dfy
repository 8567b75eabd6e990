/** Reading IPv4, IPv6 and CIDR text (web/lib/ipMatch.ts). */
module IpParse {
  import opened Prelude
  import opened Text
  import opened Numerals

  datatype Family = V4 | V6

  /** A parsed network: the first `bits` bits of `value` are significant. */
  datatype Cidr = Cidr(family: Family, bits: nat, value: nat)

  function MaxBits(f: Family): nat {
    if f == V4 then 32 else 128
  }

  /** Reads `parts` as the digits of one number, most significant first. */
  function FoldParts(parts: seq<string>, base: nat, radix: nat): nat
    requires forall p :: p in parts ==> IsNumeral(p, base)
  {
    if parts == [] then 0
    else FoldParts(parts[..|parts| - 1], base, radix) * radix + Value(parts[|parts| - 1], base)
  }

  predicate IsOctet(p: string) {
    1 <= |p| <= 3 && IsNumeral(p, 10) && Value(p, 10) <= 255
  }

  predicate IsHexGroup(p: string) {
    1 <= |p| <= 4 && IsNumeral(p, 16)
  }

  /** What `parseV4` promises: exactly four octets, read in base 256. */
  function V4Value(s: string): Option<nat> {
    var parts := Split(s, '.');
    if |parts| == 4 && forall p :: p in parts ==> IsOctet(p)
    then Some(FoldParts(parts, 10, 256))
    else None
  }

  method ParseV4(s: string) returns (r: Option<nat>)
    ensures r == V4Value(s)
  {
    var parts := Split(s, '.');
    if |parts| != 4 {
      return None;
    }
    var acc := 0;
    for i := 0 to |parts|
      invariant forall p :: p in parts[..i] ==> IsOctet(p)
      invariant acc == FoldParts(parts[..i], 10, 256)
    {
      var p := parts[i];
      assert p in parts;
      if !(1 <= |p| <= 3 && IsNumeral(p, 10)) {
        return None;
      }
      var n := Value(p, 10);
      if n > 255 {
        return None;
      }
      acc := acc * 256 + n;
      assert parts[..i + 1] == parts[..i] + [p];
    }
    assert parts[..|parts|] == parts;
    r := Some(acc);
  }

  // ----- IPv6 ---------------------------------------------------------------

  predicate DoubleAt(s: string, i: int) {
    0 <= i < |s| - 1 && s[i] == ':' && s[i + 1] == ':'
  }

  function FirstDoubleFrom(s: string, i: nat): (k: int)
    ensures k == -1 || (i <= k && k + 2 <= |s|)
    decreases |s| - i
  {
    if i + 1 >= |s| then -1
    else if DoubleAt(s, i) then i
    else FirstDoubleFrom(s, i + 1)
  }

  /** Position of the first "::", or -1. */
  function FirstDouble(s: string): (k: int)
    ensures k == -1 || (0 <= k && k + 2 <= |s|)
  {
    FirstDoubleFrom(s, 0)
  }

  lemma {:induction false} FirstDoubleFromSpec(s: string, i: nat)
    ensures var k := FirstDoubleFrom(s, i);
            && (k == -1 ==> forall j :: i <= j ==> !DoubleAt(s, j))
            && (k != -1 ==> DoubleAt(s, k) && forall j :: i <= j < k ==> !DoubleAt(s, j))
    decreases |s| - i
  {
    if i + 1 < |s| && !DoubleAt(s, i) {
      FirstDoubleFromSpec(s, i + 1);
    }
  }

  /** `FirstDouble` is the first "::", and -1 exactly when there is none. */
  lemma FirstDoubleSpec(s: string)
    ensures FirstDouble(s) == -1 <==> forall j :: !DoubleAt(s, j)
    ensures FirstDouble(s) != -1 ==>
              DoubleAt(s, FirstDouble(s)) && forall j :: 0 <= j < FirstDouble(s) ==> !DoubleAt(s, j)
  {
    FirstDoubleFromSpec(s, 0);
  }

  function TailGroups(v: nat): string {
    Print(v / 65536 % 65536, 16) + ":" + Print(v % 65536, 16)
  }

  /** A dotted IPv4 tail stands for two hexadecimal groups. */
  function ExpandTail(s: string): Option<string>
    requires ':' in s
  {
    var k := LastIndexOf(s, ':');
    var tail := s[k + 1..];
    if '.' !in tail then Some(s)
    else match V4Value(tail)
      case None => None
      case Some(v) => Some(s[..k + 1] + TailGroups(v))
  }

  function SplitHalf(s: string): seq<string> {
    if s == "" then [] else Split(s, ':')
  }

  function ZeroGroups(n: nat): seq<string> {
    seq(n, _ => "0")
  }

  /** The eight groups around one "::", which stands for as many zero groups as are missing. */
  function GroupsAround(left: string, right: string): (r: Option<seq<string>>)
    ensures r.Some? ==> |r.value| == 8
  {
    var head, tail := SplitHalf(left), SplitHalf(right);
    if FirstDouble(right) != -1 || |head| + |tail| > 8 then None
    else Some(head + ZeroGroups(8 - |head| - |tail|) + tail)
  }

  /** The eight groups that a text without dotted tail writes down. */
  function Groups(work: string): (r: Option<seq<string>>)
    ensures r.Some? ==> |r.value| == 8
  {
    var k := FirstDouble(work);
    if k != -1 then GroupsAround(work[..k], work[k + 2..])
    else
      var groups := Split(work, ':');
      if |groups| == 8 then Some(groups) else None
  }

  function GroupsValue(groups: seq<string>): Option<nat> {
    if forall g :: g in groups ==> IsHexGroup(g)
    then Some(FoldParts(groups, 16, 65536))
    else None
  }

  /** What `parseV6` promises: eight hexadecimal groups, read in base 65536. */
  function V6Value(s: string): Option<nat> {
    if ':' !in s then None
    else match ExpandTail(s)
      case None => None
      case Some(work) =>
        match Groups(work)
        case None => None
        case Some(groups) =>
          GroupsValue(groups)
  }

  method ReadGroups(groups: seq<string>) returns (r: Option<nat>)
    ensures r == GroupsValue(groups)
  {
    var acc := 0;
    for i := 0 to |groups|
      invariant forall g :: g in groups[..i] ==> IsHexGroup(g)
      invariant acc == FoldParts(groups[..i], 16, 65536)
    {
      var g := groups[i];
      assert g in groups;
      if !(1 <= |g| <= 4 && IsNumeral(g, 16)) {
        return None;
      }
      acc := acc * 65536 + Value(g, 16);
      assert groups[..i + 1] == groups[..i] + [g];
    }
    assert groups[..|groups|] == groups;
    r := Some(acc);
  }

  method SplitGroups(work: string) returns (r: Option<seq<string>>)
    ensures r == Groups(work)
  {
    var head, tailGroups := [], [];
    var k := FirstDouble(work);
    if k >= 0 {
      if FirstDouble(work[k + 2..]) != -1 {
        return None;
      }
      head := SplitHalf(work[..k]);
      tailGroups := SplitHalf(work[k + 2..]);
      if |head| + |tailGroups| > 8 {
        return None;
      }
    } else {
      head := Split(work, ':');
      if |head| != 8 {
        return None;
      }
    }
    var groups := head + ZeroGroups(8 - |head| - |tailGroups|) + tailGroups;
    assert k < 0 ==> groups == head;
    r := Some(groups);
  }

  method ExpandDottedTail(s: string) returns (r: Option<string>)
    requires ':' in s
    ensures r == ExpandTail(s)
  {
    var lastColon := LastIndexOf(s, ':');
    var tail := s[lastColon + 1..];
    if '.' !in tail {
      return Some(s);
    }
    var v4 := ParseV4(tail);
    if v4.None? {
      return None;
    }
    var hi := v4.value / 65536 % 65536;
    var lo := v4.value % 65536;
    r := Some(s[..lastColon + 1] + (Print(hi, 16) + ":" + Print(lo, 16)));
  }

  method ParseV6(s: string) returns (r: Option<nat>)
    ensures r == V6Value(s)
  {
    if ':' !in s {
      return None;
    }
    var work := ExpandDottedTail(s);
    if work.None? {
      return None;
    }
    var groups := SplitGroups(work.value);
    if groups.None? {
      return None;
    }
    r := ReadGroups(groups.value);
  }

  function AddressValue(f: Family, s: string): Option<nat> {
    if f == V4 then V4Value(s) else V6Value(s)
  }

  method ParseAddress(f: Family, s: string) returns (r: Option<nat>)
    ensures r == AddressValue(f, s)
  {
    if f == V6 {
      r := ParseV6(s);
    } else {
      r := ParseV4(s);
    }
  }

  function FamilyOf(text: string): Family {
    if ':' in text then V6 else V4
  }

  // ----- masks and CIDR texts -------------------------------------------------

  function Pow2(k: nat): (p: nat)
    ensures p > 0
  {
    Power(2, k)
  }

  /** Keeps the first `bits` of `max` bits, as two shifts do. */
  function Mask(v: nat, bits: nat, max: nat): nat {
    if bits >= max then v
    else if bits == 0 then 0
    else v / Pow2(max - bits) * Pow2(max - bits)
  }

  /** The prefix length after the slash, if it is written and in range. */
  function PrefixBits(s: string, max: nat): Option<nat> {
    if 1 <= |s| <= 3 && IsNumeral(s, 10) && Value(s, 10) <= max then Some(Value(s, 10)) else None
  }

  /** The network that an address and the text after its slash, if any, denote. */
  function CidrFrom(addr: string, bitsText: Option<string>): Option<Cidr> {
    var f := FamilyOf(addr);
    var bits := if bitsText.None? then Some(MaxBits(f)) else PrefixBits(bitsText.value, MaxBits(f));
    match AddressValue(f, addr)
    case None => None
    case Some(v) =>
      if bits == None then None
      else Some(Cidr(f, bits.value, Mask(v, bits.value, MaxBits(f))))
  }

  /** `parseCidr` on text without surrounding space. */
  function CidrOf(raw: string): Option<Cidr> {
    var slash := IndexOf(raw, '/');
    if slash == -1 then CidrFrom(raw, None) else CidrFrom(raw[..slash], Some(raw[slash + 1..]))
  }

  function CidrOfText(input: string): Option<Cidr> {
    if Trim(input) == "" then None else CidrOf(Trim(input))
  }

  method ReadCidr(addr: string, bitsText: Option<string>) returns (r: Option<Cidr>)
    ensures r == CidrFrom(addr, bitsText)
  {
    var f := FamilyOf(addr);
    var v := ParseAddress(f, addr);
    if v.None? {
      return None;
    }
    var bits := MaxBits(f);
    if bitsText.Some? {
      if !(1 <= |bitsText.value| <= 3 && IsNumeral(bitsText.value, 10)) {
        return None;
      }
      bits := Value(bitsText.value, 10);
      if bits > MaxBits(f) {
        return None;
      }
    }
    r := Some(Cidr(f, bits, Mask(v.value, bits, MaxBits(f))));
  }

  method ParseCidr(input: string) returns (r: Option<Cidr>)
    ensures r == CidrOfText(input)
  {
    var raw := Trim(input);
    if raw == "" {
      return None;
    }
    var slash := IndexOf(raw, '/');
    if slash == -1 {
      r := ReadCidr(raw, None);
    } else {
      r := ReadCidr(raw[..slash], Some(raw[slash + 1..]));
    }
  }
}
