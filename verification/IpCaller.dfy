/** The ways in which a caller address may be written (web/lib/ipMatch.ts). */
module IpCaller {
  import opened Text
  import opened Numerals
  import opened IpParse
  import opened IpMatch
  import opened IpCase
  import opened IpGrammar

  /** An address as it stands between the brackets and before the zone. */
  ghost predicate Unwrapped(a: string) {
    a != "" && Trim(a) == a && a[0] != '[' && '%' !in a
  }

  lemma UnwrappedIsKept(a: string)
    requires Unwrapped(a)
    ensures StripZone(StripBrackets(a)) == a
  {
  }

  lemma TrimOfSolid(s: string)
    requires s != "" && !IsSpace(s[0]) && !IsSpace(s[|s| - 1])
    ensures Trim(s) == s
  {
  }

  lemma BracketsGo(t: string)
    requires t != ""
    ensures Trim("[" + t + "]") == "[" + t + "]" && StripBrackets("[" + t + "]") == t
  {
    var s := "[" + t + "]";
    assert s[0] == '[' && s[|s| - 1] == ']';
    TrimOfSolid(s);
    assert s[1..|s| - 1] == t;
  }

  lemma PercentAt(a: string, zone: string)
    requires '%' !in a
    ensures IndexOf(a + "%" + zone, '%') == |a|
  {
    hide IndexOf;
    var s := a + "%" + zone;
    var k := IndexOf(s, '%');
    assert s[|a|] == '%';
    NoneBefore(s, '%', k);
    assert forall i :: 0 <= i < |a| ==> s[i] == a[i];
  }

  lemma ZoneGoes(a: string, zone: string)
    requires '%' !in a
    ensures StripZone(a + "%" + zone) == a
  {
    PercentAt(a, zone);
    assert (a + "%" + zone)[..|a|] == a;
  }

  /** Trimming an address with a zone leaves the address and the percent sign. */
  lemma ZoneTrims(a: string, zone: string)
    requires a != "" && !IsSpace(a[0])
    ensures exists z: string :: Trim(a + "%" + zone) == a + "%" + z
  {
    hide Trim, IsSpace;
    var s := a + "%" + zone;
    TrimCuts(s);
    var i, j :| 0 <= i <= j <= |s| && CutTo(s, i, j);
    assert s[0] == a[0] && s[|a|] == '%';
    assert !IsSpace('%') by {
      PercentIsSolid();
    }
    assert i == 0 && j > |a|;
    var z := s[|a| + 1..j];
    assert s[..j] == a + "%" + z;
  }

  lemma PercentIsSolid()
    ensures !IsSpace('%')
  {
  }

  lemma StartsSolid(a: string)
    requires Unwrapped(a)
    ensures !IsSpace(a[0])
  {
  }

  lemma NoBrackets(a: string, z: string)
    requires a != "" && a[0] != '['
    ensures StripBrackets(a + "%" + z) == a + "%" + z
  {
  }

  /** Brackets, a zone, or both around an address do not matter. */
  lemma WrappingIsIgnored(a: string, zone: string, cidrs: seq<Cidr>)
    requires Unwrapped(a)
    ensures Matches("[" + a + "]", cidrs) == Matches(a, cidrs)
    ensures Matches(a + "%" + zone, cidrs) == Matches(a, cidrs)
    ensures Matches("[" + (a + "%" + zone) + "]", cidrs) == Matches(a, cidrs)
  {
    UnwrappedIsKept(a);
    BracketsGo(a);
    BracketsGo(a + "%" + zone);
    ZoneGoes(a, zone);
    StartsSolid(a);
    ZoneTrims(a, zone);
    var z: string :| Trim(a + "%" + zone) == a + "%" + z;
    NoBrackets(a, z);
    ZoneGoes(a, z);
    hide Trim, StripBrackets, StripZone, IsMappedDotted, CallerAddress, AnyHit;
    SameNormal("[" + a + "]", a);
    SameNormal(a + "%" + zone, a);
    SameNormal("[" + (a + "%" + zone) + "]", a);
  }

  lemma SameNormal(s: string, a: string)
    requires Trim(s) != "" && Trim(a) != ""
    requires StripZone(StripBrackets(Trim(s))) == StripZone(StripBrackets(Trim(a)))
    ensures CallerAddress(s) == CallerAddress(a)
  {
  }

  // ----- callers that are judged as IPv4 ---------------------------------------------------------

  /** Four numbers of one to three digits, of any size, with dots between them. */
  ghost predicate Dotted(s: string, a: string, b: string, c: string, d: string) {
    && s == a + "." + b + "." + c + "." + d
    && ShortDecimal(a) && ShortDecimal(b) && ShortDecimal(c) && ShortDecimal(d)
  }

  lemma DecimalHasNoDot(p: string)
    requires ShortDecimal(p)
    ensures '.' !in p
  {
  }

  lemma DottedIff(s: string)
    ensures IsDotted(s) <==> exists a, b, c, d :: Dotted(s, a, b, c, d)
  {
    hide Split, Join, ShortDecimal, IsNumeral;
    if IsDotted(s) {
      var parts := Split(s, '.');
      JoinSplit(s, '.');
      var a, b, c, d := parts[0], parts[1], parts[2], parts[3];
      assert parts == [a, b, c, d];
      JoinFour(a, b, c, d);
      DecimalIff(a);
      DecimalIff(b);
      DecimalIff(c);
      DecimalIff(d);
      assert Dotted(s, a, b, c, d);
    }
    forall a, b, c, d | Dotted(s, a, b, c, d) ensures IsDotted(s) {
      DecimalHasNoDot(a);
      DecimalHasNoDot(b);
      DecimalHasNoDot(c);
      DecimalHasNoDot(d);
      QuadSplits(s, a, b, c, d);
      DecimalIff(a);
      DecimalIff(b);
      DecimalIff(c);
      DecimalIff(d);
    }
  }

  lemma PrefixIff(p: string)
    requires |p| == 7
    ensures Lower(p) == "::ffff:" <==>
              p[0] == ':' && p[1] == ':' && IsF(p[2]) && IsF(p[3]) && IsF(p[4]) && IsF(p[5]) && p[6] == ':'
  {
    var q := Lower(p);
    assert q == [q[0], q[1], q[2], q[3], q[4], q[5], q[6]];
    LowerIsF(p[2]);
    LowerIsF(p[3]);
    LowerIsF(p[4]);
    LowerIsF(p[5]);
  }

  lemma LowerIsF(c: char)
    ensures LowerChar(c) == 'f' <==> IsF(c)
    ensures LowerChar(c) == ':' <==> c == ':'
  {
  }

  /** Exactly the texts "::ffff:", in either case, with a dotted quad behind it are judged as IPv4. */
  lemma MappedDottedIff(s: string)
    ensures IsMappedDotted(s) <==>
              exists p, a, b, c, d :: |p| == 7 && Lower(p) == "::ffff:" && |s| >= 7 && s == p + s[7..] &&
                                      Dotted(s[7..], a, b, c, d)
  {
    hide IsDotted, Dotted, Lower, IsF;
    if |s| >= 7 {
      DottedIff(s[7..]);
      assert s == s[..7] + s[7..];
      PrefixIff(s[..7]);
    }
    forall p | |p| == 7 && |s| >= 7 && s == p + s[7..] ensures p == s[..7] {
    }
  }
}
