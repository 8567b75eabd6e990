/** Networks as address intervals: range, masks, nesting (web/lib/ipMatch.ts). */
module IpNetwork {
  import opened Prelude
  import opened Text
  import opened Numerals
  import opened IpParse
  import opened IpRoundTrip
  import Division

  lemma {:induction false} FoldBound(parts: seq<string>, base: nat, radix: nat)
    requires forall p :: p in parts ==> IsNumeral(p, base) && Value(p, base) < radix
    ensures FoldParts(parts, base, radix) < Power(radix, |parts|)
  {
    if parts != [] {
      var init, last := parts[..|parts| - 1], parts[|parts| - 1];
      FoldBound(init, base, radix);
      assert last in parts;
      BoundStep(FoldParts(init, base, radix), Value(last, base), radix, Power(radix, |init|));
    }
  }

  /** Every accepted address fits its family's width. */
  lemma AddressInRange(f: Family, s: string)
    ensures AddressValue(f, s).Some? ==> AddressValue(f, s).value < Pow2(MaxBits(f))
  {
    AddressWidths();
    if f == V4 {
      if V4Value(s).Some? {
        FoldBound(Split(s, '.'), 10, 256);
      }
    } else if V6Value(s).Some? {
      var groups := Groups(ExpandTail(s).value).value;
      forall g | g in groups ensures Value(g, 16) < 65536 {
        HexGroupBound(g);
      }
      FoldBound(groups, 16, 65536);
    }
  }

  lemma HexGroupBound(g: string)
    requires IsHexGroup(g)
    ensures Value(g, 16) < 65536
  {
    ValueBound(g, 16);
    assert Power(16, 1) == 16 && Power(16, 2) == 256 && Power(16, 3) == 4096 && Power(16, 4) == 65536;
  }

  // ----- masks ----------------------------------------------------------------

  /** On in-range addresses a mask is rounding down to a multiple of the block size. */
  lemma {:induction false} MaskIsRounding(v: nat, bits: nat, max: nat)
    requires bits <= max && v < Pow2(max)
    ensures Mask(v, bits, max) == v / Pow2(max - bits) * Pow2(max - bits)
    ensures Mask(v, bits, max) <= v < Mask(v, bits, max) + Pow2(max - bits)
  {
    if bits == max {
      assert Pow2(0) == 1;
    } else if bits == 0 {
      Division.Unique(v, Pow2(max), 0);
    }
    Division.Bounds(v, Pow2(max - bits));
  }

  lemma {:induction false} RoundDown(v: nat, a: nat, b: nat)
    requires a > 0 && b > 0
    ensures a * b > 0 && (v / b * b) / (a * b) == v / (a * b)
  {
    Division.Nested(v, a, b);
    Division.Nested(v / b * b, a, b);
    Division.Unique(v / b * b, b, v / b);
  }

  lemma {:induction false} RoundUp(v: nat, a: nat, b: nat)
    requires a > 0 && b > 0
    ensures a * b > 0 && (v / (a * b) * (a * b)) / b * b == v / (a * b) * (a * b)
  {
    var q := v / (a * b);
    Division.Associate(q, a, b);
    Division.Unique(q * a * b, b, q * a);
  }

  /** Masking twice is masking once with the shorter prefix. */
  lemma {:induction false} MasksCompose(v: nat, a: nat, b: nat, max: nat)
    requires a <= max && b <= max && v < Pow2(max)
    ensures Mask(Mask(v, a, max), b, max) == Mask(v, Min(a, b), max)
  {
    MaskIsRounding(v, a, max);
    MaskIsRounding(v, Min(a, b), max);
    MaskIsRounding(Mask(v, a, max), b, max);
    if a <= b {
      PowerSum(2, b - a, max - b);
      RoundUp(v, Pow2(b - a), Pow2(max - b));
    } else {
      PowerSum(2, a - b, max - a);
      RoundDown(v, Pow2(a - b), Pow2(max - a));
    }
  }

  lemma {:induction false} MaskedIsValid(f: Family, bits: nat, v: nat)
    requires bits <= MaxBits(f) && v < Pow2(MaxBits(f))
    ensures Valid(Cidr(f, bits, Mask(v, bits, MaxBits(f))))
  {
    MaskIsRounding(v, bits, MaxBits(f));
    MasksCompose(v, bits, bits, MaxBits(f));
  }

  lemma CidrFromIsValid(addr: string, bitsText: Option<string>)
    ensures CidrFrom(addr, bitsText).Some? ==> Valid(CidrFrom(addr, bitsText).value)
  {
    var f := FamilyOf(addr);
    if CidrFrom(addr, bitsText).Some? {
      AddressInRange(f, addr);
      MaskedIsValid(f, CidrFrom(addr, bitsText).value.bits, AddressValue(f, addr).value);
    }
  }

  /** `parseCidr` only ever produces masked networks in range. */
  lemma ParsedIsValid(input: string)
    ensures CidrOfText(input).Some? ==> Valid(CidrOfText(input).value)
  {
    var raw := Trim(input);
    var slash := IndexOf(raw, '/');
    if slash == -1 {
      CidrFromIsValid(raw, None);
    } else {
      CidrFromIsValid(raw[..slash], Some(raw[slash + 1..]));
    }
  }

  // ----- networks as intervals --------------------------------------------------

  function Size(c: Cidr): (n: nat)
    requires c.bits <= MaxBits(c.family)
    ensures n > 0
  {
    Pow2(MaxBits(c.family) - c.bits)
  }

  /** The addresses a network denotes. */
  predicate Member(c: Cidr, v: nat)
    requires Valid(c)
  {
    c.value <= v < c.value + Size(c)
  }

  /** Two values round down to the same multiple exactly when one lies in the block of the other. */
  lemma SameBlock(v: nat, start: nat, p: nat)
    requires p > 0 && start / p * p == start
    ensures v / p * p == start <==> start <= v < start + p
  {
    var q := start / p;
    if start <= v < start + p {
      assert (q + 1) * p == q * p + p;
      Division.Unique(v, p, q);
    } else {
      Division.Bounds(v, p);
      assert (v / p + 1) * p == v / p * p + p;
    }
  }

  /** The mask test that the matcher runs is interval membership. */
  lemma {:induction false} MaskTestIsMembership(c: Cidr, v: nat)
    requires Valid(c) && v < Pow2(MaxBits(c.family))
    ensures Mask(v, c.bits, MaxBits(c.family)) == c.value <==> Member(c, v)
  {
    var max := MaxBits(c.family);
    hide Mask, Pow2;
    MaskIsRounding(v, c.bits, max);
    MaskIsRounding(c.value, c.bits, max);
    SameBlock(v, c.value, Size(c));
  }

  predicate Subnet(c: Cidr, d: Cidr)
    requires Valid(c) && Valid(d)
  {
    d.value <= c.value && c.value + Size(c) <= d.value + Size(d)
  }

  lemma StartsInside(c: Cidr, d: Cidr, v: nat)
    requires Valid(c) && Valid(d) && c.family == d.family && c.bits <= d.bits
    requires v < Pow2(MaxBits(c.family)) && Member(c, v) && Member(d, v)
    ensures d.value < Pow2(MaxBits(c.family)) && Member(c, d.value)
  {
    MaskTestIsMembership(c, v);
    MaskTestIsMembership(d, v);
    MasksCompose(v, d.bits, c.bits, MaxBits(c.family));
    MaskTestIsMembership(c, d.value);
  }

  lemma {:induction false} Aligned(c: Cidr)
    requires Valid(c)
    ensures (c.value / Size(c)) * Size(c) == c.value
  {
    MaskIsRounding(c.value, c.bits, MaxBits(c.family));
  }

  lemma SizeRatio(c: Cidr, d: Cidr)
    requires c.family == d.family && c.bits <= d.bits <= MaxBits(c.family)
    ensures Size(c) == Pow2(d.bits - c.bits) * Size(d)
  {
    PowerSum(2, d.bits - c.bits, MaxBits(c.family) - d.bits);
  }

  lemma EndsInside(c: Cidr, d: Cidr)
    requires Valid(c) && Valid(d) && c.family == d.family && c.bits <= d.bits
    requires Member(c, d.value)
    ensures Subnet(d, c)
  {
    Aligned(c);
    Aligned(d);
    SizeRatio(c, d);
    hide Size, Pow2, Valid;
    EndFits(c.value, Size(c), d.value, Size(d), Pow2(d.bits - c.bits));
  }

  lemma EndFits(cv: nat, size: nat, dv: nat, p: nat, k: nat)
    requires k > 0 && p > 0 && size == k * p
    requires cv / size * size == cv && dv / p * p == dv && cv <= dv < cv + size
    ensures dv + p <= cv + size
  {
    BlockFits(cv / size, dv / p, k, p);
  }

  lemma NestedWhenShorter(c: Cidr, d: Cidr, v: nat)
    requires Valid(c) && Valid(d) && c.family == d.family && c.bits <= d.bits
    requires v < Pow2(MaxBits(c.family)) && Member(c, v) && Member(d, v)
    ensures Subnet(d, c)
  {
    StartsInside(c, d, v);
    EndsInside(c, d);
  }

  /** A small block that starts inside an aligned large block ends inside it. */
  lemma {:induction false} BlockFits(big: nat, small: nat, k: nat, p: nat)
    requires p > 0 && k > 0
    requires big * (k * p) <= small * p < big * (k * p) + k * p
    ensures small * p + p <= big * (k * p) + k * p
  {
    Division.Associate(big, k, p);
    assert (big * k + k) * p == big * (k * p) + k * p;
    if small >= big * k + k {
      Division.MulLe(big * k + k, small, p);
    }
    Division.MulLe(small + 1, big * k + k, p);
    assert (small + 1) * p == small * p + p;
  }

  /** Two networks of one family are nested or share no address. */
  lemma {:induction false} NestedOrDisjoint(c: Cidr, d: Cidr)
    requires Valid(c) && Valid(d) && c.family == d.family
    ensures Subnet(c, d) || Subnet(d, c) || forall v :: !(Member(c, v) && Member(d, v))
  {
    if v :| Member(c, v) && Member(d, v) {
      MemberInRange(c, v);
      if c.bits <= d.bits {
        NestedWhenShorter(c, d, v);
      } else {
        NestedWhenShorter(d, c, v);
      }
    }
  }

  lemma MemberInRange(c: Cidr, v: nat)
    requires Valid(c) && Member(c, v)
    ensures v < Pow2(MaxBits(c.family))
  {
    var max := MaxBits(c.family);
    PowerSum(2, c.bits, max - c.bits);
    MaskIsRounding(c.value, c.bits, max);
    BlockFits(0, c.value / Size(c), Pow2(c.bits), Size(c));
  }

  lemma {:induction false} PowerMonotone(j: nat, k: nat)
    requires j < k
    ensures Pow2(j) < Pow2(k)
  {
    if j + 1 < k {
      PowerMonotone(j, k - 1);
    }
    assert Pow2(k) == 2 * Pow2(k - 1);
  }

  /** A network is determined by the addresses it denotes. */
  lemma NetworkDetermined(c: Cidr, d: Cidr)
    requires Valid(c) && Valid(d) && c.family == d.family
    requires forall v :: Member(c, v) <==> Member(d, v)
    ensures c == d
  {
    assert Member(c, c.value) && Member(d, d.value);
    assert Member(c, c.value + Size(c) - 1) && Member(d, d.value + Size(d) - 1);
    assert Size(c) == Size(d);
    var max := MaxBits(c.family);
    if c.bits < d.bits {
      PowerMonotone(max - d.bits, max - c.bits);
    } else if d.bits < c.bits {
      PowerMonotone(max - c.bits, max - d.bits);
    }
  }
}
