/** Positional numerals: `toString(base)` and the values that digit strings denote. */
module Numerals {
  function Digit(d: nat): char
    requires d < 16
  {
    "0123456789abcdef"[d]
  }

  /** Value of a digit in either case; 99 for any other character. */
  function DigitValue(c: char): nat {
    if '0' <= c <= '9' then (c as int) - ('0' as int)
    else if 'a' <= c <= 'f' then (c as int) - ('a' as int) + 10
    else if 'A' <= c <= 'F' then (c as int) - ('A' as int) + 10
    else 99
  }

  predicate IsNumeral(s: string, base: nat) {
    forall c :: c in s ==> DigitValue(c) < base
  }

  function Print(n: nat, base: nat): (s: string)
    requires 2 <= base <= 16
    ensures s != ""
  {
    if n < base then [Digit(n)] else Print(n / base, base) + [Digit(n % base)]
  }

  function Value(s: string, base: nat): nat
    requires IsNumeral(s, base)
  {
    if s == "" then 0
    else Value(s[..|s| - 1], base) * base + DigitValue(s[|s| - 1])
  }

  lemma DigitRoundTrip(d: nat)
    requires d < 16
    ensures DigitValue(Digit(d)) == d
  {
  }

  lemma {:induction false} DivMod(n: nat, b: nat)
    requires b > 0
    ensures (n / b) * b + n % b == n
    ensures 0 <= n % b < b
    ensures n >= b >= 2 ==> 0 <= n / b < n
  {
    var q := n / b;
    if b >= 2 && q >= 1 {
      assert q * b >= q * 2;
    }
  }

  /** Reading a printed number gives the number back, in every base. */
  lemma {:induction false} ValueOfPrint(n: nat, base: nat)
    requires 2 <= base <= 16
    ensures IsNumeral(Print(n, base), base)
    ensures Value(Print(n, base), base) == n
    decreases n
  {
    if n < base {
      DigitRoundTrip(n);
      assert "" + [Digit(n)] == [Digit(n)];
    } else {
      DivMod(n, base);
      var q, d := n / base, n % base;
      ValueOfPrint(q, base);
      DigitRoundTrip(d);
      assert Print(n, base) == Print(q, base) + [Digit(d)];
    }
  }

  function Power(base: nat, k: nat): (p: nat)
    ensures base > 0 ==> p > 0
  {
    if k == 0 then 1 else base * Power(base, k - 1)
  }

  lemma {:induction false} PrintLength(n: nat, base: nat, k: nat)
    requires 2 <= base <= 16 && k >= 1 && n < Power(base, k)
    ensures |Print(n, base)| <= k
    decreases k
  {
    if n >= base {
      assert k > 1 by {
        assert Power(base, 1) == base * Power(base, 0);
      }
      assert n / base < Power(base, k - 1) by {
        DivBound(n, base, Power(base, k - 1));
      }
      PrintLength(n / base, base, k - 1);
    }
  }

  lemma {:induction false} DivBound(n: nat, b: nat, m: nat)
    requires b > 0 && n < b * m
    ensures n / b < m
  {
    var q := n / b;
    assert q >= m ==> b * q >= b * m;
  }

  lemma {:induction false} ValueBound(s: string, base: nat)
    requires IsNumeral(s, base)
    ensures Value(s, base) < Power(base, |s|)
  {
    if s != "" {
      var t := s[..|s| - 1];
      ValueBound(t, base);
      var c := s[|s| - 1];
      assert c in s;
      BoundStep(Value(t, base), DigitValue(c), base, Power(base, |t|));
    }
  }

  lemma {:induction false} BoundStep(v: nat, d: nat, b: nat, p: nat)
    requires v < p && d < b
    ensures v * b + d < b * p
  {
    assert (v + 1) * b <= p * b;
  }
}
