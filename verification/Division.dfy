/** Integer facts about division by products. */
module Division {
  lemma {:induction false} Unique(v: nat, d: nat, q: nat)
    requires q * d <= v < (q + 1) * d
    ensures d > 0 && v / d == q
  {
    assert d > 0 by {
      assert (q + 1) * d == q * d + d;
    }
    var p := v / d;
    assert p * d <= v < (p + 1) * d;
    assert p < q ==> (p + 1) * d <= q * d;
    assert q < p ==> (q + 1) * d <= p * d;
  }

  lemma MulLe(a: nat, b: nat, c: nat)
    requires a <= b
    ensures a * c <= b * c
  {
  }

  lemma Bounds(v: nat, d: nat)
    requires d > 0
    ensures v / d * d <= v < (v / d + 1) * d
  {
  }

  lemma {:induction false} Nested(v: nat, a: nat, b: nat)
    requires a > 0 && b > 0
    ensures a * b > 0
    ensures v / (a * b) == (v / b) / a
  {
    var w := v / b;
    var q := w / a;
    Bounds(v, b);
    Bounds(w, a);
    MulLe(q * a, w, b);
    MulLe(w + 1, (q + 1) * a, b);
    Associate(q, a, b);
    Associate(q + 1, a, b);
    Unique(v, a * b, q);
  }

  lemma Associate(x: nat, y: nat, z: nat)
    ensures (x * y) * z == x * (y * z)
  {
  }
}
