/** JSON values with their object keys in order (web/lib/evidencePack.ts). */
module CanonicalJson {
  import opened Sorting

  /** `Token` stands for a number, a boolean or null, as JSON writes it. */
  datatype Value = Text(chars: string) | Token(text: string) | Array(items: seq<Value>) | Object(fields: seq<Field>)

  datatype Field = Field(key: string, value: Value)

  /** Lexicographic order of the characters, the default order of `sort`. */
  predicate Leq(a: string, b: string) {
    if a == "" then true
    else if b == "" then false
    else if a[0] != b[0] then a[0] < b[0]
    else Leq(a[1..], b[1..])
  }

  predicate ByKey(a: Field, b: Field) {
    Leq(a.key, b.key)
  }

  /** The value rebuilt with the keys of every object in order. */
  function SortKeys(v: Value): Value
    decreases v
  {
    match v
    case Text(_) => v
    case Token(_) => v
    case Array(items) => Array(SortItems(items))
    case Object(fields) => Object(Sort(SortFields(fields), ByKey))
  }

  function SortItems(items: seq<Value>): seq<Value>
    decreases items
  {
    if items == [] then [] else [SortKeys(items[0])] + SortItems(items[1..])
  }

  function SortFields(fields: seq<Field>): seq<Field>
    decreases fields
  {
    if fields == [] then [] else [Field(fields[0].key, SortKeys(fields[0].value))] + SortFields(fields[1..])
  }

  ghost predicate DistinctKeys(fields: seq<Field>) {
    forall i, j :: 0 <= i < j < |fields| ==> fields[i].key != fields[j].key
  }

  predicate IsTokenChar(c: char) {
    '0' <= c <= '9' || 'a' <= c <= 'z' || 'A' <= c <= 'Z' || c == '-' || c == '+' || c == '.'
  }

  predicate IsToken(t: string) {
    t != "" && forall i :: 0 <= i < |t| ==> IsTokenChar(t[i])
  }

  /** No object has a key twice, at any depth. */
  ghost predicate Valid(v: Value)
    decreases v
  {
    match v
    case Text(_) => true
    case Token(t) => IsToken(t)
    case Array(items) => forall i :: 0 <= i < |items| ==> Valid(items[i])
    case Object(fields) => DistinctKeys(fields) && forall i :: 0 <= i < |fields| ==> Valid(fields[i].value)
  }

  /** The same value up to the order of object keys: every key of every object is bound, at every
      depth, to the same thing. */
  ghost predicate Same(v: Value, w: Value)
    decreases v
  {
    match v
    case Text(_) => v == w
    case Token(_) => v == w
    case Array(items) =>
      w.Array? && |items| == |w.items| && forall i :: 0 <= i < |items| ==> Same(items[i], w.items[i])
    case Object(fields) =>
      && w.Object? && |fields| == |w.fields|
      && forall i :: 0 <= i < |fields| ==> Bound(fields[i], w.fields)
  }

  ghost predicate Bound(f: Field, fields: seq<Field>)
    decreases f
  {
    exists j :: 0 <= j < |fields| && fields[j].key == f.key && Same(f.value, fields[j].value)
  }

  /** The first character that differs is smaller in `a`, or `a` is a prefix of `b`. */
  ghost predicate Ascends(a: string, b: string) {
    a <= b || exists k: nat :: DiffersUp(a, b, k)
  }

  ghost predicate DiffersUp(a: string, b: string, k: nat) {
    k < |a| && k < |b| && a[..k] == b[..k] && a[k] < b[k]
  }

  /** The keys of every object ascend. */
  ghost predicate Ordered(v: Value)
    decreases v
  {
    match v
    case Text(_) => true
    case Token(_) => true
    case Array(items) => forall i :: 0 <= i < |items| ==> Ordered(items[i])
    case Object(fields) =>
      && (forall i, j :: 0 <= i < j < |fields| ==> Ascends(fields[i].key, fields[j].key))
      && forall i :: 0 <= i < |fields| ==> Ordered(fields[i].value)
  }

  // ----- the order of keys ---------------------------------------------------------------------

  lemma {:induction false} LeqTotal(a: string, b: string)
    ensures Leq(a, b) || Leq(b, a)
    ensures Leq(a, b) && Leq(b, a) ==> a == b
    decreases |a|
  {
    if a != "" && b != "" && a[0] == b[0] {
      LeqTotal(a[1..], b[1..]);
      assert a == [a[0]] + a[1..] && b == [b[0]] + b[1..];
    }
  }

  lemma {:induction false} LeqTransitive(a: string, b: string, c: string)
    requires Leq(a, b) && Leq(b, c)
    ensures Leq(a, c)
    decreases |a|
  {
    if a != "" && a[0] == b[0] && b[0] == c[0] {
      LeqTransitive(a[1..], b[1..], c[1..]);
    }
  }

  lemma {:induction false} LeqAscends(a: string, b: string)
    ensures Leq(a, b) ==> Ascends(a, b)
    decreases |a|
  {
    if a != "" && b != "" && a[0] == b[0] {
      LeqAscends(a[1..], b[1..]);
      assert a == [a[0]] + a[1..] && b == [b[0]] + b[1..];
      if Leq(a, b) && !(a[1..] <= b[1..]) {
        var k: nat :| DiffersUp(a[1..], b[1..], k);
        assert a[..k + 1] == [a[0]] + a[1..][..k] && b[..k + 1] == [b[0]] + b[1..][..k];
        assert DiffersUp(a, b, k + 1);
      }
    } else if a != "" && b != "" {
      assert Leq(a, b) ==> DiffersUp(a, b, 0);
    }
  }

  lemma {:induction false} AscendsLeq(a: string, b: string)
    ensures Ascends(a, b) ==> Leq(a, b)
    decreases |a|
  {
    if a != "" && b != "" && a[0] == b[0] {
      AscendsLeq(a[1..], b[1..]);
      if a <= b {
        assert a[1..] <= b[1..];
      } else if Ascends(a, b) {
        var k: nat :| DiffersUp(a, b, k);
        assert a[1..][..k - 1] == a[..k][1..] && b[1..][..k - 1] == b[..k][1..];
        assert DiffersUp(a[1..], b[1..], k - 1);
      }
    }
  }

  /** The order of keys goes by the first character that differs. */
  lemma LeqIff(a: string, b: string)
    ensures Leq(a, b) <==> Ascends(a, b)
  {
    LeqAscends(a, b);
    AscendsLeq(a, b);
  }

  lemma SortedIff(fields: seq<Field>)
    ensures SortedBy(fields, ByKey) <==>
              forall i, j :: 0 <= i < j < |fields| ==> Ascends(fields[i].key, fields[j].key)
  {
    hide Leq, Ascends;
    forall i, j | 0 <= i < j < |fields|
      ensures ByKey(fields[i], fields[j]) <==> Ascends(fields[i].key, fields[j].key)
    {
      LeqIff(fields[i].key, fields[j].key);
    }
  }

  lemma ByKeyIsAnOrder()
    ensures TotalPreorder(ByKey)
  {
    forall a, b ensures ByKey(a, b) || ByKey(b, a) {
      LeqTotal(a.key, b.key);
    }
    forall a, b, c | ByKey(a, b) && ByKey(b, c) ensures ByKey(a, c) {
      LeqTransitive(a.key, b.key, c.key);
    }
  }

  // ----- fields and items one by one -----------------------------------------------------------

  function Sorted(f: Field): Field {
    Field(f.key, SortKeys(f.value))
  }

  lemma {:induction false} ItemsAt(items: seq<Value>)
    ensures |SortItems(items)| == |items|
    ensures forall i :: 0 <= i < |items| ==> SortItems(items)[i] == SortKeys(items[i])
  {
    if items != [] {
      ItemsAt(items[1..]);
    }
  }

  lemma {:induction false} FieldsAt(fields: seq<Field>)
    ensures |SortFields(fields)| == |fields|
    ensures forall i :: 0 <= i < |fields| ==> SortFields(fields)[i] == Sorted(fields[i])
  {
    if fields != [] {
      FieldsAt(fields[1..]);
    }
  }

  lemma {:induction false} InsertKeys(x: Field, s: seq<Field>)
    requires DistinctKeys(s) && forall y :: y in s ==> y.key != x.key
    ensures DistinctKeys(Insert(x, s, ByKey))
    ensures forall y :: y in Insert(x, s, ByKey) <==> y == x || y in s
  {
    hide Leq;
    if s == [] || ByKey(x, s[0]) {
    } else {
      InsertKeys(x, s[1..]);
      var r := Insert(x, s[1..], ByKey);
      forall i | 0 <= i < |r| ensures r[i].key != s[0].key {
        assert r[i] in r;
      }
    }
  }

  lemma {:induction false} SortDistinct(s: seq<Field>)
    requires DistinctKeys(s)
    ensures DistinctKeys(Sort(s, ByKey))
    ensures forall y :: y in Sort(s, ByKey) <==> y in s
  {
    if s != [] {
      SortDistinct(s[1..]);
      InsertKeys(s[0], Sort(s[1..], ByKey));
    }
  }

  /** The fields of a canonical object are the original ones, each with its value made canonical. */
  lemma ObjectFields(fields: seq<Field>)
    requires DistinctKeys(fields)
    ensures var out := SortKeys(Object(fields)).fields;
            && |out| == |fields| && DistinctKeys(out) && SortedBy(out, ByKey)
            && (forall i :: 0 <= i < |fields| ==> Sorted(fields[i]) in out)
            && (forall y :: y in out ==> exists i :: 0 <= i < |fields| && y == Sorted(fields[i]))
  {
    FieldsAt(fields);
    var s := SortFields(fields);
    ByKeyIsAnOrder();
    hide SortKeys, TotalPreorder, Leq, SortFields;
    assert DistinctKeys(s);
    SortDistinct(s);
    SortSorted(s, ByKey);
    SortKeysOfObject(fields);
    hide Sort;
    forall i | 0 <= i < |fields| ensures Sorted(fields[i]) in s {
      assert s[i] in s;
    }
  }

  lemma SortKeysOfObject(fields: seq<Field>)
    ensures SortKeys(Object(fields)) == Object(Sort(SortFields(fields), ByKey))
  {
  }

  // ----- sorted fields are determined by their set ---------------------------------------------

  lemma {:induction false} SortedUnique(a: seq<Field>, b: seq<Field>)
    requires |a| == |b| && DistinctKeys(a) && DistinctKeys(b)
    requires SortedBy(a, ByKey) && SortedBy(b, ByKey)
    requires forall x :: x in a ==> x in b
    ensures a == b
  {
    hide Leq;
    if a != [] {
      SameHead(a, b);
      SortedUnique(a[1..], b[1..]);
      assert a == [a[0]] + a[1..] && b == [b[0]] + b[1..];
    }
  }

  lemma SameHead(a: seq<Field>, b: seq<Field>)
    requires |a| == |b| > 0 && DistinctKeys(a) && DistinctKeys(b)
    requires SortedBy(a, ByKey) && SortedBy(b, ByKey)
    requires forall x :: x in a ==> x in b
    ensures a[0] == b[0]
    ensures forall x :: x in a[1..] ==> x in b[1..]
  {
    hide Leq;
    HeadCovered(a, b);
    assert b[0] in b && a[0] in a;
    var i :| 0 <= i < |a| && a[i] == b[0];
    var j :| 0 <= j < |b| && b[j] == a[0];
    assert ByKey(a[0], a[i]) || i == 0;
    assert ByKey(b[0], b[j]) || j == 0;
    LeqTotal(a[0].key, b[0].key);
    forall x | x in a[1..] ensures x in b[1..] {
      var k :| 1 <= k < |a| && a[k] == x;
      assert x.key != a[0].key && x in b;
    }
  }

  function Elements(s: seq<Field>): set<Field> {
    set x | x in s
  }

  lemma {:induction false} ElementCount(s: seq<Field>)
    requires DistinctKeys(s)
    ensures |Elements(s)| == |s|
  {
    if s != [] {
      ElementCount(s[1..]);
      assert s == [s[0]] + s[1..];
      assert Elements(s) == {s[0]} + Elements(s[1..]);
      assert s[0] !in Elements(s[1..]);
    }
  }

  /** As many distinct fields on both sides: inclusion one way is inclusion the other way. */
  lemma HeadCovered(a: seq<Field>, b: seq<Field>)
    requires |a| == |b| && DistinctKeys(a) && DistinctKeys(b)
    requires forall x :: x in a ==> x in b
    ensures forall x :: x in b ==> x in a
  {
    ElementCount(a);
    ElementCount(b);
    var ea, eb := Elements(a), Elements(b);
    assert eb == ea + (eb - ea);
    assert |eb - ea| == 0;
    forall x | x in b ensures x in a {
      assert x in eb;
      assert x !in eb - ea;
    }
  }

  // ----- main results --------------------------------------------------------------------------

  /** The canonical form has its keys in order and each key once. */
  lemma {:induction false} CanonicalIsOrdered(v: Value)
    requires Valid(v)
    ensures Ordered(SortKeys(v)) && Valid(SortKeys(v))
    decreases v
  {
    hide SortedBy, DistinctKeys;
    match v
    case Text(_) =>
    case Token(_) =>
    case Array(items) =>
      ItemsAt(items);
      forall i | 0 <= i < |items| ensures Ordered(SortKeys(items[i])) && Valid(SortKeys(items[i])) {
        CanonicalIsOrdered(items[i]);
      }
    case Object(fields) =>
      ObjectFields(fields);
      var out := SortKeys(v).fields;
      SortedIff(out);
      forall j | 0 <= j < |out| ensures Ordered(out[j].value) && Valid(out[j].value) {
        assert out[j] in out;
        var i :| 0 <= i < |fields| && out[j] == Sorted(fields[i]);
        CanonicalIsOrdered(fields[i].value);
      }
  }

  /** An ordered value is its own canonical form. */
  lemma {:induction false} OrderedIsFixed(v: Value)
    requires Ordered(v)
    ensures SortKeys(v) == v
    decreases v
  {
    match v
    case Text(_) =>
    case Token(_) =>
    case Array(items) =>
      ItemsAt(items);
      forall i | 0 <= i < |items| ensures SortItems(items)[i] == items[i] {
        OrderedIsFixed(items[i]);
      }
      assert SortItems(items) == items;
    case Object(fields) =>
      FieldsAt(fields);
      SortedIff(fields);
      forall i | 0 <= i < |fields| ensures SortFields(fields)[i] == fields[i] {
        OrderedIsFixed(fields[i].value);
      }
      assert SortFields(fields) == fields;
      SortOfSorted(fields, ByKey);
  }

  lemma SortKeysIdempotent(v: Value)
    requires Valid(v)
    ensures SortKeys(SortKeys(v)) == SortKeys(v)
  {
    CanonicalIsOrdered(v);
    OrderedIsFixed(SortKeys(v));
  }

  /** Values that differ only by key order have one canonical form. */
  lemma {:induction false} SameIsEqual(v: Value, w: Value)
    requires Valid(v) && Valid(w) && Same(v, w)
    ensures SortKeys(v) == SortKeys(w)
    decreases v
  {
    match v
    case Text(_) =>
    case Token(_) =>
    case Array(items) =>
      ItemsAt(items);
      ItemsAt(w.items);
      forall i | 0 <= i < |items| ensures SortKeys(items[i]) == SortKeys(w.items[i]) {
        SameIsEqual(items[i], w.items[i]);
      }
      assert SortItems(items) == SortItems(w.items);
    case Object(fields) =>
      ObjectFields(fields);
      ObjectFields(w.fields);
      forall i | 0 <= i < |fields| ensures Sorted(fields[i]) in SortKeys(w).fields {
        assert Bound(fields[i], w.fields);
        var j :| 0 <= j < |w.fields| && w.fields[j].key == fields[i].key && Same(fields[i].value, w.fields[j].value);
        SameIsEqual(fields[i].value, w.fields[j].value);
        assert Sorted(w.fields[j]) in SortKeys(w).fields;
      }
      SortedUnique(SortKeys(v).fields, SortKeys(w).fields);
  }

  /** One canonical form means: the same up to key order. */
  lemma {:induction false} EqualIsSame(v: Value, w: Value)
    requires Valid(v) && Valid(w) && SortKeys(v) == SortKeys(w)
    ensures Same(v, w)
    decreases v
  {
    match v
    case Text(_) =>
    case Token(_) =>
    case Array(items) =>
      ItemsAt(items);
      ItemsAt(w.items);
      forall i | 0 <= i < |items| ensures Same(items[i], w.items[i]) {
        EqualIsSame(items[i], w.items[i]);
      }
    case Object(fields) =>
      ObjectFields(fields);
      ObjectFields(w.fields);
      forall i | 0 <= i < |fields| ensures Bound(fields[i], w.fields) {
        assert Sorted(fields[i]) in SortKeys(w).fields;
        var j :| 0 <= j < |w.fields| && Sorted(fields[i]) == Sorted(w.fields[j]);
        EqualIsSame(fields[i].value, w.fields[j].value);
      }
  }

  /** Two values get the same canonical form exactly when they differ only by the order of object
      keys, at any depth. */
  lemma CanonicalIff(v: Value, w: Value)
    requires Valid(v) && Valid(w)
    ensures SortKeys(v) == SortKeys(w) <==> Same(v, w)
  {
    if SortKeys(v) == SortKeys(w) {
      EqualIsSame(v, w);
    }
    if Same(v, w) {
      SameIsEqual(v, w);
    }
  }

  /** Sorting loses and adds no binding at any depth. */
  lemma KeepsBindings(v: Value)
    requires Valid(v)
    ensures Same(v, SortKeys(v)) && Same(SortKeys(v), v)
  {
    CanonicalIsOrdered(v);
    SortKeysIdempotent(v);
    EqualIsSame(v, SortKeys(v));
    EqualIsSame(SortKeys(v), v);
  }
}
