/** The text of an evidence file: canonical JSON with two spaces of indentation
    (web/lib/evidencePack.ts). */
module StableJson {
  import opened CanonicalJson

  // ----- printing, as `JSON.stringify(value, null, 2)` does ------------------------------------

  function HexDigit(n: int): char {
    if n == 0 then '0' else if n == 1 then '1' else if n == 2 then '2' else if n == 3 then '3'
    else if n == 4 then '4' else if n == 5 then '5' else if n == 6 then '6' else if n == 7 then '7'
    else if n == 8 then '8' else if n == 9 then '9' else if n == 10 then 'a' else if n == 11 then 'b'
    else if n == 12 then 'c' else if n == 13 then 'd' else if n == 14 then 'e' else 'f'
  }

  /** One character inside a quoted text. */
  function Escape(c: char): string {
    if c == '"' then "\\\""
    else if c == '\\' then "\\\\"
    else if c >= ' ' then [c]
    else if c == '\n' then "\\n"
    else if c == '\r' then "\\r"
    else if c == '\t' then "\\t"
    else if c == '\U{08}' then "\\b"
    else if c == '\U{0C}' then "\\f"
    else ['\\', 'u', '0', '0', HexDigit(c as int / 16), HexDigit(c as int % 16)]
  }

  function Escapes(s: string): string {
    if s == "" then "" else Escape(s[0]) + Escapes(s[1..])
  }

  function Quote(s: string): string {
    "\"" + (Escapes(s) + "\"")
  }

  function Indent(depth: nat): string {
    if depth == 0 then "" else "  " + Indent(depth - 1)
  }

  function NewLine(depth: nat): string {
    "\n" + Indent(depth)
  }

  function Print(v: Value, depth: nat): string
    decreases v
  {
    match v
    case Text(s) => Quote(s)
    case Token(t) => t
    case Array(items) =>
      if items == [] then "[]"
      else "[" + (NewLine(depth + 1) + (PrintItems(items, depth + 1) + (NewLine(depth) + "]")))
    case Object(fields) =>
      if fields == [] then "{}"
      else "{" + (NewLine(depth + 1) + (PrintFields(fields, depth + 1) + (NewLine(depth) + "}")))
  }

  function PrintItems(items: seq<Value>, depth: nat): string
    decreases items
  {
    if items == [] then ""
    else if |items| == 1 then Print(items[0], depth)
    else Print(items[0], depth) + ("," + (NewLine(depth) + PrintItems(items[1..], depth)))
  }

  function PrintField(f: Field, depth: nat): string
    decreases f
  {
    Quote(f.key) + (": " + Print(f.value, depth))
  }

  function PrintFields(fields: seq<Field>, depth: nat): string
    decreases fields
  {
    if fields == [] then ""
    else if |fields| == 1 then PrintField(fields[0], depth)
    else PrintField(fields[0], depth) + ("," + (NewLine(depth) + PrintFields(fields[1..], depth)))
  }

  /** The text put into the evidence file. */
  function StableText(v: Value): string {
    Print(SortKeys(v), 0) + "\n"
  }

  // ----- the printed text can be read in one way only -------------------------------------------

  lemma Cancel(p: string, r: string, t: string)
    requires p + r == p + t
    ensures r == t
  {
    assert r == (p + r)[|p|..] && t == (p + t)[|p|..];
  }

  lemma HexDigitUnique(m: int, n: int)
    requires 0 <= m < 16 && 0 <= n < 16 && HexDigit(m) == HexDigit(n)
    ensures m == n
  {
  }

  predicate IsPlain(c: char) {
    c != '"' && c != '\\' && c >= ' '
  }

  /** What follows the backslash tells the escaped characters apart. */
  function Code(c: char): string {
    if c == '"' then "\"" else if c == '\\' then "\\" else if c == '\n' then "n" else if c == '\r' then "r"
    else if c == '\t' then "t" else if c == '\U{08}' then "b" else if c == '\U{0C}' then "f"
    else ['u', '0', '0', HexDigit(c as int / 16), HexDigit(c as int % 16)]
  }

  lemma EscapeIs(c: char)
    ensures Escape(c) == if IsPlain(c) then [c] else "\\" + Code(c)
  {
  }

  lemma CodeUnique(c: char, d: char, r: string, t: string)
    requires !IsPlain(c) && !IsPlain(d) && Code(c) + r == Code(d) + t
    ensures c == d && r == t
  {
    hide HexDigit;
    var x, y := Code(c) + r, Code(d) + t;
    assert x[0] == Code(c)[0] && y[0] == Code(d)[0];
    if Code(c)[0] == 'u' {
      assert x[3] == Code(c)[3] && x[4] == Code(c)[4] && y[3] == Code(d)[3] && y[4] == Code(d)[4];
      HexDigitUnique(c as int / 16, d as int / 16);
      HexDigitUnique(c as int % 16, d as int % 16);
    }
    Cancel(Code(c), r, t);
  }

  lemma EscapeUnique(c: char, d: char, r: string, t: string)
    requires Escape(c) + r == Escape(d) + t
    ensures c == d && r == t
  {
    EscapeIs(c);
    EscapeIs(d);
    hide Escape, Code;
    var x, y := Escape(c) + r, Escape(d) + t;
    assert x[0] == Escape(c)[0] && y[0] == Escape(d)[0];
    assert IsPlain(c) <==> IsPlain(d);
    if IsPlain(c) {
      Cancel(Escape(c), r, t);
    } else {
      assert x == "\\" + (Code(c) + r) && y == "\\" + (Code(d) + t);
      Cancel("\\", Code(c) + r, Code(d) + t);
      CodeUnique(c, d, r, t);
    }
  }

  lemma EscapeFirst(c: char)
    ensures Escape(c) != "" && Escape(c)[0] != '"'
  {
  }

  /** Only the closing quote starts with a quote. */
  lemma EscapesFirst(a: string, r: string)
    ensures (Escapes(a) + ("\"" + r))[0] == '"' <==> a == ""
  {
    if a == "" {
      assert Escapes(a) + ("\"" + r) == "\"" + r;
    } else {
      EscapeFirst(a[0]);
    }
  }

  lemma {:induction false} EscapesUnique(a: string, b: string, r: string, t: string)
    requires Escapes(a) + ("\"" + r) == Escapes(b) + ("\"" + t)
    ensures a == b && r == t
    decreases |a|
  {
    EscapesFirst(a, r);
    EscapesFirst(b, t);
    hide Escape;
    var x, y := Escapes(a) + ("\"" + r), Escapes(b) + ("\"" + t);
    if a == "" {
      assert x == "\"" + r && y == "\"" + t;
      Cancel("\"", r, t);
    } else {
      assert x == Escape(a[0]) + (Escapes(a[1..]) + ("\"" + r));
      assert y == Escape(b[0]) + (Escapes(b[1..]) + ("\"" + t));
      EscapeUnique(a[0], b[0], Escapes(a[1..]) + ("\"" + r), Escapes(b[1..]) + ("\"" + t));
      EscapesUnique(a[1..], b[1..], r, t);
      assert a == [a[0]] + a[1..] && b == [b[0]] + b[1..];
    }
  }

  lemma QuoteUnique(a: string, b: string, r: string, t: string)
    requires Quote(a) + r == Quote(b) + t
    ensures a == b && r == t
  {
    hide Escapes;
    assert Quote(a) + r == "\"" + (Escapes(a) + ("\"" + r));
    assert Quote(b) + t == "\"" + (Escapes(b) + ("\"" + t));
    Cancel("\"", Escapes(a) + ("\"" + r), Escapes(b) + ("\"" + t));
    EscapesUnique(a, b, r, t);
  }

  /** What may follow a printed value. */
  predicate Ends(r: string) {
    r == "" || r[0] == ',' || r[0] == '\n'
  }

  lemma TokenEnds(a: string, r: string, x: string)
    requires IsToken(a) && Ends(r) && x == a + r
    ensures forall i :: 0 <= i < |a| ==> IsTokenChar(x[i])
    ensures |a| < |x| ==> !IsTokenChar(x[|a|])
  {
    hide IsTokenChar;
    assert !IsTokenChar(',') && !IsTokenChar('\n') by {
      Delimiters();
    }
  }

  lemma Delimiters()
    ensures !IsTokenChar(',') && !IsTokenChar('\n')
  {
  }

  lemma TokenUnique(a: string, b: string, r: string, t: string)
    requires IsToken(a) && IsToken(b) && Ends(r) && Ends(t) && a + r == b + t
    ensures a == b && r == t
  {
    var x := a + r;
    TokenEnds(a, r, x);
    TokenEnds(b, t, x);
    hide IsTokenChar, Ends;
    assert |a| == |b|;
    assert a == x[..|a|] && b == x[..|b|];
    Cancel(a, r, t);
  }

  // ----- arrays and objects --------------------------------------------------------------------

  /** How a value begins: this tells the four kinds apart. */
  lemma Begins(v: Value, depth: nat)
    requires Valid(v)
    ensures var p := Print(v, depth);
            p != "" && match v
                       case Text(_) => p[0] == '"'
                       case Token(_) => IsTokenChar(p[0])
                       case Array(_) => p[0] == '['
                       case Object(_) => p[0] == '{'
  {
    hide PrintItems, PrintFields, Escapes, IsTokenChar;
    if v.Token? {
      assert IsTokenChar(v.text[0]);
    }
  }

  lemma NotTokens()
    ensures !IsTokenChar('"') && !IsTokenChar('[') && !IsTokenChar('{')
  {
  }

  predicate SameKind(v: Value, w: Value) {
    && (v.Text? <==> w.Text?) && (v.Token? <==> w.Token?)
    && (v.Array? <==> w.Array?) && (v.Object? <==> w.Object?)
  }

  lemma KindUnique(v: Value, w: Value, depth: nat, r: string, t: string)
    requires Valid(v) && Valid(w) && Print(v, depth) + r == Print(w, depth) + t
    ensures SameKind(v, w)
  {
    Begins(v, depth);
    Begins(w, depth);
    NotTokens();
    hide Print, Valid, IsTokenChar;
    assert (Print(v, depth) + r)[0] == Print(v, depth)[0];
    assert (Print(w, depth) + t)[0] == Print(w, depth)[0];
  }

  /** The rest of a printed list after its first element. */
  function ItemsTail(items: seq<Value>, depth: nat, rest: string): string
    requires items != []
  {
    if |items| == 1 then rest else "," + (NewLine(depth) + (PrintItems(items[1..], depth) + rest))
  }

  lemma ItemsSplit(items: seq<Value>, depth: nat, rest: string)
    requires items != []
    ensures PrintItems(items, depth) + rest == Print(items[0], depth) + ItemsTail(items, depth, rest)
  {
    hide Print, NewLine;
    if |items| > 1 {
      var p, n, q := Print(items[0], depth), NewLine(depth), PrintItems(items[1..], depth);
      Reassociate(p, ",", n, q, rest);
    }
  }

  lemma Reassociate(p: string, c: string, n: string, q: string, rest: string)
    ensures p + (c + (n + q)) + rest == p + (c + (n + (q + rest)))
  {
    assert n + q + rest == n + (q + rest);
    assert c + (n + q) + rest == c + (n + q + rest);
    assert p + (c + (n + q)) + rest == p + (c + (n + q) + rest);
  }

  function FieldsTail(fields: seq<Field>, depth: nat, rest: string): string
    requires fields != []
  {
    if |fields| == 1 then rest else "," + (NewLine(depth) + (PrintFields(fields[1..], depth) + rest))
  }

  lemma FieldsSplit(fields: seq<Field>, depth: nat, rest: string)
    requires fields != []
    ensures PrintFields(fields, depth) + rest == PrintField(fields[0], depth) + FieldsTail(fields, depth, rest)
  {
    hide PrintField, NewLine;
    if |fields| > 1 {
      var p, n, q := PrintField(fields[0], depth), NewLine(depth), PrintFields(fields[1..], depth);
      Reassociate(p, ",", n, q, rest);
    }
  }

  /** Both lists go on or both end, and if they go on the rest is printed after the same indent. */
  lemma TailsUnique(more1: bool, more2: bool, n: string, p: string, q: string, r: string, t: string)
    requires (if more1 then "," + (n + (p + r)) else r) == (if more2 then "," + (n + (q + t)) else t)
    requires r != "" && t != "" && r[0] == '\n' && t[0] == '\n'
    ensures more1 == more2
    ensures if more1 then p + r == q + t else r == t
  {
    if more1 && more2 {
      Cancel(",", n + (p + r), n + (q + t));
      Cancel(n, p + r, q + t);
    }
  }

  ghost predicate AllValid(items: seq<Value>) {
    forall i :: 0 <= i < |items| ==> Valid(items[i])
  }

  ghost predicate FieldsValid(fields: seq<Field>) {
    forall i :: 0 <= i < |fields| ==> Valid(fields[i].value)
  }

  predicate EndsLine(r: string) {
    r != "" && r[0] == '\n'
  }

  lemma ItemsTailEnds(items: seq<Value>, depth: nat, rest: string)
    requires items != [] && EndsLine(rest)
    ensures Ends(ItemsTail(items, depth, rest))
  {
  }

  lemma ItemsTailsUnique(a: seq<Value>, b: seq<Value>, depth: nat, r: string, t: string)
    requires a != [] && b != [] && EndsLine(r) && EndsLine(t)
    requires ItemsTail(a, depth, r) == ItemsTail(b, depth, t)
    ensures |a| > 1 <==> |b| > 1
    ensures if |a| > 1 then PrintItems(a[1..], depth) + r == PrintItems(b[1..], depth) + t else r == t
  {
    hide PrintItems, NewLine;
    var p := if |a| > 1 then PrintItems(a[1..], depth) else "";
    var q := if |b| > 1 then PrintItems(b[1..], depth) else "";
    TailsUnique(|a| > 1, |b| > 1, NewLine(depth), p, q, r, t);
  }

  lemma ItemsValidParts(a: seq<Value>)
    requires a != [] && AllValid(a)
    ensures Valid(a[0]) && AllValid(a[1..])
  {
    hide Valid;
  }

  lemma SameItems(a: seq<Value>, b: seq<Value>)
    requires a != [] && b != [] && a[0] == b[0] && a[1..] == b[1..]
    ensures a == b
  {
    assert a == [a[0]] + a[1..] && b == [b[0]] + b[1..];
  }

  lemma {:induction false} ItemsUnique(a: seq<Value>, b: seq<Value>, depth: nat, r: string, t: string)
    requires a != [] && b != [] && AllValid(a) && AllValid(b) && EndsLine(r) && EndsLine(t)
    requires PrintItems(a, depth) + r == PrintItems(b, depth) + t
    ensures a == b && r == t
    decreases a, 0
  {
    hide Print, PrintItems, Valid, AllValid, ItemsTail, Ends, EndsLine;
    ItemsSplit(a, depth, r);
    ItemsSplit(b, depth, t);
    ItemsTailEnds(a, depth, r);
    ItemsTailEnds(b, depth, t);
    ItemsValidParts(a);
    ItemsValidParts(b);
    PrintUnique(a[0], b[0], depth, ItemsTail(a, depth, r), ItemsTail(b, depth, t));
    ItemsTailsUnique(a, b, depth, r, t);
    if |a| > 1 {
      ItemsUnique(a[1..], b[1..], depth, r, t);
    } else {
      assert a[1..] == [] == b[1..];
    }
    SameItems(a, b);
  }

  lemma {:induction false} FieldUnique(f: Field, g: Field, depth: nat, r: string, t: string)
    requires Valid(f.value) && Valid(g.value) && Ends(r) && Ends(t)
    requires PrintField(f, depth) + r == PrintField(g, depth) + t
    ensures f == g && r == t
    decreases f
  {
    hide Print, Quote, Valid, Ends;
    var p, q := Print(f.value, depth), Print(g.value, depth);
    assert PrintField(f, depth) + r == Quote(f.key) + (": " + (p + r));
    assert PrintField(g, depth) + t == Quote(g.key) + (": " + (q + t));
    QuoteUnique(f.key, g.key, ": " + (p + r), ": " + (q + t));
    Cancel(": ", p + r, q + t);
    PrintUnique(f.value, g.value, depth, r, t);
  }

  lemma FieldsTailEnds(fields: seq<Field>, depth: nat, rest: string)
    requires fields != [] && EndsLine(rest)
    ensures Ends(FieldsTail(fields, depth, rest))
  {
  }

  lemma FieldsTailsUnique(a: seq<Field>, b: seq<Field>, depth: nat, r: string, t: string)
    requires a != [] && b != [] && EndsLine(r) && EndsLine(t)
    requires FieldsTail(a, depth, r) == FieldsTail(b, depth, t)
    ensures |a| > 1 <==> |b| > 1
    ensures if |a| > 1 then PrintFields(a[1..], depth) + r == PrintFields(b[1..], depth) + t else r == t
  {
    hide PrintFields, NewLine;
    var p := if |a| > 1 then PrintFields(a[1..], depth) else "";
    var q := if |b| > 1 then PrintFields(b[1..], depth) else "";
    TailsUnique(|a| > 1, |b| > 1, NewLine(depth), p, q, r, t);
  }

  lemma FieldsValidParts(a: seq<Field>)
    requires a != [] && FieldsValid(a)
    ensures Valid(a[0].value) && FieldsValid(a[1..])
  {
    hide Valid;
  }

  lemma SameFields(a: seq<Field>, b: seq<Field>)
    requires a != [] && b != [] && a[0] == b[0] && a[1..] == b[1..]
    ensures a == b
  {
    assert a == [a[0]] + a[1..] && b == [b[0]] + b[1..];
  }

  lemma {:induction false} FieldsUnique(a: seq<Field>, b: seq<Field>, depth: nat, r: string, t: string)
    requires a != [] && b != [] && FieldsValid(a) && FieldsValid(b) && EndsLine(r) && EndsLine(t)
    requires PrintFields(a, depth) + r == PrintFields(b, depth) + t
    ensures a == b && r == t
    decreases a, 0
  {
    hide PrintField, PrintFields, Valid, FieldsValid, FieldsTail, Ends, EndsLine;
    FieldsSplit(a, depth, r);
    FieldsSplit(b, depth, t);
    FieldsTailEnds(a, depth, r);
    FieldsTailEnds(b, depth, t);
    FieldsValidParts(a);
    FieldsValidParts(b);
    FieldUnique(a[0], b[0], depth, FieldsTail(a, depth, r), FieldsTail(b, depth, t));
    FieldsTailsUnique(a, b, depth, r, t);
    if |a| > 1 {
      FieldsUnique(a[1..], b[1..], depth, r, t);
    } else {
      assert a[1..] == [] == b[1..];
    }
    SameFields(a, b);
  }

  /** Printing is injective, whatever follows: where a value ends can be told from the text. */
  lemma {:induction false} PrintUnique(v: Value, w: Value, depth: nat, r: string, t: string)
    requires Valid(v) && Valid(w) && Ends(r) && Ends(t)
    requires Print(v, depth) + r == Print(w, depth) + t
    ensures v == w && r == t
    decreases v
  {
    KindUnique(v, w, depth, r, t);
    match v {
      case Text(s) =>
        hide Quote;
        QuoteUnique(s, w.chars, r, t);
      case Token(a) =>
        TokenUnique(a, w.text, r, t);
      case Array(items) =>
        ArrayUnique(items, w.items, depth, r, t);
      case Object(fields) =>
        ObjectUnique(fields, w.fields, depth, r, t);
    }
  }

  /** A bracketed list: empty, or its elements on lines of their own. */
  function Bracketed(open: string, close: string, empty: bool, inner: string, depth: nat): string {
    if empty then open + close else open + (NewLine(depth + 1) + (inner + (NewLine(depth) + close)))
  }

  lemma BracketedUnique(
    open: string, close: string, e1: bool, e2: bool, p: string, q: string, depth: nat, r: string, t: string)
    requires |open| == 1 && |close| == 1 && close[0] != '\n'
    requires Bracketed(open, close, e1, p, depth) + r == Bracketed(open, close, e2, q, depth) + t
    ensures e1 == e2
    ensures e1 ==> r == t
    ensures !e1 ==> p + (NewLine(depth) + (close + r)) == q + (NewLine(depth) + (close + t))
  {
    var n, m := NewLine(depth + 1), NewLine(depth);
    assert n[0] == '\n';
    hide NewLine;
    BracketedIs(open, close, e1, p, depth, r);
    BracketedIs(open, close, e2, q, depth, t);
    var x, y := Rest(close, e1, n, p, m, r), Rest(close, e2, n, q, m, t);
    Cancel(open, x, y);
    assert e1 <==> x[0] != '\n';
    assert e2 <==> y[0] != '\n';
    if e1 {
      Cancel(close, r, t);
    } else {
      Cancel(n, p + (m + (close + r)), q + (m + (close + t)));
    }
  }

  function Rest(close: string, empty: bool, n: string, inner: string, m: string, r: string): string {
    if empty then close + r else n + (inner + (m + (close + r)))
  }

  lemma BracketedIs(open: string, close: string, empty: bool, inner: string, depth: nat, r: string)
    ensures Bracketed(open, close, empty, inner, depth) + r ==
            open + Rest(close, empty, NewLine(depth + 1), inner, NewLine(depth), r)
  {
    hide NewLine;
    var n, m := NewLine(depth + 1), NewLine(depth);
    if empty {
      assert open + close + r == open + (close + r);
    } else {
      assert m + close + r == m + (close + r);
      Reassociate(open, n, inner, m + close, r);
    }
  }

  lemma LineEnds(depth: nat, close: string, r: string)
    ensures EndsLine(NewLine(depth) + (close + r))
  {
  }

  lemma {:induction false} ArrayUnique(a: seq<Value>, b: seq<Value>, depth: nat, r: string, t: string)
    requires AllValid(a) && AllValid(b)
    requires Print(Array(a), depth) + r == Print(Array(b), depth) + t
    ensures a == b && r == t
    decreases a, 1
  {
    ArrayIs(a, depth);
    ArrayIs(b, depth);
    LineEnds(depth, "]", r);
    LineEnds(depth, "]", t);
    hide Print, PrintItems, NewLine, Bracketed, AllValid, EndsLine;
    BracketedUnique("[", "]", a == [], b == [], PrintItems(a, depth + 1), PrintItems(b, depth + 1), depth, r, t);
    if a != [] {
      ItemsUnique(a, b, depth + 1, NewLine(depth) + ("]" + r), NewLine(depth) + ("]" + t));
      Cancel(NewLine(depth), "]" + r, "]" + t);
      Cancel("]", r, t);
    }
  }

  lemma ArrayIs(a: seq<Value>, depth: nat)
    ensures Print(Array(a), depth) == Bracketed("[", "]", a == [], PrintItems(a, depth + 1), depth)
  {
    hide PrintItems, NewLine;
    if a == [] {
      assert "[" + "]" == "[]";
    }
  }

  lemma {:induction false} ObjectUnique(a: seq<Field>, b: seq<Field>, depth: nat, r: string, t: string)
    requires FieldsValid(a) && FieldsValid(b)
    requires Print(Object(a), depth) + r == Print(Object(b), depth) + t
    ensures a == b && r == t
    decreases a, 1
  {
    ObjectIs(a, depth);
    ObjectIs(b, depth);
    LineEnds(depth, "}", r);
    LineEnds(depth, "}", t);
    hide Print, PrintFields, NewLine, Bracketed, FieldsValid, EndsLine;
    BracketedUnique("{", "}", a == [], b == [], PrintFields(a, depth + 1), PrintFields(b, depth + 1), depth, r, t);
    if a != [] {
      FieldsUnique(a, b, depth + 1, NewLine(depth) + ("}" + r), NewLine(depth) + ("}" + t));
      Cancel(NewLine(depth), "}" + r, "}" + t);
      Cancel("}", r, t);
    }
  }

  lemma ObjectIs(a: seq<Field>, depth: nat)
    ensures Print(Object(a), depth) == Bracketed("{", "}", a == [], PrintFields(a, depth + 1), depth)
  {
    hide PrintFields, NewLine;
    if a == [] {
      assert "{" + "}" == "{}";
    }
  }

  // ----- main results --------------------------------------------------------------------------

  /** Different values never print alike. */
  lemma PrintingIsInjective(v: Value, w: Value)
    requires Valid(v) && Valid(w) && Print(v, 0) == Print(w, 0)
    ensures v == w
  {
    hide Print;
    assert Print(v, 0) + "" == Print(v, 0) && Print(w, 0) + "" == Print(w, 0);
    PrintUnique(v, w, 0, "", "");
  }

  /** Two values get the same text if and only if they differ only by the order of object keys, at any
      depth: the text depends on the bindings, on all of them, and on nothing else. */
  lemma StableTextIff(v: Value, w: Value)
    requires Valid(v) && Valid(w)
    ensures StableText(v) == StableText(w) <==> Same(v, w)
  {
    hide Print, SortKeys, Same, Valid;
    CanonicalIff(v, w);
    CanonicalIsOrdered(v);
    CanonicalIsOrdered(w);
    var a, b := Print(SortKeys(v), 0), Print(SortKeys(w), 0);
    if StableText(v) == StableText(w) {
      assert a == (a + "\n")[..|a|] && b == (b + "\n")[..|b|];
      PrintingIsInjective(SortKeys(v), SortKeys(w));
    }
  }

  // ----- the format itself ---------------------------------------------------------------------

  /** The escapes of section 7 of RFC 8259, the short ones where they exist; all other characters
      stand for themselves. */
  lemma EscapesAre(c: char)
    ensures Escape('"') == "\\\"" && Escape('\\') == "\\\\" && Escape('\n') == "\\n" && Escape('\r') == "\\r"
    ensures Escape('\t') == "\\t" && Escape('\U{08}') == "\\b" && Escape('\U{0C}') == "\\f"
    ensures Escape('\U{00}') == "\\u0000" && Escape('\U{0B}') == "\\u000b" && Escape('\U{1F}') == "\\u001f"
    ensures c >= ' ' && c != '"' && c != '\\' ==> Escape(c) == [c]
  {
  }

  lemma ControlsAre(n: nat)
    requires n < 32 && n !in {8, 9, 10, 12, 13}
    ensures Escape(n as char) == "\\u00" + [if n < 16 then '0' else '1', "0123456789abcdef"[n % 16]]
  {
  }

  lemma {:induction false} IndentIs(depth: nat)
    ensures |Indent(depth)| == 2 * depth && forall c :: c in Indent(depth) ==> c == ' '
  {
    if depth > 0 {
      IndentIs(depth - 1);
    }
  }

  /** Elements and members stand on lines of their own, two spaces further in. */
  lemma LayoutIs(x: Value, y: Value, a: string, b: string)
    ensures Print(Array([]), 0) == "[]" && Print(Object([]), 0) == "{}"
    ensures Print(Array([x, y]), 0) == "[\n  " + (Print(x, 1) + (",\n  " + (Print(y, 1) + "\n]")))
    ensures Print(Object([Field(a, x), Field(b, y)]), 0) ==
            "{\n  " + (Quote(a) + (": " + Print(x, 1)) + (",\n  " + (Quote(b) + (": " + Print(y, 1)) + "\n}")))
  {
    ArrayLayout(x, y);
    ObjectLayout(Field(a, x), Field(b, y));
    hide Print, PrintFields, PrintItems, NewLine, Quote;
    ArrayIs([], 0);
    ObjectIs([], 0);
  }

  /** Two elements between brackets. */
  lemma Glue(open: string, p: string, q: string, close: string)
    ensures open + ("\n  " + ((p + (",\n  " + q)) + ("\n" + close))) ==
            (open + "\n  ") + (p + (",\n  " + (q + ("\n" + close))))
  {
    var comma, end := ",\n  ", "\n" + close;
    assert (p + (comma + q)) + end == p + (comma + (q + end));
  }

  lemma FirstIndents()
    ensures NewLine(0) == "\n" && NewLine(1) == "\n  "
  {
    assert Indent(1) == "  " + Indent(0);
  }

  lemma ArrayLayout(x: Value, y: Value)
    ensures Print(Array([x, y]), 0) == "[\n  " + (Print(x, 1) + (",\n  " + (Print(y, 1) + "\n]")))
  {
    FirstIndents();
    ItemsOfTwo(x, y);
    ArrayIs([x, y], 0);
    hide NewLine, PrintItems, Print;
    Glue("[", Print(x, 1), Print(y, 1), "]");
    assert "[" + "\n  " == "[\n  " && "\n" + "]" == "\n]";
  }

  lemma ItemsOfTwo(x: Value, y: Value)
    ensures PrintItems([x, y], 1) == Print(x, 1) + (",\n  " + Print(y, 1))
  {
    FirstIndents();
    hide Print, NewLine;
    assert [x, y][1..] == [y];
    assert "," + ("\n  " + Print(y, 1)) == ",\n  " + Print(y, 1);
  }

  lemma FieldsOfTwo(f: Field, g: Field)
    ensures PrintFields([f, g], 1) == PrintField(f, 1) + (",\n  " + PrintField(g, 1))
  {
    FirstIndents();
    hide PrintField, NewLine;
    assert [f, g][1..] == [g];
    assert "," + ("\n  " + PrintField(g, 1)) == ",\n  " + PrintField(g, 1);
  }

  lemma ObjectLayout(f: Field, g: Field)
    ensures Print(Object([f, g]), 0) == "{\n  " + (PrintField(f, 1) + (",\n  " + (PrintField(g, 1) + "\n}")))
  {
    FirstIndents();
    FieldsOfTwo(f, g);
    ObjectIs([f, g], 0);
    hide NewLine, PrintFields, PrintField, Print;
    Glue("{", PrintField(f, 1), PrintField(g, 1), "}");
    assert "{" + "\n  " == "{\n  " && "\n" + "}" == "\n}";
  }
}
