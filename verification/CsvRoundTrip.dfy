/** What is exported can be read back (web/lib/activityExport.ts). */
module CsvRoundTrip {
  import opened Prelude
  import opened Sorting
  import opened Text
  import opened ActivityExport
  import opened CsvReader

  const COLUMNS := ["created_at", "kind", "title", "body", "href", "read", "id"]

  /** A spreadsheet would take the text for a formula. */
  predicate StartsFormula(v: string) {
    v != "" && v[0] in "=+-@\t\r"
  }

  /** The value as a spreadsheet shows it: a quote keeps it from being a formula. */
  function Shown(v: string): string {
    if StartsFormula(v) then "'" + v else v
  }

  /** The seven fields of an event as a spreadsheet shows them. */
  function Fields(e: Event): seq<string> {
    [Shown(e.createdAt), Shown(e.kind), Shown(e.title), Shown(e.body),
     Shown(if e.href == None then "" else e.href.value), if e.read then "true" else "false", Shown(e.id)]
  }

  lemma ShownIsGuarded(v: string)
    ensures Shown(v) == Guarded(v)
  {
  }

  lemma FieldsAre(e: Event)
    ensures Fields(e) == [Guarded(e.createdAt), Guarded(e.kind), Guarded(e.title), Guarded(e.body), Guarded(Href(e)),
                          Flag(e.read), Guarded(e.id)]
  {
    hide Shown, Guarded;
    ShownIsGuarded(e.createdAt);
    ShownIsGuarded(e.kind);
    ShownIsGuarded(e.title);
    ShownIsGuarded(e.body);
    ShownIsGuarded(Href(e));
    ShownIsGuarded(e.id);
  }

  function Records(events: seq<Event>): seq<seq<string>> {
    if events == [] then [] else [Fields(events[0])] + Records(events[1..])
  }

  // ----- one cell ------------------------------------------------------------------------------

  lemma {:induction false} PlainRead(s: State, text: string)
    requires s.mode.Start? || s.mode.InPlain?
    requires Plain(text) && text != ""
    ensures Feeds(s, text) == s.(mode := InPlain, cell := s.cell + text)
    decreases |text|
  {
    assert !NeedsQuotes(text[0]);
    var next := s.(mode := InPlain, cell := s.cell + [text[0]]);
    assert Feed(s, text[0]) == next;
    if |text| > 1 {
      PlainRead(next, text[1..]);
      assert s.cell + [text[0]] + text[1..] == s.cell + text;
    } else {
      assert s.cell + [text[0]] == s.cell + text;
    }
  }

  lemma {:induction false} DoubledRead(s: State, text: string)
    requires s.mode.InQuotes?
    ensures Feeds(s, Doubled(text)) == s.(cell := s.cell + text)
    decreases |text|
  {
    if text == "" {
      assert s.cell + text == s.cell;
    } else {
      var c := text[0];
      var head := if c == '"' then "\"\"" else [c];
      FeedsAppend(s, head, Doubled(text[1..]));
      HeadRead(s, c);
      DoubledRead(s.(cell := s.cell + [c]), text[1..]);
      assert s.cell + [c] + text[1..] == s.cell + text;
    }
  }

  lemma HeadRead(s: State, c: char)
    requires s.mode.InQuotes?
    ensures Feeds(s, if c == '"' then "\"\"" else [c]) == s.(cell := s.cell + [c])
  {
    if c == '"' {
      var two := "\"\"";
      var seen := s.(mode := QuoteSeen);
      assert two[1..] == "\"" && Feeds(s, two) == Feeds(seen, two[1..]);
      assert Feeds(seen, "\"") == Feed(seen, '"');
    } else {
      assert Feeds(s, [c]) == Feed(s, c);
    }
  }

  /** After a cell the reader holds the guarded value and is ready for a separator. */
  ghost predicate Ready(before: State, after: State, v: string) {
    after == State(before.records, before.fields, v, after.mode) &&
    (after.mode.Start? || after.mode.InPlain? || after.mode.QuoteSeen?)
  }

  lemma CellRead(s: State, v: string)
    requires s.mode.Start? && s.cell == ""
    ensures Ready(s, Feeds(s, CsvCell(v)), Guarded(v))
  {
    var g := Guarded(v);
    if v != "" {
      if Plain(g) {
        PlainRead(s, g);
        assert "" + g == g;
      } else {
        QuotedRead(s, g);
      }
    }
  }

  lemma QuotedRead(s: State, g: string)
    requires s.mode.Start? && s.cell == ""
    ensures Feeds(s, "\"" + Doubled(g) + "\"") == s.(mode := QuoteSeen, cell := g)
  {
    var q := "\"";
    var quoted := s.(mode := InQuotes);
    FeedsAppend(s, q + Doubled(g), q);
    FeedsAppend(s, q, Doubled(g));
    assert Feeds(s, q) == quoted;
    DoubledRead(quoted, g);
    assert "" + g == g;
  }

  // ----- one line ------------------------------------------------------------------------------

  function Cells(values: seq<string>): seq<string> {
    if values == [] then [] else [CsvCell(values[0])] + Cells(values[1..])
  }

  function Guards(values: seq<string>): seq<string> {
    if values == [] then [] else [Guarded(values[0])] + Guards(values[1..])
  }

  lemma {:induction false} LineRead(s: State, values: seq<string>)
    requires s.mode.Start? && s.cell == "" && values != []
    ensures Feeds(s, Join(Cells(values), ',') + "\n") ==
            State(s.records + [s.fields + Guards(values)], [], "", Start)
    decreases |values|
  {
    hide CsvCell, Guarded, Join, Cells, Guards;
    var v, rest := values[0], values[1..];
    var after := Feeds(s, CsvCell(v));
    CellRead(s, v);
    if rest == [] {
      OneCell(v);
      assert values == [v];
      FeedsAppend(s, CsvCell(v), "\n");
    } else {
      var tail := Join(Cells(rest), ',') + "\n";
      JoinCells(values);
      FeedsAppend(s, CsvCell(v), "," + tail);
      FeedsAppend(after, ",", tail);
      LineRead(EndCell(after), rest);
      GuardsFirst(values);
      assert s.fields + [Guarded(v)] + Guards(rest) == s.fields + Guards(values);
    }
  }

  lemma {:induction false} OneCell(v: string)
    ensures Join(Cells([v]), ',') == CsvCell(v) && Guards([v]) == [Guarded(v)]
  {
    hide CsvCell, Guarded;
  }

  lemma {:induction false} GuardsFirst(values: seq<string>)
    requires values != []
    ensures Guards(values) == [Guarded(values[0])] + Guards(values[1..])
  {
    hide Guarded;
  }

  lemma {:induction false} Reassociate(a: string, b: string)
    ensures a + [','] + b + "\n" == a + ("," + (b + "\n"))
  {
    var c, d := [','], "\n";
    assert a + c + b + d == a + c + (b + d);
    assert a + c + (b + d) == a + (c + (b + d));
  }

  lemma {:induction false} JoinMore(parts: seq<string>)
    requires |parts| >= 2
    ensures Join(parts, ',') + "\n" == parts[0] + ("," + (Join(parts[1..], ',') + "\n"))
  {
    Reassociate(parts[0], Join(parts[1..], ','));
  }

  lemma {:induction false} JoinCells(values: seq<string>)
    requires |values| >= 2
    ensures Join(Cells(values), ',') + "\n" == CsvCell(values[0]) + ("," + (Join(Cells(values[1..]), ',') + "\n"))
  {
    hide CsvCell, Join;
    assert Cells(values)[1..] == Cells(values[1..]);
    assert Cells(values[1..]) != [];
    JoinMore(Cells(values));
  }

  // ----- the whole export ----------------------------------------------------------------------

  function Values(e: Event): seq<string> {
    [e.createdAt, e.kind, e.title, e.body, if e.href == None then "" else e.href.value,
     if e.read then "true" else "false", e.id]
  }

  lemma FlagCell(read: bool)
    ensures CsvCell(Flag(read)) == Flag(read) && Guarded(Flag(read)) == Flag(read)
  {
  }

  lemma {:induction false} CellsAt(values: seq<string>)
    ensures |Cells(values)| == |values| && |Guards(values)| == |values|
    ensures forall i :: 0 <= i < |values| ==> Cells(values)[i] == CsvCell(values[i])
    ensures forall i :: 0 <= i < |values| ==> Guards(values)[i] == Guarded(values[i])
  {
    hide CsvCell, Guarded;
    if values != [] {
      CellsAt(values[1..]);
    }
  }

  lemma GuardsOfSeven(a: string, b: string, c: string, d: string, e: string, f: string, g: string)
    ensures Guards([a, b, c, d, e, f, g]) ==
            [Guarded(a), Guarded(b), Guarded(c), Guarded(d), Guarded(e), Guarded(f), Guarded(g)]
    ensures Cells([a, b, c, d, e, f, g]) ==
            [CsvCell(a), CsvCell(b), CsvCell(c), CsvCell(d), CsvCell(e), CsvCell(f), CsvCell(g)]
  {
    CellsAt([a, b, c, d, e, f, g]);
    hide CsvCell, Guarded, Cells, Guards;
  }

  lemma ValuesAre(e: Event)
    ensures Values(e) == [e.createdAt, e.kind, e.title, e.body, Href(e), Flag(e.read), e.id]
  {
  }

  lemma EventCells(e: Event)
    ensures Line(e) == Join(Cells(Values(e)), ',')
    ensures Guards(Values(e)) == Fields(e)
  {
    hide CsvCell, Guarded, Cells, Guards, Join, Flag, Href, Fields, Values;
    FlagCell(e.read);
    FieldsAre(e);
    ValuesAre(e);
    GuardsOfSeven(e.createdAt, e.kind, e.title, e.body, Href(e), Flag(e.read), e.id);
  }

  lemma EventRead(s: State, e: Event)
    requires s.mode.Start? && s.cell == "" && s.fields == []
    ensures Feeds(s, Line(e) + "\n") == State(s.records + [Fields(e)], [], "", Start)
  {
    hide CsvCell, Guarded, Join, Cells, Guards, Feeds, Line, Fields;
    EventCells(e);
    LineRead(s, Values(e));
    assert [] + Fields(e) == Fields(e);
  }

  function Body(events: seq<Event>): string {
    if events == [] then "" else Line(events[0]) + "\n" + Body(events[1..])
  }

  lemma {:induction false} BodyRead(s: State, events: seq<Event>)
    requires s.mode.Start? && s.cell == "" && s.fields == []
    ensures Feeds(s, Body(events)) == State(s.records + Records(events), [], "", Start)
    decreases |events|
  {
    hide Line, Fields;
    if events == [] {
      assert s.records + [] == s.records;
    } else {
      var line := Line(events[0]) + "\n";
      var next := State(s.records + [Fields(events[0])], [], "", Start);
      FeedsAppend(s, line, Body(events[1..]));
      EventRead(s, events[0]);
      BodyRead(next, events[1..]);
      assert s.records + [Fields(events[0])] + Records(events[1..]) == s.records + Records(events);
    }
  }

  lemma {:induction false} LinesFront(events: seq<Event>)
    requires events != []
    ensures Lines(events) == [Line(events[0])] + Lines(events[1..])
  {
    hide Line;
    if |events| > 1 {
      LinesFront(events[..|events| - 1]);
      assert events[..|events| - 1][1..] == events[1..][..|events| - 2];
    }
  }

  lemma {:induction false} JoinLines(head: string, events: seq<Event>)
    ensures Join([head] + Lines(events), '\n') + "\n" == head + "\n" + Body(events)
    decreases |events|
  {
    hide Line;
    if events == [] {
      assert head + "\n" + "" == head + "\n";
    } else {
      LinesFront(events);
      var first := Line(events[0]);
      JoinLines(first, events[1..]);
      assert ([head] + Lines(events))[1..] == [first] + Lines(events[1..]);
      assert head + "\n" + (first + "\n" + Body(events[1..])) == head + "\n" + Body(events);
    }
  }

  lemma PlainCell(v: string)
    requires v != "" && !IsFormulaStart(v[0]) && Plain(v)
    ensures CsvCell(v) == v && Guarded(v) == v
  {
  }

  lemma {:induction false} ColumnCells()
    ensures Cells(COLUMNS) == COLUMNS && Guards(COLUMNS) == COLUMNS
  {
    CellsAt(COLUMNS);
    hide Cells, Guards, CsvCell, Guarded;
    PlainCell("created_at");
    PlainCell("kind");
    PlainCell("title");
    PlainCell("body");
    PlainCell("href");
    PlainCell("read");
    PlainCell("id");
  }

  lemma {:induction false} Prepend(a: string, rest: seq<string>, text: string)
    requires rest != [] && Join(rest, ',') == text
    ensures Join([a] + rest, ',') == a + "," + text
  {
    assert ([a] + rest)[1..] == rest;
  }

  lemma {:induction false} LastColumns()
    ensures Join(["body", "href", "read", "id"], ',') == "body,href,read,id"
  {
    assert Join(["id"], ',') == "id";
    hide Join;
    Prepend("read", ["id"], "id");
    assert "read" + "," + "id" == "read,id";
    Prepend("href", ["read", "id"], "read,id");
    assert "href" + "," + "read,id" == "href,read,id";
    Prepend("body", ["href", "read", "id"], "href,read,id");
    assert "body" + "," + "href,read,id" == "body,href,read,id";
  }

  lemma {:induction false} MiddleColumns()
    ensures Join(["kind", "title", "body", "href", "read", "id"], ',') == "kind,title,body,href,read,id"
  {
    LastColumns();
    hide Join;
    var last := ["body", "href", "read", "id"];
    Prepend("title", last, "body,href,read,id");
    assert "title" + "," + "body,href,read,id" == "title,body,href,read,id";
    Prepend("kind", ["title"] + last, "title,body,href,read,id");
    assert ["kind"] + (["title"] + last) == ["kind", "title", "body", "href", "read", "id"];
    assert "kind" + "," + "title,body,href,read,id" == "kind,title,body,href,read,id";
  }

  lemma HeaderFront()
    ensures |HEADER| == 39 && HEADER[..11] == "created_at,"
  {
  }

  lemma HeaderBack()
    ensures HEADER[11..] == "kind,title,body,href,read,id"
  {
  }

  lemma HeaderParts()
    ensures "created_at" + "," + "kind,title,body,href,read,id" == HEADER
  {
    HeaderFront();
    HeaderBack();
    assert "created_at" + "," == "created_at,";
    hide HEADER;
    assert HEADER == HEADER[..11] + HEADER[11..];
  }

  lemma ColumnParts()
    ensures ["created_at"] + ["kind", "title", "body", "href", "read", "id"] == COLUMNS
  {
  }

  lemma HeaderText()
    ensures HEADER == Join(COLUMNS, ',')
  {
    hide Join;
    MiddleColumns();
    HeaderParts();
    ColumnParts();
    hide HEADER, COLUMNS;
    Prepend("created_at", ["kind", "title", "body", "href", "read", "id"], "kind,title,body,href,read,id");
  }

  /** Reading the export gives back the header and one record of seven fields per event, newest
      first. */
  lemma ReadsBack(rows: seq<Event>, leq: (string, string) -> bool)
    ensures Read(Csv(rows, leq)) == Some([COLUMNS] + Records(SortedEvents(rows, leq)))
  {
    var events := SortedEvents(rows, leq);
    hide SortedEvents, Feeds, Body;
    var s := State([], [], "", Start);
    JoinLines(HEADER, events);
    HeaderRead();
    hide Join, HEADER, COLUMNS;
    FeedsAppend(s, HEADER + "\n", Body(events));
    BodyRead(State([COLUMNS], [], "", Start), events);
  }

  lemma HeaderRead()
    ensures Feeds(State([], [], "", Start), HEADER + "\n") == State([COLUMNS], [], "", Start)
  {
    HeaderText();
    ColumnCells();
    ColumnsNonempty();
    hide Join, Cells, Guards, Feeds, HEADER, COLUMNS;
    var s := State([], [], "", Start);
    LineRead(s, COLUMNS);
    assert s.fields + COLUMNS == COLUMNS;
    assert s.records + [COLUMNS] == [COLUMNS];
  }

  lemma ColumnsNonempty()
    ensures COLUMNS != []
  {
  }

  // ----- order and guard -----------------------------------------------------------------------

  lemma {:induction false} RecordsAt(events: seq<Event>)
    ensures |Records(events)| == |events|
    ensures forall i :: 0 <= i < |events| ==> Records(events)[i] == Fields(events[i])
  {
    hide Fields;
    if events != [] {
      RecordsAt(events[1..]);
    }
  }

  /** What comes after the header is every event exactly once, in seven fields, by descending time and
      among equal times by ascending id. */
  lemma ExportIsSortedPermutation(rows: seq<Event>, leq: (string, string) -> bool)
    requires TotalPreorder(leq)
    ensures var events := SortedEvents(rows, leq);
            && multiset(events) == multiset(rows)
            && |Records(events)| == |rows|
            && (forall i :: 0 <= i < |events| ==> Records(events)[i] == Fields(events[i]))
            && (forall i, j :: 0 <= i < j < |events| ==>
                  && leq(events[j].createdAt, events[i].createdAt)
                  && (leq(events[i].createdAt, events[j].createdAt) ==> leq(events[i].id, events[j].id)))
  {
    SortSorted(rows, ByTime(leq));
    var events := SortedEvents(rows, leq);
    RecordsAt(events);
    hide Sort, Records, Fields, TotalPreorder;
    forall i, j | 0 <= i < j < |events| ensures Precedes(events[i], events[j], leq) {
      assert ByTime(leq)(events[i], events[j]);
    }
  }

  /** No field that a spreadsheet shows starts a formula, and a field differs from its original only by
      the one quote in front. */
  lemma {:induction false} NoFormula(e: Event, i: nat)
    requires i < 7
    ensures !StartsFormula(Fields(e)[i])
    ensures Fields(e)[i] == Values(e)[i] || Fields(e)[i] == "'" + Values(e)[i]
    ensures Fields(e)[i] != Values(e)[i] ==> StartsFormula(Values(e)[i])
  {
    FlagCell(e.read);
    hide Fields, Values;
    assert Fields(e)[i] == Guarded(Values(e)[i]) by {
      GuardsOfValues(e, i);
    }
    ShownIsGuarded(Values(e)[i]);
  }

  lemma {:induction false} GuardsOfValues(e: Event, i: nat)
    requires i < 7
    ensures |Fields(e)| == 7 && |Values(e)| == 7 && Fields(e)[i] == Guarded(Values(e)[i])
  {
    EventCells(e);
    assert |Values(e)| == 7;
    CellsAt(Values(e));
    hide Guards, Cells, Guarded, Values, Fields;
  }

  /** The guard loses one thing: whether the quote was there already. Exactly then do two texts come
      out the same. */
  lemma GuardCollides(v: string, w: string)
    ensures Guarded(v) == Guarded(w) <==>
              v == w || (StartsFormula(v) && w == "'" + v) || (StartsFormula(w) && v == "'" + w)
  {
    ShownIsGuarded(v);
    ShownIsGuarded(w);
    assert ("'" + v)[1..] == v && ("'" + w)[1..] == w;
  }

  /** A cell is quoted, with its quotes doubled, only when it has a quote, a comma or a line break. */
  lemma CellIs(v: string)
    ensures CsvCell(v) == if forall c :: c in Shown(v) ==> c !in "\",\r\n" then Shown(v)
                          else "\"" + Doubled(Shown(v)) + "\""
  {
    ShownIsGuarded(v);
    PlainIff(Guarded(v));
    EmptyCell(v);
    hide Guarded, Shown, Plain;
  }

  lemma EmptyCell(v: string)
    ensures v == "" ==> Guarded(v) == "" && CsvCell(v) == ""
  {
  }

  lemma PlainIff(g: string)
    ensures Plain(g) <==> forall c :: c in g ==> c !in "\",\r\n"
  {
    forall c: char ensures NeedsQuotes(c) <==> c in "\",\r\n" {
    }
    hide NeedsQuotes;
    forall c | c in g && Plain(g) ensures c !in "\",\r\n" {
      var i :| 0 <= i < |g| && g[i] == c;
    }
    forall i | 0 <= i < |g| && (forall c :: c in g ==> c !in "\",\r\n") ensures !NeedsQuotes(g[i]) {
      assert g[i] in g;
    }
  }

  /** Doubling puts a quote before each quote and leaves the rest alone. */
  lemma {:induction false} DoubledIs(a: string, b: string)
    requires '"' !in a
    ensures Doubled(a) == a
    ensures Doubled(a + "\"" + b) == a + "\"\"" + Doubled(b)
    decreases |a|
  {
    if a == "" {
      assert a + "\"" + b == "\"" + b && ("\"" + b)[1..] == b;
    } else {
      DoubledIs(a[1..], b);
      assert (a + "\"" + b)[1..] == a[1..] + "\"" + b;
      assert a == [a[0]] + a[1..];
    }
  }
}
