/** The activity feed as CSV (web/lib/activityExport.ts). */
module ActivityExport {
  import opened Prelude
  import opened Sorting
  import opened Text

  datatype Event = Event(
    id: string,
    kind: string,
    title: string,
    body: string,
    href: Option<string>,
    createdAt: string,
    read: bool)

  const HEADER := "created_at,kind,title,body,href,read,id"

  predicate IsFormulaStart(c: char) {
    c == '=' || c == '+' || c == '-' || c == '@' || c == '\t' || c == '\r'
  }

  predicate NeedsQuotes(c: char) {
    c == '"' || c == ',' || c == '\r' || c == '\n'
  }

  /** The value a spreadsheet shows: never one that it would take for a formula. */
  function Guarded(v: string): string {
    if v != "" && IsFormulaStart(v[0]) then "'" + v else v
  }

  function Doubled(s: string): string {
    if s == "" then "" else (if s[0] == '"' then "\"\"" else [s[0]]) + Doubled(s[1..])
  }

  predicate Plain(s: string) {
    forall i :: 0 <= i < |s| ==> !NeedsQuotes(s[i])
  }

  function CsvCell(v: string): string {
    if v == "" then ""
    else if Plain(Guarded(v)) then Guarded(v)
    else "\"" + Doubled(Guarded(v)) + "\""
  }

  function Flag(read: bool): string {
    if read then "true" else "false"
  }

  /** Newest first, equal times by ascending id; `leq` is the collation of strings. */
  predicate Precedes(a: Event, b: Event, leq: (string, string) -> bool) {
    leq(b.createdAt, a.createdAt) && (leq(a.createdAt, b.createdAt) ==> leq(a.id, b.id))
  }

  function ByTime(leq: (string, string) -> bool): (Event, Event) -> bool {
    (a, b) => Precedes(a, b, leq)
  }

  function SortedEvents(rows: seq<Event>, leq: (string, string) -> bool): seq<Event> {
    Sort(rows, ByTime(leq))
  }

  function Href(e: Event): string {
    if e.href.Some? then e.href.value else ""
  }

  function Line(e: Event): string {
    Join([CsvCell(e.createdAt), CsvCell(e.kind), CsvCell(e.title), CsvCell(e.body), CsvCell(Href(e)),
          Flag(e.read), CsvCell(e.id)], ',')
  }

  function Lines(events: seq<Event>): seq<string> {
    if events == [] then [] else Lines(events[..|events| - 1]) + [Line(events[|events| - 1])]
  }

  function Csv(rows: seq<Event>, leq: (string, string) -> bool): string {
    Join([HEADER] + Lines(SortedEvents(rows, leq)), '\n') + "\n"
  }

  method ActivityEventsToCSV(rows: seq<Event>, leq: (string, string) -> bool) returns (csv: string)
    ensures csv == Csv(rows, leq)
  {
    hide Line, Join, Sort;
    var lines := [HEADER];
    var sorted := SortedEvents(rows, leq);
    for i := 0 to |sorted|
      invariant lines == [HEADER] + Lines(sorted[..i])
    {
      assert sorted[..i + 1][..i] == sorted[..i];
      lines := lines + [Line(sorted[i])];
    }
    assert sorted[..|sorted|] == sorted;
    csv := Join(lines, '\n') + "\n";
  }
}
