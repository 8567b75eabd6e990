/** A reader of comma-separated values after section 2 of RFC 4180, with a line feed as line break. */
module CsvReader {
  import opened Prelude

  datatype Mode = Start | InPlain | InQuotes | QuoteSeen | Bad

  datatype State = State(records: seq<seq<string>>, fields: seq<string>, cell: string, mode: Mode)

  function EndCell(s: State): State {
    State(s.records, s.fields + [s.cell], "", Start)
  }

  function EndRecord(s: State): State {
    State(s.records + [s.fields + [s.cell]], [], "", Start)
  }

  function Feed(s: State, c: char): State {
    match s.mode
    case Bad => s
    case InQuotes => if c == '"' then s.(mode := QuoteSeen) else s.(cell := s.cell + [c])
    case _ =>
      if c == ',' then EndCell(s)
      else if c == '\n' then EndRecord(s)
      else if c == '"' && s.mode.Start? then s.(mode := InQuotes)
      else if c == '"' && s.mode.QuoteSeen? then s.(mode := InQuotes, cell := s.cell + [c])
      else if c == '"' || c == '\r' || s.mode.QuoteSeen? then s.(mode := Bad)
      else s.(mode := InPlain, cell := s.cell + [c])
  }

  function Feeds(s: State, text: string): State
    decreases |text|
  {
    if text == "" then s else Feeds(Feed(s, text[0]), text[1..])
  }

  /** The records of a text; the break after the last one is optional. */
  function Read(text: string): Option<seq<seq<string>>> {
    var s := Feeds(State([], [], "", Start), text);
    if s.mode.Bad? || s.mode.InQuotes? then None
    else if s.mode.Start? && s.fields == [] then Some(s.records)
    else Some(EndRecord(s).records)
  }

  lemma {:induction false} FeedsAppend(s: State, a: string, b: string)
    ensures Feeds(s, a + b) == Feeds(Feeds(s, a), b)
    decreases |a|
  {
    if a == "" {
      assert a + b == b;
    } else {
      assert (a + b)[1..] == a[1..] + b;
      FeedsAppend(Feed(s, a[0]), a[1..], b);
    }
  }
}
