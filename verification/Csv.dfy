/** The CSV printer of the query console against a reader for section 2 of
    RFC 4180, with LF as the record break and CR as ordinary text. */
module Csv {
  import opened Options

  /** A result value, stringified; null and undefined print as nothing. */
  datatype Cell = Null | Text(text: string)

  function Shown(c: Cell): string {
    match c
    case Null => ""
    case Text(s) => s
  }

  predicate Special(ch: char) { ch == '"' || ch == ',' || ch == '\n' }

  predicate NeedsQuotes(s: string) { exists i :: 0 <= i < |s| && Special(s[i]) }

  /** Every quote doubled. */
  function Doubled(s: string): string {
    if |s| == 0 then ""
    else (if s[0] == '"' then "\"\"" else [s[0]]) + Doubled(s[1..])
  }

  function Escaped(c: Cell): string {
    if NeedsQuotes(Shown(c)) then "\"" + Doubled(Shown(c)) + "\"" else Shown(c)
  }

  function Joined(parts: seq<string>, sep: char): string {
    if |parts| == 0 then ""
    else if |parts| == 1 then parts[0]
    else parts[0] + [sep] + Joined(parts[1..], sep)
  }

  function EscapedAll(cells: seq<Cell>): seq<string> {
    seq(|cells|, i requires 0 <= i < |cells| => Escaped(cells[i]))
  }

  function Line(cells: seq<Cell>): string { Joined(EscapedAll(cells), ',') }

  function Lines(records: seq<seq<Cell>>): seq<string> {
    seq(|records|, i requires 0 <= i < |records| => Line(records[i]))
  }

  function ToCSV(columns: seq<Cell>, rows: seq<seq<Cell>>): string {
    Joined(Lines([columns] + rows), '\n')
  }

  // ----- the reader

  datatype Mode = Start | Plain | Quoted | AfterQuote

  type Table = seq<seq<string>>

  /** Reads the rest of a text, given the field, record and table so far. */
  function Read(s: string, mode: Mode, field: string, record: seq<string>, table: Table): Option<Table> {
    if |s| == 0 then
      if mode == Quoted then None else Some(table + [record + [field]])
    else
      var (ch, rest) := (s[0], s[1..]);
      if mode == Quoted then
        if ch == '"' then Read(rest, AfterQuote, field, record, table)
        else Read(rest, Quoted, field + [ch], record, table)
      else if ch == ',' then Read(rest, Start, "", record + [field], table)
      else if ch == '\n' then Read(rest, Start, "", [], table + [record + [field]])
      else if ch == '"' then
        if mode == Start then Read(rest, Quoted, field, record, table)
        else if mode == AfterQuote then Read(rest, Quoted, field + [ch], record, table)
        else None
      else if mode == AfterQuote then None
      else Read(rest, Plain, field + [ch], record, table)
  }

  function ReadCSV(s: string): Option<Table> { Read(s, Start, "", [], []) }

  // ----- what is printed

  lemma {:induction false} DoubledJoin(a: string, b: string)
    ensures Doubled(a + b) == Doubled(a) + Doubled(b)
  {
    if |a| == 0 {
      assert a + b == b;
    } else {
      assert (a + b)[0] == a[0] && (a + b)[1..] == a[1..] + b;
      DoubledJoin(a[1..], b);
    }
  }

  /** Quotes are doubled, each on its own, and nothing else is changed. */
  lemma DoubledReplaces(a: string, ch: char, b: string)
    ensures Doubled(a + [ch] + b) == Doubled(a) + (if ch == '"' then "\"\"" else [ch]) + Doubled(b)
    ensures Doubled("") == ""
  {
    DoubledJoin(a + [ch], b);
    DoubledJoin(a, [ch]);
    assert Doubled([ch]) == if ch == '"' then "\"\"" else [ch] by { assert [ch][1..] == ""; }
  }

  /** A null prints as nothing; a text is quoted only for a quote, comma or newline
      in it. */
  lemma EscapedMeans(c: Cell)
    ensures c.Null? ==> Escaped(c) == ""
    ensures c.Text? && (forall i :: 0 <= i < |c.text| ==> c.text[i] != '"' && c.text[i] != ',' && c.text[i] != '\n') ==>
              Escaped(c) == c.text
    ensures c.Text? && (exists i :: 0 <= i < |c.text| && (c.text[i] == '"' || c.text[i] == ',' || c.text[i] == '\n')) ==>
              Escaped(c) == "\"" + Doubled(c.text) + "\""
  {
    hide Doubled;
  }

  // ----- one field

  predicate EndsField(rest: string) { |rest| == 0 || rest[0] == ',' || rest[0] == '\n' }

  function AfterField(rest: string, field: string, record: seq<string>, table: Table): Option<Table>
    requires EndsField(rest)
  {
    if |rest| == 0 then Some(table + [record + [field]])
    else if rest[0] == ',' then Read(rest[1..], Start, "", record + [field], table)
    else Read(rest[1..], Start, "", [], table + [record + [field]])
  }

  lemma {:induction false} ReadPlain(s: string, rest: string, mode: Mode, field: string, record: seq<string>, table: Table)
    requires !NeedsQuotes(s) && EndsField(rest) && (mode == Plain || mode == Start)
    ensures Read(s + rest, mode, field, record, table) == AfterField(rest, field + s, record, table)
  {
    if |s| == 0 {
      assert s + rest == rest && field + s == field;
    } else {
      assert !Special(s[0]);
      assert (s + rest)[1..] == s[1..] + rest;
      assert !NeedsQuotes(s[1..]) by { assert forall i :: 0 <= i < |s| - 1 ==> s[1..][i] == s[i + 1]; }
      ReadPlain(s[1..], rest, Plain, field + [s[0]], record, table);
      assert field + [s[0]] + s[1..] == field + s;
    }
  }

  lemma {:induction false} ReadQuoted(s: string, rest: string, field: string, record: seq<string>, table: Table)
    requires EndsField(rest)
    ensures Read(Doubled(s) + "\"" + rest, Quoted, field, record, table) == AfterField(rest, field + s, record, table)
  {
    var all := Doubled(s) + "\"" + rest;
    if |s| == 0 {
      assert all == "\"" + rest && all[1..] == rest && field + s == field;
    } else {
      var tail := Doubled(s[1..]) + "\"" + rest;
      assert field + [s[0]] + s[1..] == field + s;
      assert all == (if s[0] == '"' then "\"\"" else [s[0]]) + tail;
      hide Read, Doubled, AfterField;
      ReadQuoted(s[1..], rest, field + [s[0]], record, table);
      QuotedChar(s[0], tail, field, record, table);
    }
  }

  /** A quoted character, a quote doubled, is added to the field. */
  lemma QuotedChar(ch: char, tail: string, field: string, record: seq<string>, table: Table)
    ensures Read((if ch == '"' then "\"\"" else [ch]) + tail, Quoted, field, record, table) ==
            Read(tail, Quoted, field + [ch], record, table)
  {
    if ch == '"' {
      var all := "\"\"" + tail;
      assert all[1..] == "\"" + tail && all[1..][1..] == tail;
      assert Read(all, Quoted, field, record, table) == Read(all[1..], AfterQuote, field, record, table);
    } else {
      assert ([ch] + tail)[1..] == tail;
    }
  }

  /** Whatever a cell holds, the reader gets it back and stops where it ends. */
  lemma ReadCell(c: Cell, rest: string, record: seq<string>, table: Table)
    requires EndsField(rest)
    ensures Read(Escaped(c) + rest, Start, "", record, table) == AfterField(rest, Shown(c), record, table)
  {
    var s := Shown(c);
    assert "" + s == s;
    hide Read, Shown, Doubled, AfterField;
    if NeedsQuotes(s) {
      var inner := Doubled(s) + "\"" + rest;
      assert Escaped(c) + rest == "\"" + inner;
      OpenQuote(inner, "", record, table);
      ReadQuoted(s, rest, "", record, table);
    } else {
      ReadPlain(s, rest, Start, "", record, table);
    }
  }

  lemma OpenQuote(inner: string, field: string, record: seq<string>, table: Table)
    ensures Read("\"" + inner, Start, field, record, table) == Read(inner, Quoted, field, record, table)
  {
    assert ("\"" + inner)[1..] == inner;
  }

  // ----- one record

  predicate EndsRecord(rest: string) { |rest| == 0 || rest[0] == '\n' }

  function AfterRecord(rest: string, record: seq<string>, table: Table): Option<Table>
    requires EndsRecord(rest)
  {
    if |rest| == 0 then Some(table + [record]) else Read(rest[1..], Start, "", [], table + [record])
  }

  function ShownAll(cells: seq<Cell>): seq<string> {
    seq(|cells|, i requires 0 <= i < |cells| => Shown(cells[i]))
  }

  lemma {:induction false} ReadCells(cells: seq<Cell>, rest: string, record: seq<string>, table: Table)
    requires |cells| > 0 && EndsRecord(rest)
    ensures Read(Line(cells) + rest, Start, "", record, table) == AfterRecord(rest, record + ShownAll(cells), table)
  {
    hide Read, Escaped, Shown;
    var head := Shown(cells[0]);
    if |cells| == 1 {
      assert EscapedAll(cells) == [Escaped(cells[0])] && Line(cells) == Escaped(cells[0]);
      assert ShownAll(cells) == [head];
      ReadCell(cells[0], rest, record, table);
    } else {
      var tail := cells[1..];
      assert EscapedAll(cells)[1..] == EscapedAll(tail);
      assert Line(cells) + rest == Escaped(cells[0]) + ("," + (Line(tail) + rest));
      assert ("," + (Line(tail) + rest))[1..] == Line(tail) + rest;
      ReadCell(cells[0], "," + (Line(tail) + rest), record, table);
      ReadCells(tail, rest, record + [head], table);
      assert record + [head] + ShownAll(tail) == record + ShownAll(cells);
    }
  }

  /** What a record reads back as: a line without cells is one empty cell. */
  function ReadBack(cells: seq<Cell>): seq<string> {
    if |cells| == 0 then [""] else ShownAll(cells)
  }

  lemma ReadLine(cells: seq<Cell>, rest: string, table: Table)
    requires EndsRecord(rest)
    ensures Read(Line(cells) + rest, Start, "", [], table) == AfterRecord(rest, ReadBack(cells), table)
  {
    if |cells| == 0 {
      assert Line(cells) + rest == rest;
      assert [] + [""] == [""];
    } else {
      ReadCells(cells, rest, [], table);
      assert [] + ShownAll(cells) == ShownAll(cells);
    }
  }

  // ----- the whole text

  function ReadBackAll(records: seq<seq<Cell>>): Table {
    seq(|records|, i requires 0 <= i < |records| => ReadBack(records[i]))
  }

  lemma {:induction false} ReadLines(records: seq<seq<Cell>>, table: Table)
    requires |records| > 0
    ensures Read(Joined(Lines(records), '\n'), Start, "", [], table) == Some(table + ReadBackAll(records))
  {
    if |records| == 1 {
      assert Joined(Lines(records), '\n') == Line(records[0]) + "";
      ReadLine(records[0], "", table);
      assert ReadBackAll(records) == [ReadBack(records[0])];
    } else {
      var tail := records[1..];
      assert Lines(records)[1..] == Lines(tail);
      var rest := "\n" + Joined(Lines(tail), '\n');
      assert Joined(Lines(records), '\n') == Line(records[0]) + rest;
      assert rest[1..] == Joined(Lines(tail), '\n');
      ReadLine(records[0], rest, table);
      ReadLines(tail, table + [ReadBack(records[0])]);
      assert table + [ReadBack(records[0])] + ReadBackAll(tail) == table + ReadBackAll(records);
    }
  }

  function ShownTable(records: seq<seq<Cell>>): Table {
    seq(|records|, i requires 0 <= i < |records| => ShownAll(records[i]))
  }

  /** The reader recovers the header and every stringified cell, quotes, commas
      and newlines included, exactly when no record is without cells. */
  lemma RoundTripIff(columns: seq<Cell>, rows: seq<seq<Cell>>)
    ensures ReadCSV(ToCSV(columns, rows)) == Some(ShownTable([columns] + rows)) <==>
            |columns| > 0 && forall i :: 0 <= i < |rows| ==> |rows[i]| > 0
  {
    var records := [columns] + rows;
    ReadLines(records, []);
    assert [] + ReadBackAll(records) == ReadBackAll(records);
    hide Read, ReadBackAll, ShownTable, Joined, Lines;
    ReadBackIff(records);
    assert records[0] == columns;
    assert forall i :: 0 <= i < |rows| ==> records[i + 1] == rows[i];
  }

  lemma ReadBackIff(records: seq<seq<Cell>>)
    ensures ReadBackAll(records) == ShownTable(records) <==> forall i :: 0 <= i < |records| ==> |records[i]| > 0
  {
    forall i | 0 <= i < |records| ensures ReadBackAll(records)[i] == ShownTable(records)[i] <==> |records[i]| > 0 {
      assert |ShownAll(records[i])| == |records[i]|;
      hide ShownAll;
    }
    hide ReadBack, ShownAll;
  }

  /** What a cell comes back as: its text, a null as nothing. */
  ghost predicate ComesBack(s: string, c: Cell) {
    if c.Null? then s == "" else s == c.text
  }

  ghost predicate RowComesBack(fields: seq<string>, cells: seq<Cell>) {
    |fields| == |cells| && forall j :: 0 <= j < |cells| ==> ComesBack(fields[j], cells[j])
  }

  lemma ShownComesBack(records: seq<seq<Cell>>, i: nat)
    requires i < |records|
    ensures |ShownTable(records)| == |records| && RowComesBack(ShownTable(records)[i], records[i])
  {
  }

  /** Every cell of every row comes back in its place. */
  lemma CellsComeBack(columns: seq<Cell>, rows: seq<seq<Cell>>)
    requires |columns| > 0 && forall i :: 0 <= i < |rows| ==> |rows[i]| > 0
    ensures var t := ReadCSV(ToCSV(columns, rows));
            && t.Some? && |t.value| == |rows| + 1 && RowComesBack(t.value[0], columns)
            && forall i :: 0 <= i < |rows| ==> RowComesBack(t.value[i + 1], rows[i])
  {
    hide *;
    var records := [columns] + rows;
    RoundTripIff(columns, rows);
    ShownComesBack(records, 0);
    forall i | 0 <= i < |rows| ensures RowComesBack(ShownTable(records)[i + 1], rows[i]) { ShownComesBack(records, i + 1); }
  }

  /** A result with columns, each row as wide as the header, always survives. */
  lemma RoundTrip(columns: seq<Cell>, rows: seq<seq<Cell>>)
    requires |columns| > 0 && forall i :: 0 <= i < |rows| ==> |rows[i]| == |columns|
    ensures ReadCSV(ToCSV(columns, rows)) == Some(ShownTable([columns] + rows))
  {
    RoundTripIff(columns, rows);
  }
}
