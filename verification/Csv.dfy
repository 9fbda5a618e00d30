/** The two CSV printers of the platform and a strict reader: section 2 of RFC 4180, with a line feed between records. */
module Csv {
  import opened Common

  // ---------------------------------------------------------------- printing

  /** The string of a cell; null and undefined become the empty string. */
  function Text(val: Option<string>): string {
    if val.None? then "" else val.value
  }

  function DoubleQuotes(s: string): string {
    if s == "" then "" else (if s[0] == '"' then "\"\"" else [s[0]]) + DoubleQuotes(s[1..])
  }

  /** One cell as the user export prints it. */
  function Cell(val: Option<string>): string {
    if val.None? then "" else
      var str := val.value;
      if ',' in str || '"' in str || '\n' in str then "\"" + DoubleQuotes(str) + "\"" else str
  }

  predicate Special(c: char) {
    c == ',' || c == '"' || c == '\n'
  }

  /** Nothing in s needs escaping. */
  predicate Plain(s: string) {
    forall i :: 0 <= i < |s| ==> !Special(s[i])
  }

  /** One cell as the admin export prints it: quoted when the pattern [",\n] occurs. */
  function CsvEscape(value: Option<string>): string {
    var str := if value.None? then "" else value.value;
    if !Plain(str) then "\"" + DoubleQuotes(str) + "\"" else str
  }

  /** The two escaping functions are the same function. */
  lemma SameEscape(v: Option<string>)
    ensures CsvEscape(v) == Cell(v)
  {
    if v.Some? {
      var s := v.value;
      assert Plain(s) <==> !(',' in s || '"' in s || '\n' in s) by {
        assert forall c :: c in s ==> exists i :: 0 <= i < |s| && s[i] == c;
      }
    }
  }

  function Join(parts: seq<string>, sep: char): string {
    if |parts| == 0 then "" else if |parts| == 1 then parts[0] else parts[0] + [sep] + Join(parts[1..], sep)
  }

  function Printed(cells: seq<Option<string>>): seq<string> {
    seq(|cells|, i requires 0 <= i < |cells| => Cell(cells[i]))
  }

  function Values(cells: seq<Option<string>>): seq<string> {
    seq(|cells|, i requires 0 <= i < |cells| => Text(cells[i]))
  }

  /** The cells of one object under the requested columns; a missing property has no value. */
  function CellsOf(row: map<string, string>, columns: seq<string>): seq<Option<string>> {
    seq(|columns|, i requires 0 <= i < |columns| => if columns[i] in row then Some(row[columns[i]]) else None)
  }

  function Lines(table: seq<seq<Option<string>>>): seq<string> {
    seq(|table|, i requires 0 <= i < |table| => Join(Printed(table[i]), ','))
  }

  function TableOf(data: seq<map<string, string>>, columns: seq<string>): seq<seq<Option<string>>> {
    seq(|data|, i requires 0 <= i < |data| => CellsOf(data[i], columns))
  }

  function Contents(table: seq<seq<Option<string>>>): seq<seq<string>> {
    seq(|table|, i requires 0 <= i < |table| => Values(table[i]))
  }

  /** The user export: a header that is not escaped, then one line per object. */
  function ConvertToCsv(data: seq<map<string, string>>, columns: seq<string>): string {
    Join([Join(columns, ',')] + Lines(TableOf(data, columns)), '\n')
  }

  // ---------------------------------------------------------------- reading

  datatype Mode = FieldStart | Unquoted | Quoted | QuoteSeen

  function Cons(record: seq<string>, rest: Option<seq<seq<string>>>): Option<seq<seq<string>>> {
    match rest
    case None => None
    case Some(rs) => Some([record] + rs)
  }

  /** Reads the rest of a file, given the field and the record read so far; None for text the grammar does not allow. */
  function Parse(s: string, mode: Mode, field: string, record: seq<string>): Option<seq<seq<string>>> {
    if s == "" then
      if mode == Quoted then None else Some([record + [field]])
    else if mode == Quoted then
      if s[0] == '"' then Parse(s[1..], QuoteSeen, field, record) else Parse(s[1..], Quoted, field + [s[0]], record)
    else if s[0] == ',' then Parse(s[1..], FieldStart, "", record + [field])
    else if s[0] == '\n' then Cons(record + [field], Parse(s[1..], FieldStart, "", []))
    else if mode == FieldStart then
      if s[0] == '"' then Parse(s[1..], Quoted, "", record) else Parse(s[1..], Unquoted, [s[0]], record)
    else if mode == Unquoted then
      if s[0] == '"' then None else Parse(s[1..], Unquoted, field + [s[0]], record)
    else
      if s[0] == '"' then Parse(s[1..], Quoted, field + ['"'], record) else None
  }

  function Read(s: string): Option<seq<seq<string>>> {
    Parse(s, FieldStart, "", [])
  }

  // ---------------------------------------------------------------- reading one field

  /** tail ends a field: nothing, a separator or a line feed. */
  predicate EndsField(tail: string) {
    tail == "" || tail[0] == ',' || tail[0] == '\n'
  }

  /** How reading goes on when a field with value v has just ended before tail. */
  function AfterField(tail: string, v: string, record: seq<string>): Option<seq<seq<string>>>
    requires EndsField(tail)
  {
    if tail == "" then Some([record + [v]])
    else if tail[0] == ',' then Parse(tail[1..], FieldStart, "", record + [v])
    else Cons(record + [v], Parse(tail[1..], FieldStart, "", []))
  }

  lemma {:induction false} ReadUnquoted(v: string, tail: string, field: string, record: seq<string>)
    requires Plain(v) && EndsField(tail)
    ensures Parse(v + tail, Unquoted, field, record) == AfterField(tail, field + v, record)
  {
    if v == "" {
      assert v + tail == tail && field + v == field;
    } else {
      assert (v + tail)[1..] == v[1..] + tail;
      ReadUnquoted(v[1..], tail, field + [v[0]], record);
      assert field + [v[0]] + v[1..] == field + v;
    }
  }

  lemma {:induction false} ReadQuoted(v: string, tail: string, field: string, record: seq<string>)
    requires EndsField(tail)
    ensures Parse(DoubleQuotes(v) + "\"" + tail, Quoted, field, record) == AfterField(tail, field + v, record)
  {
    var s := DoubleQuotes(v) + "\"" + tail;
    if v == "" {
      assert s[1..] == tail && field + v == field;
    } else {
      var rest := DoubleQuotes(v[1..]) + "\"" + tail;
      ReadQuoted(v[1..], tail, field + [v[0]], record);
      assert field + [v[0]] + v[1..] == field + v;
      if v[0] == '"' {
        assert s == "\"\"" + rest;
        assert s[1..][1..] == rest;
      } else {
        assert s[1..] == rest;
      }
    }
  }

  /** Reading a printed cell gives its string back. */
  lemma ReadCell(val: Option<string>, tail: string, record: seq<string>)
    requires EndsField(tail)
    ensures Parse(Cell(val) + tail, FieldStart, "", record) == AfterField(tail, Text(val), record)
  {
    SameEscape(val);
    var v := Text(val);
    if Plain(v) {
      if v == "" {
        assert Cell(val) + tail == tail;
      } else {
        assert (Cell(val) + tail)[1..] == v[1..] + tail;
        ReadUnquoted(v[1..], tail, [v[0]], record);
        assert [v[0]] + v[1..] == v;
      }
    } else {
      assert (Cell(val) + tail)[1..] == DoubleQuotes(v) + "\"" + tail;
      ReadQuoted(v, tail, "", record);
      assert "" + v == v;
    }
  }

  // ---------------------------------------------------------------- reading records and files

  /** How reading goes on when the whole record r has just been read before tail. */
  function AfterRecord(tail: string, r: seq<string>): Option<seq<seq<string>>>
    requires tail == "" || tail[0] == '\n'
  {
    if tail == "" then Some([r]) else Cons(r, Parse(tail[1..], FieldStart, "", []))
  }

  lemma {:induction false} ReadLine(cells: seq<Option<string>>, tail: string, record: seq<string>)
    requires cells != [] && (tail == "" || tail[0] == '\n')
    ensures Parse(Join(Printed(cells), ',') + tail, FieldStart, "", record) == AfterRecord(tail, record + Values(cells))
  {
    var first := Cell(cells[0]);
    if |cells| == 1 {
      ReadCell(cells[0], tail, record);
      assert Values(cells) == [Text(cells[0])];
    } else {
      var rest := cells[1..];
      assert Printed(cells)[1..] == Printed(rest);
      var tail' := "," + Join(Printed(rest), ',') + tail;
      assert Join(Printed(cells), ',') + tail == first + tail';
      ReadCell(cells[0], tail', record);
      assert tail'[1..] == Join(Printed(rest), ',') + tail;
      ReadLine(rest, tail, record + [Text(cells[0])]);
      assert record + [Text(cells[0])] + Values(rest) == record + Values(cells);
    }
  }

  lemma {:induction false} ReadLines(table: seq<seq<Option<string>>>)
    requires table != [] && forall i :: 0 <= i < |table| ==> table[i] != []
    ensures Parse(Join(Lines(table), '\n'), FieldStart, "", []) == Some(Contents(table))
  {
    var line := Join(Printed(table[0]), ',');
    assert [] + Values(table[0]) == Values(table[0]);
    if |table| == 1 {
      ReadLine(table[0], "", []);
      assert line + "" == line;
      assert Contents(table) == [Values(table[0])];
    } else {
      var rest := table[1..];
      assert Lines(table)[1..] == Lines(rest);
      var tail := "\n" + Join(Lines(rest), '\n');
      assert Join(Lines(table), '\n') == line + tail;
      ReadLine(table[0], tail, []);
      assert tail[1..] == Join(Lines(rest), '\n');
      ReadLines(rest);
      assert [Values(table[0])] + Contents(rest) == Contents(table);
    }
  }

  /** Names that need no escaping print as cells do. */
  lemma PlainHeader(columns: seq<string>)
    requires forall i :: 0 <= i < |columns| ==> Plain(columns[i])
    ensures var cells := seq(|columns|, i requires 0 <= i < |columns| => Some(columns[i]));
            Printed(cells) == columns && Values(cells) == columns
  {
    var cells := seq(|columns|, i requires 0 <= i < |columns| => Some(columns[i]));
    forall i | 0 <= i < |columns| ensures Cell(cells[i]) == columns[i] { SameEscape(cells[i]); }
    assert Printed(cells) == columns && Values(cells) == columns;
  }

  // ---------------------------------------------------------------- headers that are not plain

  /** What has been read so far stays at the front of what the reader returns. */
  lemma {:induction false} ReadKeepsPrefix(s: string, mode: Mode, field: string, record: seq<string>)
    requires Parse(s, mode, field, record).Some? && (mode == FieldStart ==> field == "")
    ensures var rs := Parse(s, mode, field, record).value;
            rs != [] && |rs[0]| > |record| && rs[0][..|record|] == record && field <= rs[0][|record|]
  {
    if s == "" {
    } else if mode == Quoted {
      if s[0] == '"' { ReadKeepsPrefix(s[1..], QuoteSeen, field, record); }
      else { ReadKeepsPrefix(s[1..], Quoted, field + [s[0]], record); }
    } else if s[0] == ',' {
      ReadKeepsPrefix(s[1..], FieldStart, "", record + [field]);
      var r := Parse(s, mode, field, record).value[0];
      assert r[..|record| + 1] == record + [field];
      assert r[..|record|] == (record + [field])[..|record|];
      assert r[|record|] == (record + [field])[|record|];
    } else if s[0] == '\n' {
    } else if mode == FieldStart {
      if s[0] == '"' { ReadKeepsPrefix(s[1..], Quoted, "", record); } else { ReadKeepsPrefix(s[1..], Unquoted, [s[0]], record); }
    } else if mode == Unquoted {
      ReadKeepsPrefix(s[1..], Unquoted, field + [s[0]], record);
    } else {
      ReadKeepsPrefix(s[1..], Quoted, field + ['"'], record);
    }
  }

  /** A field that ended is returned exactly. */
  lemma ReadKeepsField(tail: string, v: string, record: seq<string>)
    requires EndsField(tail) && AfterField(tail, v, record).Some?
    ensures var rs := AfterField(tail, v, record).value; rs != [] && |rs[0]| > |record| && rs[0][|record|] == v
  {
    if tail != "" && tail[0] == ',' {
      ReadKeepsPrefix(tail[1..], FieldStart, "", record + [v]);
      var r := AfterField(tail, v, record).value[0];
      assert r[..|record| + 1] == record + [v];
      assert r[|record|] == (record + [v])[|record|];
    }
  }

  /** Inside quotes, m quotes in a row yield m / 2 of them, and then the field ends or goes on with something else. */
  lemma {:induction false} QuotesHalve(s: string, m: nat, field: string, record: seq<string>)
    requires m <= |s| && (forall i :: 0 <= i < m ==> s[i] == '"') && (m < |s| ==> s[m] != '"')
    requires Parse(s, Quoted, field, record).Some?
    ensures var rs := Parse(s, Quoted, field, record).value;
            rs != [] && |rs[0]| > |record| &&
            (|rs[0][|record|]| == |field| + m / 2 || (|rs[0][|record|]| > |field| + m / 2 && rs[0][|record|][|field| + m / 2] != '"'))
  {
    if m == 0 {
      ReadKeepsPrefix(s[1..], Quoted, field + [s[0]], record);
    } else if m == 1 {
      assert Parse(s, Quoted, field, record) == Parse(s[1..], QuoteSeen, field, record);
      assert s[1..] != "" ==> s[1..][0] == s[1];
      ReadKeepsField(s[1..], field, record);
    } else {
      assert s[1..][1..] == s[2..];
      assert Parse(s, Quoted, field, record) == Parse(s[2..], Quoted, field + ['"'], record);
      QuotesHalve(s[2..], m - 2, field + ['"'], record);
    }
  }

  function LeadingQuotes(s: string): nat {
    if s != "" && s[0] == '"' then 1 + LeadingQuotes(s[1..]) else 0
  }

  lemma {:induction false} LeadingQuotesAre(s: string)
    ensures var q := LeadingQuotes(s);
            q <= |s| && (forall i :: 0 <= i < q ==> s[i] == '"') && (q < |s| ==> s[q] != '"')
  {
    if s != "" && s[0] == '"' {
      LeadingQuotesAre(s[1..]);
      assert forall i :: 1 <= i < |s| ==> s[i] == s[1..][i - 1];
    }
  }

  lemma QuotedNameIsLost(name: string, tail: string, record: seq<string>)
    requires !Plain(name) && name[0] == '"' && EndsField(tail) && Parse(name + tail, FieldStart, "", record).Some?
    ensures var rs := Parse(name + tail, FieldStart, "", record).value;
            rs != [] && |rs[0]| > |record| && rs[0][|record|] != name
  {
    var s := name + tail;
    LeadingQuotesAre(name);
    var q := LeadingQuotes(name);
    assert s[1..] == name[1..] + tail;
    assert forall i :: 0 <= i < q - 1 ==> s[1..][i] == name[i + 1];
    assert q - 1 < |s[1..]| ==> s[1..][q - 1] == s[q];
    QuotesHalve(s[1..], q - 1, "", record);
    assert (q - 1) / 2 < q;
  }

  lemma UnquotedNameIsLost(name: string, tail: string, record: seq<string>)
    requires !Plain(name) && name[0] != '"' && EndsField(tail) && Parse(name + tail, FieldStart, "", record).Some?
    ensures var rs := Parse(name + tail, FieldStart, "", record).value;
            rs != [] && |rs[0]| > |record| && rs[0][|record|] != name
  {
    var s := name + tail;
    var p := FirstSpecial(name);
    var head, rest := name[..p], name[p..] + tail;
    assert s == head + rest && rest[0] == name[p];
    if p == 0 {
      assert rest == s;
      ReadKeepsField(s, "", record);
    } else {
      assert s[0] == head[0] && head == [s[0]] + head[1..];
      assert forall i :: 1 <= i < p ==> head[1..][i - 1] == head[i];
      assert s[1..] == head[1..] + rest;
      if name[p] == '"' {
        StrayQuote(head[1..], rest, [s[0]], record);
      } else {
        ReadUnquoted(head[1..], rest, [s[0]], record);
        ReadKeepsField(rest, head, record);
      }
    }
  }

  /** A name with a special character, printed without escaping, is never read back as itself. */
  lemma SpecialNameIsLost(name: string, tail: string, record: seq<string>)
    requires !Plain(name) && EndsField(tail) && Parse(name + tail, FieldStart, "", record).Some?
    ensures var rs := Parse(name + tail, FieldStart, "", record).value;
            rs != [] && |rs[0]| > |record| && rs[0][|record|] != name
  {
    if name[0] == '"' { QuotedNameIsLost(name, tail, record); } else { UnquotedNameIsLost(name, tail, record); }
  }

  function FirstSpecial(s: string): (p: nat)
    requires !Plain(s)
    ensures p < |s| && Special(s[p]) && Plain(s[..p])
  {
    if Special(s[0]) then 0 else
      assert !Plain(s[1..]) by {
        var i :| 0 <= i < |s| && Special(s[i]);
        assert s[1..][i - 1] == s[i];
      }
      1 + FirstSpecial(s[1..])
  }

  /** The grammar allows no quote inside an unquoted field. */
  lemma {:induction false} StrayQuote(v: string, rest: string, field: string, record: seq<string>)
    requires Plain(v) && rest != "" && rest[0] == '"'
    ensures Parse(v + rest, Unquoted, field, record).None?
  {
    if v == "" {
      assert v + rest == rest;
    } else {
      assert (v + rest)[1..] == v[1..] + rest;
      StrayQuote(v[1..], rest, field + [v[0]], record);
    }
  }

  /** A header line with a name that is not plain is not read back, whatever follows it. */
  lemma {:induction false} SpecialHeaderIsLost(columns: seq<string>, i: nat, tail: string, record: seq<string>)
    requires i < |columns| && !Plain(columns[i]) && (tail == "" || tail[0] == '\n')
    requires Parse(Join(columns, ',') + tail, FieldStart, "", record).Some?
    ensures var rs := Parse(Join(columns, ',') + tail, FieldStart, "", record).value; rs != [] && rs[0] != record + columns
  {
    var rest := if |columns| == 1 then tail else "," + Join(columns[1..], ',') + tail;
    assert Join(columns, ',') + tail == columns[0] + rest;
    assert (record + columns)[|record|] == columns[0];
    if !Plain(columns[0]) {
      SpecialNameIsLost(columns[0], rest, record);
    } else {
      SameEscape(Some(columns[0]));
      ReadCell(Some(columns[0]), rest, record);
      assert rest[1..] == Join(columns[1..], ',') + tail;
      SpecialHeaderIsLost(columns[1..], i - 1, tail, record + [columns[0]]);
      assert record + columns == record + [columns[0]] + columns[1..];
    }
  }

  // ---------------------------------------------------------------- the round trip

  lemma PlainRoundTrip(data: seq<map<string, string>>, columns: seq<string>)
    requires columns != [] && forall i :: 0 <= i < |columns| ==> Plain(columns[i])
    ensures Read(ConvertToCsv(data, columns)) == Some([columns] + Contents(TableOf(data, columns)))
  {
    var table := TableOf(data, columns);
    var cells := seq(|columns|, i requires 0 <= i < |columns| => Some(columns[i]));
    PlainHeader(columns);
    var all := [cells] + table;
    assert Lines(all) == [Join(columns, ',')] + Lines(table);
    assert Contents(all) == [columns] + Contents(table);
    ReadLines(all);
  }

  lemma SpecialColumnIsLost(data: seq<map<string, string>>, columns: seq<string>, i: nat)
    requires i < |columns| && !Plain(columns[i])
    ensures Read(ConvertToCsv(data, columns)) != Some([columns] + Contents(TableOf(data, columns)))
  {
    var table := TableOf(data, columns);
    var tail := if table == [] then "" else "\n" + Join(Lines(table), '\n');
    var lines := [Join(columns, ',')] + Lines(table);
    assert lines[1..] == Lines(table);
    assert ConvertToCsv(data, columns) == Join(columns, ',') + tail;
    if Read(ConvertToCsv(data, columns)).Some? {
      SpecialHeaderIsLost(columns, i, tail, []);
      assert [] + columns == columns;
    }
  }

  lemma NoColumnsAreLost(data: seq<map<string, string>>)
    ensures Read(ConvertToCsv(data, [])) != Some([[]] + Contents(TableOf(data, [])))
  {
    if Read(ConvertToCsv(data, [])).Some? { ReadKeepsPrefix(ConvertToCsv(data, []), FieldStart, "", []); }
  }

  /** The text of every cell: what the object has under the column's name, or nothing when it has no such property. */
  lemma ContentsExactly(data: seq<map<string, string>>, columns: seq<string>)
    ensures Contents(TableOf(data, columns))
            == seq(|data|, i requires 0 <= i < |data| =>
                 seq(|columns|, j requires 0 <= j < |columns| => if columns[j] in data[i] then data[i][columns[j]] else ""))
  {
    forall i | 0 <= i < |data|
      ensures Contents(TableOf(data, columns))[i]
              == seq(|columns|, j requires 0 <= j < |columns| => if columns[j] in data[i] then data[i][columns[j]] else "")
    {
    }
  }

  /** A cell is printed as it is when it holds no comma, quote or line feed, and between quotes, with each quote in it doubled, when it
      does. */
  lemma CellExactly(val: Option<string>)
    ensures val == None ==> Cell(val) == ""
    ensures val.Some? && (forall c :: c in val.value ==> c != ',' && c != '"' && c != '\n') ==> Cell(val) == val.value
    ensures val.Some? && (exists c :: c in val.value && (c == ',' || c == '"' || c == '\n')) ==>
              && |Cell(val)| == |val.value| + 2 + Quotes(val.value)
              && Cell(val)[0] == '"' && Cell(val)[|Cell(val)| - 1] == '"'
              && Read(Cell(val)) == Some([[val.value]])
  {
    if val.Some? {
      QuotesDouble(val.value);
      ReadCell(val, "", []);
      assert Cell(val) + "" == Cell(val) && [] + [val.value] == [val.value];
    }
  }

  function Quotes(s: string): nat {
    if s == "" then 0 else Quotes(s[1..]) + (if s[0] == '"' then 1 else 0)
  }

  lemma {:induction false} QuotesDouble(s: string)
    ensures |DoubleQuotes(s)| == |s| + Quotes(s)
  {
    if s != "" { QuotesDouble(s[1..]); }
  }

  /** Reading the export returns the header and, row by row, the text of every cell, exactly when there is a column and no column name
      holds a comma, a quote or a line feed. The cells may hold anything. */
  lemma CsvRoundTrip(data: seq<map<string, string>>, columns: seq<string>)
    ensures Read(ConvertToCsv(data, columns))
            == Some([columns] + seq(|data|, i requires 0 <= i < |data| =>
                 seq(|columns|, j requires 0 <= j < |columns| => if columns[j] in data[i] then data[i][columns[j]] else "")))
            <==> columns != [] && forall i :: 0 <= i < |columns| ==> forall c :: c in columns[i] ==> c != ',' && c != '"' && c != '\n'
  {
    ContentsExactly(data, columns);
    forall i | 0 <= i < |columns| ensures Plain(columns[i]) <==> forall c :: c in columns[i] ==> c != ',' && c != '"' && c != '\n' {
      assert forall k :: 0 <= k < |columns[i]| ==> columns[i][k] in columns[i];
    }
    if columns == [] {
      NoColumnsAreLost(data);
    } else if i :| 0 <= i < |columns| && !Plain(columns[i]) {
      SpecialColumnIsLost(data, columns, i);
    } else {
      PlainRoundTrip(data, columns);
    }
  }

  // ---------------------------------------------------------------- the admin export

  const BATCH_SIZE := 1000

  const ADMIN_COLUMNS: seq<string> :=
    ["id", "senderId", "receiverId", "amount", "currency", "fee", "status", "reference", "receiptNumber", "createdAt"]

  const CSV_HEADER := Join(ADMIN_COLUMNS, ',')

  /** Every record followed by a line feed. */
  function Terminated(lines: seq<string>): string {
    if lines == [] then "" else lines[0] + "\n" + Terminated(lines[1..])
  }

  lemma {:induction false} TerminatedAppend(a: seq<string>, b: seq<string>)
    ensures Terminated(a + b) == Terminated(a) + Terminated(b)
  {
    if a == [] {
      assert a + b == b;
    } else {
      assert (a + b)[1..] == a[1..] + b;
      TerminatedAppend(a[1..], b);
    }
  }

  lemma {:induction false} TerminatedIsJoin(lines: seq<string>)
    requires lines != []
    ensures Terminated(lines) == Join(lines, '\n') + "\n"
  {
    if |lines| > 1 { TerminatedIsJoin(lines[1..]); }
  }

  lemma LinesAppend(a: seq<seq<Option<string>>>, b: seq<seq<Option<string>>>)
    ensures Lines(a + b) == Lines(a) + Lines(b)
    ensures Terminated(Lines(a + b)) == Terminated(Lines(a)) + Terminated(Lines(b))
  {
    assert Lines(a + b) == Lines(a) + Lines(b);
    TerminatedAppend(Lines(a), Lines(b));
  }

  lemma LineOf(row: seq<Option<string>>)
    ensures seq(|row|, j requires 0 <= j < |row| => CsvEscape(row[j])) == Printed(row)
    ensures Terminated(Lines([row])) == Join(Printed(row), ',') + "\n"
  {
    forall j | 0 <= j < |row| ensures CsvEscape(row[j]) == Cell(row[j]) { SameEscape(row[j]); }
    assert Lines([row]) == [Join(Printed(row), ',')];
    assert Lines([row])[1..] == [];
  }

  lemma LinePrinted(out: string, batch: seq<seq<Option<string>>>, i: nat)
    requires i < |batch|
    ensures var line := Join(seq(|batch[i]|, j requires 0 <= j < |batch[i]| => CsvEscape(batch[i][j])), ',');
            out + Terminated(Lines(batch[..i])) + (line + "\n") == out + Terminated(Lines(batch[..i + 1]))
  {
    LineOf(batch[i]);
    LinesAppend(batch[..i], [batch[i]]);
    assert batch[..i + 1] == batch[..i] + [batch[i]];
  }

  /** The inner loop: one line for each row of a batch. */
  method WriteBatch(out: string, batch: seq<seq<Option<string>>>) returns (out': string)
    ensures out' == out + Terminated(Lines(batch))
  {
    out' := out;
    var i := 0;
    while i < |batch|
      invariant 0 <= i <= |batch|
      invariant out' == out + Terminated(Lines(batch[..i]))
    {
      var line := Join(seq(|batch[i]|, j requires 0 <= j < |batch[i]| => CsvEscape(batch[i][j])), ',');
      LinePrinted(out, batch, i);
      out' := out' + (line + "\n");
      i := i + 1;
    }
    assert batch[..i] == batch;
  }

  /** skip and take over the result of the query. */
  function Batch<T>(rows: seq<T>, skip: nat): (batch: seq<T>)
    ensures |batch| <= BATCH_SIZE && (skip < |rows| ==> batch != [])
    ensures |batch| < BATCH_SIZE ==> skip + |batch| >= |rows|
    ensures skip <= |rows| ==> skip + |batch| <= |rows| && rows[..skip] + batch == rows[..skip + |batch|]
  {
    if skip >= |rows| then [] else if skip + BATCH_SIZE <= |rows| then rows[skip..skip + BATCH_SIZE] else rows[skip..]
  }

  lemma BatchPrinted(header: string, rows: seq<seq<Option<string>>>, skip: nat)
    requires skip <= |rows|
    ensures var n := skip + |Batch(rows, skip)|;
            header + Terminated(Lines(rows[..skip])) + Terminated(Lines(Batch(rows, skip))) == header + Terminated(Lines(rows[..n]))
  {
    LinesAppend(rows[..skip], Batch(rows, skip));
  }

  /** The batches of a query whose result does not change while the job runs print every row once, in order. */
  method WriteBatches(header: string, rows: seq<seq<Option<string>>>) returns (out: string, count: nat)
    ensures out == header + Terminated(Lines(rows)) && count == |rows|
  {
    out := header;
    var skip := 0;
    count := 0;
    assert rows[..0] == [];
    while true
      invariant 0 <= skip && count == if skip <= |rows| then skip else |rows|
      invariant out == header + Terminated(Lines(rows[..count]))
      decreases |rows| + BATCH_SIZE - skip
    {
      var batch := Batch(rows, skip);
      if |batch| == 0 { break; }
      BatchPrinted(header, rows, skip);
      out := WriteBatch(out, batch);
      count := count + |batch|;
      skip := skip + BATCH_SIZE;
      if |batch| < BATCH_SIZE { break; }
    }
    assert rows[..count] == rows;
  }

  method Handle(rows: seq<seq<Option<string>>>) returns (out: string, count: nat)
    ensures out == CSV_HEADER + "\n" + Terminated(Lines(rows)) && count == |rows|
  {
    out, count := WriteBatches(CSV_HEADER + "\n", rows);
  }

  lemma ColumnsArePlain()
    ensures forall i :: 0 <= i < |ADMIN_COLUMNS| ==> Plain(ADMIN_COLUMNS[i])
  {
    assert Plain("id") && Plain("senderId") && Plain("receiverId") && Plain("amount") && Plain("currency");
    assert Plain("fee") && Plain("status") && Plain("reference") && Plain("receiptNumber") && Plain("createdAt");
  }

  /** The file of the admin export, less its last line feed, reads back as the columns and every row. */
  lemma AdminRoundTrip(rows: seq<seq<Option<string>>>)
    requires forall i :: 0 <= i < |rows| ==> rows[i] != []
    ensures var out := CSV_HEADER + "\n" + Terminated(Lines(rows));
            var columns := ["id", "senderId", "receiverId", "amount", "currency", "fee", "status", "reference", "receiptNumber", "createdAt"];
            Read(out[..|out| - 1]) == Some([columns] + Contents(rows))
  {
    ColumnsArePlain();
    TerminatedRoundTrip(ADMIN_COLUMNS, rows);
  }

  lemma TerminatedRoundTrip(columns: seq<string>, rows: seq<seq<Option<string>>>)
    requires columns != [] && forall i :: 0 <= i < |columns| ==> Plain(columns[i])
    requires forall i :: 0 <= i < |rows| ==> rows[i] != []
    ensures var out := Join(columns, ',') + "\n" + Terminated(Lines(rows));
            Read(out[..|out| - 1]) == Some([columns] + Contents(rows))
  {
    var out := Join(columns, ',') + "\n" + Terminated(Lines(rows));
    var cells := seq(|columns|, i requires 0 <= i < |columns| => Some(columns[i]));
    PlainHeader(columns);
    var all := [cells] + rows;
    assert Lines(all) == [Join(columns, ',')] + Lines(rows);
    assert Lines(all)[1..] == Lines(rows);
    TerminatedIsJoin(Lines(all));
    assert out == Join(Lines(all), '\n') + "\n";
    assert out[..|out| - 1] == Join(Lines(all), '\n');
    assert Contents(all) == [columns] + Contents(rows);
    ReadLines(all);
  }
}
