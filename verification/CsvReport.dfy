/** The CSV printer of the accounting reports and the parser for its format: RFC 4180 section 2,
    with CRLF strictly as the separator between records. */
module CsvReport {
  import opened Common

  // ---------- The printer ----------

  /** A cell is null or undefined, or has the text `String` or `JSON.stringify` gives it. */
  datatype Cell = Null | Text(text: string)

  /** A row lists its own keys in `Object.keys` order, each once. */
  type Row = seq<(string, Cell)>

  predicate Special(c: char) { c == '"' || c == ',' || c == '\r' || c == '\n' }

  function DoubledChar(c: char): string { if c == '"' then "\"\"" else [c] }

  function Doubled(text: string): string {
    if text == "" then "" else DoubledChar(text[0]) + Doubled(text[1..])
  }

  predicate NeedsQuotes(text: string) {
    exists i :: 0 <= i < |text| && Special(text[i])
  }

  function EscapeText(text: string): string {
    if NeedsQuotes(text) then "\"" + Doubled(text) + "\"" else text
  }

  function Escape(cell: Cell): string {
    match cell case Null => "" case Text(text) => EscapeText(text)
  }

  function Join(parts: seq<string>, separator: string): string {
    if parts == [] then "" else if |parts| == 1 then parts[0] else parts[0] + separator + Join(parts[1..], separator)
  }

  function Map<A, B>(f: A -> B, s: seq<A>): (r: seq<B>)
    ensures |r| == |s| && forall i :: 0 <= i < |s| ==> r[i] == f(s[i])
  {
    seq(|s|, i requires 0 <= i < |s| => f(s[i]))
  }

  function Keys(row: Row): seq<string> {
    Map((entry: (string, Cell)) => entry.0, row)
  }

  function AllKeys(rows: seq<Row>): seq<string> {
    if rows == [] then [] else Keys(rows[0]) + AllKeys(rows[1..])
  }

  /** `[...new Set(keys)]`: each key once, where it first appears. */
  function Distinct(keys: seq<string>): seq<string> {
    if keys == [] then []
    else
      var front := Distinct(keys[..|keys| - 1]);
      if keys[|keys| - 1] in front then front else front + [keys[|keys| - 1]]
  }

  function Columns(rows: seq<Row>): seq<string> {
    Distinct(AllKeys(rows))
  }

  /** `row[column]`: undefined when the row lacks the key. */
  function Lookup(row: Row, column: string): Cell {
    if row == [] then Null else if row[0].0 == column then row[0].1 else Lookup(row[1..], column)
  }

  function Line(columns: seq<string>, row: Row): string {
    Join(Map(column => Escape(Lookup(row, column)), columns), ",")
  }

  function Serialize(rows: seq<Row>): string {
    if rows == [] then ""
    else
      var columns := Columns(rows);
      Join([Join(Map(EscapeText, columns), ",")] + Map(row => Line(columns, row), rows), "\r\n")
  }

  // ---------- What the text stands for ----------

  function CellText(cell: Cell): string {
    match cell case Null => "" case Text(text) => text
  }

  /** The header record and one record per row; missing and null cells are empty. */
  function Table(rows: seq<Row>): seq<seq<string>> {
    [Columns(rows)] + Map(row => Map(column => CellText(Lookup(row, column)), Columns(rows)), rows)
  }

  /** The printed form of any table of texts. */
  function PrintRecord(record: seq<string>): string { Join(Map(EscapeText, record), ",") }

  function PrintTable(table: seq<seq<string>>): string { Join(Map(PrintRecord, table), "\r\n") }

  // ---------- The parser ----------

  datatype Field = Field(text: string, rest: string)

  /** After the opening quote: a doubled quote is one quote, a single one ends the field. */
  function QuotedField(s: string): Option<Field>
    decreases |s|
  {
    if s == "" then None
    else if s[0] != '"' then
      match QuotedField(s[1..]) case None => None case Some(f) => Some(Field([s[0]] + f.text, f.rest))
    else if |s| > 1 && s[1] == '"' then
      match QuotedField(s[2..]) case None => None case Some(f) => Some(Field("\"" + f.text, f.rest))
    else Some(Field("", s[1..]))
  }

  /** The longest text without quotes, commas, CR and LF. */
  function PlainField(s: string): Field
    decreases |s|
  {
    if s == "" || Special(s[0]) then Field("", s)
    else var f := PlainField(s[1..]); Field([s[0]] + f.text, f.rest)
  }

  function ParseField(s: string): (r: Option<Field>)
    ensures r.Some? ==> |r.value.rest| <= |s|
  {
    if s != "" && s[0] == '"' then QuotedShrinks(s[1..]); QuotedField(s[1..])
    else PlainShrinks(s); Some(PlainField(s))
  }

  lemma QuotedShrinks(s: string)
    ensures QuotedField(s).Some? ==> |QuotedField(s).value.rest| < |s|
    decreases |s|
  {
  }

  lemma PlainShrinks(s: string)
    ensures |PlainField(s).rest| <= |s|
    decreases |s|
  {
  }

  /** The records of `s` when `record` holds the fields of the current one read so far. A field is
      followed by a comma, by CRLF, or by the end; anything else is not in the format. */
  function ParseFrom(s: string, record: seq<string>): Option<seq<seq<string>>>
    decreases |s|
  {
    match ParseField(s)
    case None => None
    case Some(f) =>
      if f.rest == "" then Some([record + [f.text]])
      else if f.rest[0] == ',' then ParseFrom(f.rest[1..], record + [f.text])
      else if |f.rest| > 1 && f.rest[0] == '\r' && f.rest[1] == '\n' then
        match ParseFrom(f.rest[2..], [])
        case None => None
        case Some(records) => Some([record + [f.text]] + records)
      else None
  }

  function Parse(s: string): Option<seq<seq<string>>> { ParseFrom(s, []) }

  // ---------- Round trips ----------

  predicate EndsField(rest: string) {
    rest == "" || rest[0] == ',' || rest[0] == '\r'
  }

  lemma {:induction false} QuotedRoundTrip(text: string, rest: string)
    requires rest == "" || rest[0] != '"'
    ensures QuotedField(Doubled(text) + "\"" + rest) == Some(Field(text, rest))
  {
    var s := Doubled(text) + "\"" + rest;
    if text == "" {
      assert s == "\"" + rest && s[1..] == rest;
    } else {
      QuotedRoundTrip(text[1..], rest);
      var tail := Doubled(text[1..]) + "\"" + rest;
      assert s == DoubledChar(text[0]) + tail;
      hide QuotedField, Doubled, DoubledChar;
      QuotedStep(text[0], tail);
      assert [text[0]] + text[1..] == text;
    }
  }

  lemma QuotedStep(c: char, tail: string)
    ensures QuotedField(DoubledChar(c) + tail)
         == match QuotedField(tail) case None => None case Some(f) => Some(Field([c] + f.text, f.rest))
  {
    var s := DoubledChar(c) + tail;
    assert s[0] == c && s[|DoubledChar(c)|..] == tail;
  }

  lemma {:induction false} PlainRoundTrip(text: string, rest: string)
    requires !NeedsQuotes(text) && EndsField(rest)
    ensures PlainField(text + rest) == Field(text, rest)
  {
    if text == "" {
      assert text + rest == rest;
    } else {
      forall i | 0 <= i < |text[1..]| ensures !Special(text[1..][i]) {
        assert !Special(text[i + 1]);
      }
      PlainRoundTrip(text[1..], rest);
      assert !Special(text[0]);
      assert (text + rest)[1..] == text[1..] + rest;
      assert [text[0]] + text[1..] == text;
    }
  }

  /** A printed field is read back, whatever its text and whatever may follow it. */
  lemma FieldRoundTrip(text: string, rest: string)
    requires EndsField(rest)
    ensures ParseField(EscapeText(text) + rest) == Some(Field(text, rest))
  {
    hide QuotedField, PlainField, Doubled;
    var s := EscapeText(text) + rest;
    if NeedsQuotes(text) {
      QuotedRoundTrip(text, rest);
      assert s[1..] == Doubled(text) + "\"" + rest;
    } else {
      PlainRoundTrip(text, rest);
      assert s == "" || s[0] != '"' by {
        if text != "" { assert !Special(text[0]); }
      }
    }
  }

  lemma {:induction false} RecordRoundTrip(before: seq<string>, fields: seq<string>, rest: string)
    requires fields != [] && (rest == "" || (|rest| > 1 && rest[..2] == "\r\n"))
    ensures var record := before + fields;
            ParseFrom(PrintRecord(fields) + rest, before)
            == if rest == "" then Some([record])
               else match ParseFrom(rest[2..], []) case None => None case Some(records) => Some([record] + records)
    decreases |fields|
  {
    var printed := Map(EscapeText, fields);
    var s := PrintRecord(fields) + rest;
    if |fields| == 1 {
      FieldRoundTrip(fields[0], rest);
      assert before + [fields[0]] == before + fields;
    } else {
      var tail := PrintRecord(fields[1..]) + rest;
      assert printed[1..] == Map(EscapeText, fields[1..]);
      assert s == EscapeText(fields[0]) + ("," + tail);
      FieldRoundTrip(fields[0], "," + tail);
      assert ("," + tail)[1..] == tail;
      RecordRoundTrip(before + [fields[0]], fields[1..], rest);
      assert before + [fields[0]] + fields[1..] == before + fields;
    }
  }

  /** Printing and parsing undo each other on every table whose records have a field. */
  lemma {:induction false} TableRoundTrip(table: seq<seq<string>>)
    requires table != [] && forall i :: 0 <= i < |table| ==> table[i] != []
    ensures Parse(PrintTable(table)) == Some(table)
    decreases |table|
  {
    var printed := Map(PrintRecord, table);
    assert [] + table[0] == table[0];
    if |table| == 1 {
      RecordRoundTrip([], table[0], "");
      assert PrintTable(table) == PrintRecord(table[0]) + "";
      assert table == [[] + table[0]];
    } else {
      var rest := "\r\n" + PrintTable(table[1..]);
      assert printed[1..] == Map(PrintRecord, table[1..]);
      assert PrintTable(table) == PrintRecord(table[0]) + rest;
      TableRoundTrip(table[1..]);
      assert rest[2..] == PrintTable(table[1..]);
      RecordRoundTrip([], table[0], rest);
      assert [[] + table[0]] + table[1..] == table;
    }
  }

  /** What the parser accepts always has a record, and every record a field. */
  lemma {:induction false} ParsedShape(s: string, record: seq<string>)
    ensures var t := ParseFrom(s, record);
            t.Some? ==> t.value != [] && forall i :: 0 <= i < |t.value| ==> t.value[i] != []
    decreases |s|
  {
    var f := ParseField(s);
    if f.Some? && f.value.rest != "" {
      if f.value.rest[0] == ',' {
        ParsedShape(f.value.rest[1..], record + [f.value.text]);
      } else if |f.value.rest| > 1 {
        ParsedShape(f.value.rest[2..], []);
      }
    }
  }

  /** Printing a parsed text again loses nothing: only the quoting may be normalised. */
  lemma ReprintKeepsMeaning(s: string)
    ensures Parse(s).Some? ==> Parse(PrintTable(Parse(s).value)) == Parse(s)
  {
    if Parse(s).Some? {
      ParsedShape(s, []);
      TableRoundTrip(Parse(s).value);
    }
  }

  lemma LineIsRecord(columns: seq<string>, row: Row)
    ensures Line(columns, row) == PrintRecord(Map(column => CellText(Lookup(row, column)), columns))
  {
    var texts := Map(column => CellText(Lookup(row, column)), columns);
    var cells := Map(column => Escape(Lookup(row, column)), columns);
    assert EscapeText("") == "";
    assert cells == Map(EscapeText, texts);
  }

  lemma SerializeIsPrint(rows: seq<Row>)
    requires rows != []
    ensures Serialize(rows) == PrintTable(Table(rows))
  {
    var columns := Columns(rows);
    var lines := [Join(Map(EscapeText, columns), ",")] + Map(row => Line(columns, row), rows);
    var printed := Map(PrintRecord, Table(rows));
    forall i | 0 <= i < |lines| ensures lines[i] == printed[i] {
      if i > 0 { LineIsRecord(columns, rows[i - 1]); }
    }
    assert lines == printed;
  }

  /** Parsing the report returns the columns and each row's cell texts, exactly when the rows have a
      column; without one, every record is read as a single empty field. */
  lemma SerializeRoundTrip(rows: seq<Row>)
    ensures Parse(Serialize(rows)) == Some(Table(rows)) <==> Columns(rows) != []
  {
    var table := Table(rows);
    if Columns(rows) != [] {
      forall i | 0 <= i < |table| ensures table[i] != [] {
        if i > 0 { assert |table[i]| == |Columns(rows)|; }
      }
      SerializeIsPrint(rows);
      TableRoundTrip(table);
    } else {
      ParsedShape(Serialize(rows), []);
      assert table[0] == [];
    }
  }

  /** The columns are the distinct keys in first-appearance order: each key of a row is a column, and
      columns stand in the order in which their first occurrences do. */
  lemma {:induction false} DistinctKeepsFirstAppearance(keys: seq<string>)
    ensures var d := Distinct(keys);
            && (forall k :: k in d <==> k in keys)
            && (forall i, j :: 0 <= i < j < |d| ==> d[i] != d[j] && FirstIndex(keys, d[i]) < FirstIndex(keys, d[j]))
  {
    if keys != [] {
      var front, last := keys[..|keys| - 1], keys[|keys| - 1];
      DistinctKeepsFirstAppearance(front);
      assert keys == front + [last];
      forall k ensures FirstIndex(keys, k)
                        == if k in front then FirstIndex(front, k) else if k == last then |front| else |keys| {
        FirstIndexAppend(front, last, k);
      }
      forall k | k in front ensures FirstIndex(front, k) < |front| { FirstIndexFound(front, k); }
    }
  }

  function FirstIndex(keys: seq<string>, key: string): nat {
    if keys == [] || keys[0] == key then 0 else 1 + FirstIndex(keys[1..], key)
  }

  lemma {:induction false} FirstIndexAppend(front: seq<string>, last: string, key: string)
    ensures FirstIndex(front + [last], key)
         == if key in front then FirstIndex(front, key) else if key == last then |front| else |front| + 1
  {
    if front != [] {
      assert (front + [last])[1..] == front[1..] + [last];
      FirstIndexAppend(front[1..], last, key);
    }
  }

  lemma {:induction false} FirstIndexFound(keys: seq<string>, key: string)
    requires key in keys
    ensures FirstIndex(keys, key) < |keys| && keys[FirstIndex(keys, key)] == key
  {
    if keys[0] != key { FirstIndexFound(keys[1..], key); }
  }

  lemma {:induction false} FirstIndexConcat(a: seq<string>, b: seq<string>, key: string)
    ensures FirstIndex(a + b, key) == if key in a then FirstIndex(a, key) else |a| + FirstIndex(b, key)
  {
    if a == [] {
      assert a + b == b;
    } else {
      assert (a + b)[1..] == a[1..] + b;
      FirstIndexConcat(a[1..], b, key);
    }
  }

  lemma {:induction false} FirstIndexIsLeast(keys: seq<string>, key: string, p: nat)
    requires p < |keys| && keys[p] == key
    ensures FirstIndex(keys, key) <= p
  {
    if keys[0] != key { FirstIndexIsLeast(keys[1..], key, p - 1); }
  }

  // ---------- The report itself ----------

  /** Entry `p` of row `i` has this key. */
  predicate HasKey(rows: seq<Row>, i: int, p: int, key: string) {
    0 <= i < |rows| && 0 <= p < |rows[i]| && rows[i][p].0 == key
  }

  /** `first` appears before `second` does, reading the rows in order and each row's keys in order. */
  ghost predicate AppearsBefore(rows: seq<Row>, first: string, second: string) {
    exists i, p :: HasKey(rows, i, p, first)
                   && forall j, q :: HasKey(rows, j, q, second) ==> i < j || (i == j && p < q)
  }

  /** `Object.keys` gives each key once. */
  ghost predicate KeysOnce(row: Row) {
    forall p, q :: 0 <= p < q < |row| ==> row[p].0 != row[q].0
  }

  lemma {:induction false} AllKeysAreTheRows(rows: seq<Row>, key: string)
    ensures key in AllKeys(rows) <==> exists i, p :: HasKey(rows, i, p, key)
  {
    if rows != [] {
      var rest := rows[1..];
      AllKeysAreTheRows(rest, key);
      if key in Keys(rows[0]) {
        var p :| 0 <= p < |rows[0]| && Keys(rows[0])[p] == key;
        assert HasKey(rows, 0, p, key);
      } else if i, p :| HasKey(rest, i, p, key) {
        assert HasKey(rows, i + 1, p, key);
      }
      if i, p :| HasKey(rows, i, p, key) {
        if i == 0 { assert Keys(rows[0])[p] == key; } else { assert HasKey(rest, i - 1, p, key); }
      }
    }
  }

  lemma {:induction false} IndexIsAppearance(rows: seq<Row>, first: string, second: string)
    requires first in AllKeys(rows) && second in AllKeys(rows)
    requires FirstIndex(AllKeys(rows), first) < FirstIndex(AllKeys(rows), second)
    ensures AppearsBefore(rows, first, second)
  {
    var keys, rest := Keys(rows[0]), rows[1..];
    FirstIndexConcat(keys, AllKeys(rest), first);
    FirstIndexConcat(keys, AllKeys(rest), second);
    if first in keys {
      FirstIndexFound(keys, first);
      var p := FirstIndex(keys, first);
      assert HasKey(rows, 0, p, first);
      forall j, q | HasKey(rows, j, q, second) ensures 0 < j || p < q {
        if j == 0 { FirstIndexIsLeast(keys, second, q); }
      }
    } else {
      if second in keys { FirstIndexFound(keys, second); }
      IndexIsAppearance(rest, first, second);
      var i, p :| HasKey(rest, i, p, first)
                  && forall j, q :: HasKey(rest, j, q, second) ==> i < j || (i == j && p < q);
      assert HasKey(rows, i + 1, p, first);
      NotInFirstRow(rows, second);
      forall j, q | HasKey(rows, j, q, second) ensures i + 1 < j || (i + 1 == j && p < q) {
        assert HasKey(rest, j - 1, q, second);
      }
    }
  }

  lemma NotInFirstRow(rows: seq<Row>, key: string)
    requires rows != [] && key !in Keys(rows[0])
    ensures forall j, q :: HasKey(rows, j, q, key) ==> j > 0
  {
    forall q | 0 <= q < |rows[0]| ensures rows[0][q].0 != key { assert Keys(rows[0])[q] in Keys(rows[0]); }
  }

  lemma {:induction false} LookupFinds(row: Row, column: string)
    requires KeysOnce(row)
    ensures forall p :: 0 <= p < |row| && row[p].0 == column ==> Lookup(row, column) == row[p].1
    ensures (forall p :: 0 <= p < |row| ==> row[p].0 != column) ==> Lookup(row, column) == Null
  {
    if row != [] {
      forall p, q | 0 <= p < q < |row[1..]| ensures row[1..][p].0 != row[1..][q].0 {
        assert row[p + 1].0 != row[q + 1].0;
      }
      LookupFinds(row[1..], column);
    }
  }

  /** The record is as long as the header: under a key of the row it has the text of its cell, empty
      for null, and elsewhere nothing. */
  ghost predicate Shows(record: seq<string>, header: seq<string>, row: Row) {
    && |record| == |header|
    && (forall p, j :: 0 <= p < |row| && 0 <= j < |header| && row[p].0 == header[j] ==>
          record[j] == match row[p].1 case Null => "" case Text(text) => text)
    && (forall j :: 0 <= j < |header| && (forall p :: 0 <= p < |row| ==> row[p].0 != header[j]) ==> record[j] == "")
  }

  lemma RecordShowsRow(rows: seq<Row>, k: nat)
    requires 0 < k <= |rows| && KeysOnce(rows[k - 1])
    ensures |Table(rows)| == |rows| + 1 && Shows(Table(rows)[k], Columns(rows), rows[k - 1])
  {
    hide Lookup, KeysOnce;
    var row, columns := rows[k - 1], Columns(rows);
    assert Table(rows)[k] == Map(column => CellText(Lookup(row, column)), columns);
    forall j | 0 <= j < |columns|
      ensures forall p :: 0 <= p < |row| && row[p].0 == columns[j] ==> Lookup(row, columns[j]) == row[p].1
      ensures (forall p :: 0 <= p < |row| ==> row[p].0 != columns[j]) ==> Lookup(row, columns[j]) == Null
    {
      LookupFinds(row, columns[j]);
    }
  }

  /** What a reader of the report gets, for rows with a key among them. The header has exactly the keys
      of the rows, each once, in order of first appearance, and a record per row shows its cells. */
  lemma ReportHoldsEveryCell(rows: seq<Row>)
    requires forall i :: 0 <= i < |rows| ==> KeysOnce(rows[i])
    requires exists i, p, key :: HasKey(rows, i, p, key)
    ensures Parse(Serialize(rows)).Some?
    ensures var t := Parse(Serialize(rows)).value;
            && |t| == |rows| + 1
            && (forall key :: key in t[0] <==> exists i, p :: HasKey(rows, i, p, key))
            && (forall a, b :: 0 <= a < b < |t[0]| ==> t[0][a] != t[0][b] && AppearsBefore(rows, t[0][a], t[0][b]))
            && (forall k :: 0 < k < |t| ==> Shows(t[k], t[0], rows[k - 1]))
  {
    hide Parse, Serialize, Table, Columns, AppearsBefore, KeysOnce, Shows;
    var columns := Columns(rows);
    HeaderIsColumns(rows);
    var i0, p0, key0 :| HasKey(rows, i0, p0, key0);
    assert key0 in columns;
    SerializeRoundTrip(rows);
    forall k | 0 < k <= |rows| ensures Shows(Table(rows)[k], columns, rows[k - 1]) { RecordShowsRow(rows, k); }
  }

  lemma HeaderIsColumns(rows: seq<Row>)
    ensures |Table(rows)| == |rows| + 1 && Table(rows)[0] == Columns(rows)
    ensures forall key :: key in Columns(rows) <==> exists i, p :: HasKey(rows, i, p, key)
    ensures forall a, b :: 0 <= a < b < |Columns(rows)| ==>
              Columns(rows)[a] != Columns(rows)[b] && AppearsBefore(rows, Columns(rows)[a], Columns(rows)[b])
  {
    hide AppearsBefore, FirstIndex, Distinct, AllKeys;
    var keys, columns := AllKeys(rows), Columns(rows);
    DistinctKeepsFirstAppearance(keys);
    forall key ensures key in columns <==> exists i, p :: HasKey(rows, i, p, key) { AllKeysAreTheRows(rows, key); }
    forall a, b | 0 <= a < b < |columns|
      ensures columns[a] != columns[b] && AppearsBefore(rows, columns[a], columns[b])
    {
      assert columns[a] in keys && columns[b] in keys;
      IndexIsAppearance(rows, columns[a], columns[b]);
    }
  }

  /** No rows print nothing, and a cell is quoted only when its text has a quote, a comma, CR or LF. */
  lemma QuotedOnlyWhenNeeded(text: string)
    ensures Serialize([]) == ""
    ensures if '"' in text || ',' in text || '\r' in text || '\n' in text
            then |EscapeText(text)| >= |text| + 2 && EscapeText(text)[0] == '"'
            else EscapeText(text) == text
  {
    DoubledIsLonger(text);
  }

  lemma {:induction false} DoubledIsLonger(text: string)
    ensures |Doubled(text)| >= |text|
  {
    if text != "" { DoubledIsLonger(text[1..]); }
  }
}
