/** The CSV of an insights export (csv-formatter.service.ts) and a reader of the RFC 4180 format. */
module Csv {
  import opened Prelude

  // ---------- The printer ----------

  datatype Kind = Text | Count | Monetary | Percentage | Decimal | Date

  /** Where a column finds its value in a row. */
  datatype Source =
    | Field(name: string)
    | FirstAction(list: string, actionType: string)
    | SumOfActions(list: string)

  datatype Column = Column(title: string, kind: Kind, source: Source)

  datatype Action = Action(actionType: string, value: string)

  datatype Row = Row(fields: map<string, string>, lists: map<string, seq<Action>>)

  /** Number formatting, not modelled further: it never gives an empty text. */
  datatype Numbers = Numbers(format: (string, Kind) -> string, sum: seq<string> -> string) {
    ghost predicate Valid() {
      && (forall raw, kind :: format(raw, kind) != "")
      && (forall values :: sum(values) != "")
    }
  }

  function FindAction(actions: seq<Action>, actionType: string): Option<string> {
    if actions == [] then None
    else if actions[0].actionType == actionType then Some(actions[0].value)
    else FindAction(actions[1..], actionType)
  }

  function Values(actions: seq<Action>): seq<string> {
    seq(|actions|, i requires 0 <= i < |actions| => actions[i].value)
  }

  function ExtractValue(row: Row, source: Source, numbers: Numbers): Option<string> {
    match source
    case Field(name) => if name in row.fields then Some(row.fields[name]) else None
    case FirstAction(list, actionType) =>
      if list in row.lists then FindAction(row.lists[list], actionType) else None
    case SumOfActions(list) =>
      if list in row.lists then Some(numbers.sum(Values(row.lists[list]))) else None
  }

  function ParseDate(raw: string): string {
    var parts := Split(raw, '-');
    if |parts| == 3 then parts[2] + "/" + parts[1] + "/" + parts[0] else raw
  }

  function FormatValue(raw: string, kind: Kind, numbers: Numbers): string {
    match kind
    case Text => raw
    case Date => ParseDate(raw)
    case _ => numbers.format(raw, kind)
  }

  predicate Special(c: char) {
    c == ',' || c == '"' || c == '\n' || c == '\r'
  }

  predicate HasSpecial(s: string) {
    exists i :: 0 <= i < |s| && Special(s[i])
  }

  function DoubleQuotes(s: string): string {
    if s == "" then ""
    else (if s[0] == '"' then "\"\"" else [s[0]]) + DoubleQuotes(s[1..])
  }

  function Quoted(s: string): string {
    "\"" + DoubleQuotes(s) + "\""
  }

  function Escape(value: string): string {
    if HasSpecial(value) then Quoted(value) else value
  }

  function FormatCell(row: Row, column: Column, numbers: Numbers): string {
    match ExtractValue(row, column.source, numbers)
    case None => "\"-\""
    case Some(raw) =>
      if raw == "" then "\"-\"" else Escape(FormatValue(raw, column.kind, numbers))
  }

  const BOM: string := "\U{FEFF}"

  function Header(columns: seq<Column>): string {
    Join(seq(|columns|, j requires 0 <= j < |columns| => Escape(columns[j].title)), ",")
  }

  function Line(row: Row, columns: seq<Column>, numbers: Numbers): string {
    Join(seq(|columns|, j requires 0 <= j < |columns| => FormatCell(row, columns[j], numbers)), ",")
  }

  function Format(rows: seq<Row>, columns: seq<Column>, numbers: Numbers): string {
    BOM + Join([Header(columns)] + seq(|rows|, i requires 0 <= i < |rows| => Line(rows[i], columns, numbers)), "\r\n")
  }

  // ---------- The reader: section 2 of RFC 4180 ----------

  /** The rest of an escaped field, after its opening quote, and what follows the field. */
  function ReadQuoted(s: string): (r: Option<(string, string)>)
    ensures r.Some? ==> |r.value.1| < |s|
  {
    if s == "" then None
    else if s[0] != '"' then
      match ReadQuoted(s[1..])
      case None => None
      case Some((v, rest)) => Some(([s[0]] + v, rest))
    else if |s| > 1 && s[1] == '"' then
      match ReadQuoted(s[2..])
      case None => None
      case Some((v, rest)) => Some(("\"" + v, rest))
    else Some(("", s[1..]))
  }

  /** The longest run of characters a non-escaped field may hold. */
  function ReadBare(s: string): (r: (string, string))
    ensures |r.1| <= |s|
  {
    if s == "" || Special(s[0]) then ("", s)
    else var (v, rest) := ReadBare(s[1..]); ([s[0]] + v, rest)
  }

  function ReadField(s: string): (r: Option<(string, string)>)
    ensures r.Some? ==> |r.value.1| <= |s|
  {
    if s != "" && s[0] == '"' then ReadQuoted(s[1..]) else Some(ReadBare(s))
  }

  function ReadRecord(s: string): (r: Option<(seq<string>, string)>)
    ensures r.Some? ==> |r.value.1| <= |s|
    decreases |s|
  {
    match ReadField(s)
    case None => None
    case Some((v, rest)) =>
      if rest != "" && rest[0] == ',' then
        match ReadRecord(rest[1..])
        case None => None
        case Some((vs, end)) => Some(([v] + vs, end))
      else Some(([v], rest))
  }

  /** Records separated by CRLF; the last one may end with one. */
  function ReadFile(s: string): Option<seq<seq<string>>>
    decreases |s|
  {
    match ReadRecord(s)
    case None => None
    case Some((record, rest)) =>
      if rest == "" || rest == "\r\n" then Some([record])
      else if "\r\n" <= rest then
        match ReadFile(rest[2..])
        case None => None
        case Some(records) => Some([record] + records)
      else None
  }

  // ---------- The reader undoes the printer ----------

  lemma {:induction false} QuotedReadsBack(v: string, rest: string)
    requires rest == "" || rest[0] != '"'
    ensures ReadQuoted(DoubleQuotes(v) + "\"" + rest) == Some((v, rest))
  {
    var s := DoubleQuotes(v) + "\"" + rest;
    if v == "" {
      assert s == "\"" + rest;
    } else {
      QuotedReadsBack(v[1..], rest);
      var tail := DoubleQuotes(v[1..]) + "\"" + rest;
      assert [v[0]] + v[1..] == v;
      if v[0] == '"' {
        assert s == "\"\"" + tail;
        assert s[2..] == tail;
      } else {
        assert s == [v[0]] + tail;
        assert s[1..] == tail;
      }
    }
  }

  lemma {:induction false} BareReadsBack(v: string, rest: string)
    requires !HasSpecial(v) && (rest == "" || Special(rest[0]))
    ensures ReadBare(v + rest) == (v, rest)
  {
    if v == "" {
      assert v + rest == rest;
    } else {
      assert !Special(v[0]);
      assert forall i :: 0 <= i < |v[1..]| ==> v[1..][i] == v[i + 1];
      BareReadsBack(v[1..], rest);
      assert (v + rest)[1..] == v[1..] + rest;
      assert [v[0]] + v[1..] == v;
    }
  }

  /** `code` is the field `v` as the printer may write it: quotes are optional around plain text. */
  predicate Encodes(code: string, v: string) {
    code == Escape(v) || code == Quoted(v)
  }

  predicate EndsField(rest: string) {
    rest == "" || rest[0] == ',' || rest[0] == '\r'
  }

  lemma FieldReadsBack(code: string, v: string, rest: string)
    requires Encodes(code, v) && EndsField(rest)
    ensures ReadField(code + rest) == Some((v, rest))
  {
    if code == Quoted(v) {
      QuotedFieldReadsBack(v, rest);
    } else {
      BareReadsBack(v, rest);
      if v != "" { assert !Special(v[0]); }
    }
  }

  lemma QuotedFieldReadsBack(v: string, rest: string)
    requires EndsField(rest)
    ensures ReadField(Quoted(v) + rest) == Some((v, rest))
  {
    hide DoubleQuotes, ReadQuoted, ReadBare;
    QuotedReadsBack(v, rest);
    var s := Quoted(v) + rest;
    assert s[0] == '"' && s[1..] == DoubleQuotes(v) + "\"" + rest;
  }

  predicate EncodesAll(codes: seq<string>, values: seq<string>) {
    |codes| == |values| && forall j :: 0 <= j < |codes| ==> Encodes(codes[j], values[j])
  }

  lemma {:induction false} RecordReadsBack(codes: seq<string>, values: seq<string>, rest: string)
    requires EncodesAll(codes, values) && |codes| >= 1
    requires rest == "" || rest[0] == '\r'
    ensures ReadRecord(Join(codes, ",") + rest) == Some((values, rest))
  {
    hide ReadField, Encodes;
    if |codes| == 1 {
      FieldReadsBack(codes[0], values[0], rest);
      assert values == [values[0]];
    } else {
      var tail := Join(codes[1..], ",") + rest;
      RecordReadsBack(codes[1..], values[1..], rest);
      FieldReadsBack(codes[0], values[0], "," + tail);
      assert Join(codes, ",") + rest == codes[0] + ("," + tail);
      assert ("," + tail)[1..] == tail;
      assert [values[0]] + values[1..] == values;
    }
  }

  lemma {:induction false} FileReadsBack(codes: seq<seq<string>>, values: seq<seq<string>>, lines: seq<string>)
    requires |codes| == |values| == |lines| >= 1
    requires forall i :: 0 <= i < |codes| ==> EncodesAll(codes[i], values[i]) && |codes[i]| >= 1
    requires forall i :: 0 <= i < |codes| ==> lines[i] == Join(codes[i], ",")
    requires forall i :: 1 <= i < |codes| ==> lines[i] != ""
    ensures ReadFile(Join(lines, "\r\n")) == Some(values)
  {
    if |codes| == 1 {
      RecordReadsBack(codes[0], values[0], "");
      assert Join(codes[0], ",") + "" == Join(lines, "\r\n");
      assert values == [values[0]];
    } else {
      hide EncodesAll, ReadRecord;
      var tail := Join(lines[1..], "\r\n");
      FileReadsBack(codes[1..], values[1..], lines[1..]);
      RecordReadsBack(codes[0], values[0], "\r\n" + tail);
      assert Join(lines, "\r\n") == lines[0] + ("\r\n" + tail);
      assert lines[1] == lines[1..][0] != "" && tail != "";
      hide Join;
      MoreRecords(lines[0] + ("\r\n" + tail), values[0], tail, values[1..]);
      assert [values[0]] + values[1..] == values;
    }
  }

  lemma MoreRecords(s: string, first: seq<string>, tail: string, others: seq<seq<string>>)
    requires tail != "" && ReadRecord(s) == Some((first, "\r\n" + tail)) && ReadFile(tail) == Some(others)
    ensures ReadFile(s) == Some([first] + others)
  {
    hide ReadRecord;
    assert ("\r\n" + tail)[2..] == tail;
  }

  /** What a cell shows: the formatted value, or "-" where the row has none. */
  function Shown(row: Row, column: Column, numbers: Numbers): string {
    match ExtractValue(row, column.source, numbers)
    case None => "-"
    case Some(raw) => if raw == "" then "-" else FormatValue(raw, column.kind, numbers)
  }

  predicate FirstAt(actions: seq<Action>, actionType: string, k: nat) {
    && k < |actions| && actions[k].actionType == actionType
    && forall j :: 0 <= j < k ==> actions[j].actionType != actionType
  }

  /** The value a column has in a row: of its field, of the first action of its type, or the sum of a list. */
  ghost predicate HasValue(row: Row, source: Source, numbers: Numbers, raw: Option<string>) {
    match source
    case Field(name) => if name in row.fields then raw == Some(row.fields[name]) else raw == None
    case FirstAction(list, actionType) =>
      if list in row.lists && exists a :: a in row.lists[list] && a.actionType == actionType
      then exists k: nat :: FirstAt(row.lists[list], actionType, k) && raw == Some(row.lists[list][k].value)
      else raw == None
    case SumOfActions(list) =>
      if list in row.lists
      then exists values: seq<string> :: |values| == |row.lists[list]| && raw == Some(numbers.sum(values))
             && forall k :: 0 <= k < |values| ==> values[k] == row.lists[list][k].value
      else raw == None
  }

  lemma ValueIs(row: Row, source: Source, numbers: Numbers)
    ensures HasValue(row, source, numbers, ExtractValue(row, source, numbers))
  {
    match source
    case Field(name) =>
    case FirstAction(list, actionType) =>
      if list in row.lists {
        var _ := FirstActionAt(row.lists[list], actionType);
      }
    case SumOfActions(list) =>
      if list in row.lists {
        var values := Values(row.lists[list]);
        assert |values| == |row.lists[list]|;
      }
  }

  lemma {:induction false} FirstActionAt(actions: seq<Action>, actionType: string) returns (k: nat)
    ensures (exists a :: a in actions && a.actionType == actionType) ==>
      FirstAt(actions, actionType, k) && FindAction(actions, actionType) == Some(actions[k].value)
    ensures (forall a :: a in actions ==> a.actionType != actionType) ==> FindAction(actions, actionType) == None
  {
    k := 0;
    if actions != [] {
      assert actions == [actions[0]] + actions[1..];
      if actions[0].actionType != actionType {
        k := FirstActionAt(actions[1..], actionType);
        k := k + 1;
      }
    }
  }

  /** A missing or empty value is shown as a dash, a text as it is, a date turned round, and the rest as a number. */
  lemma ShownIs(row: Row, column: Column, numbers: Numbers, raw: Option<string>)
    requires raw == ExtractValue(row, column.source, numbers)
    ensures raw == None || raw == Some("") ==> Shown(row, column, numbers) == "-"
    ensures raw.Some? && raw.value != "" ==>
      && (column.kind == Text ==> Shown(row, column, numbers) == raw.value)
      && (column.kind == Date ==> Shown(row, column, numbers) == ParseDate(raw.value))
      && (column.kind != Text && column.kind != Date ==>
          Shown(row, column, numbers) == numbers.format(raw.value, column.kind))
  {
  }

  /** Year, month and day become day, month and year; what is not made of three parts stays. */
  lemma DateIs(year: string, month: string, day: string, other: string)
    requires '-' !in year && '-' !in month && '-' !in day && |Split(other, '-')| != 3
    ensures ParseDate(year + "-" + month + "-" + day) == day + "/" + month + "/" + year
    ensures ParseDate(other) == other
  {
    var parts := [year, month, day];
    SplitJoin(parts, '-');
    assert parts[1..] == [month, day] && parts[1..][1..] == [day];
    assert Join([day], "-") == day;
    assert Join([month, day], "-") == month + "-" + day;
    assert Join(parts, "-") == year + "-" + Join([month, day], "-");
    assert year + "-" + (month + "-" + day) == year + "-" + month + "-" + day;
  }

  /** The table: the titles, and then for each row what each column shows of it. */
  lemma TableIs(rows: seq<Row>, columns: seq<Column>, numbers: Numbers, j: nat)
    requires j < |columns|
    ensures var t := Table(rows, columns, numbers);
      && |t| == |rows| + 1 && |t[0]| == |columns| && t[0][j] == columns[j].title
      && forall i :: 0 <= i < |rows| ==> |t[i + 1]| == |columns| && t[i + 1][j] == Shown(rows[i], columns[j], numbers)
  {
  }

  function Table(rows: seq<Row>, columns: seq<Column>, numbers: Numbers): seq<seq<string>> {
    [seq(|columns|, j requires 0 <= j < |columns| => columns[j].title)]
    + seq(|rows|, i requires 0 <= i < |rows| =>
        seq(|columns|, j requires 0 <= j < |columns| => Shown(rows[i], columns[j], numbers)))
  }

  lemma ShownIsNotEmpty(row: Row, column: Column, numbers: Numbers)
    requires numbers.Valid()
    ensures Shown(row, column, numbers) != ""
    ensures Encodes(FormatCell(row, column, numbers), Shown(row, column, numbers))
  {
    assert Quoted("-") == "\"-\"" by {
      assert DoubleQuotes("-") == "-";
    }
  }

  lemma LineIsNotEmpty(row: Row, columns: seq<Column>, numbers: Numbers)
    requires numbers.Valid() && |columns| >= 1
    ensures Line(row, columns, numbers) != ""
  {
    ShownIsNotEmpty(row, columns[0], numbers);
    assert Quoted(Shown(row, columns[0], numbers)) != "";
    assert FormatCell(row, columns[0], numbers) != "";
  }

  /**
   Whatever commas, quotes or line breaks the labels and values hold, an RFC 4180 reader gets back
   one record of labels and one record per row, each with one field per column.
   */
  lemma FormatReadsBack(rows: seq<Row>, columns: seq<Column>, numbers: Numbers)
    requires numbers.Valid() && |columns| >= 1
    ensures BOM == "\U{FEFF}" && BOM <= Format(rows, columns, numbers)
    ensures ReadFile(Format(rows, columns, numbers)[|BOM|..]) == Some(Table(rows, columns, numbers))
  {
    hide Escape, FormatCell, Shown, Join, ReadFile;
    var labels := seq(|columns|, j requires 0 <= j < |columns| => Escape(columns[j].title));
    var cells := seq(|rows|, i requires 0 <= i < |rows| =>
      seq(|columns|, j requires 0 <= j < |columns| => FormatCell(rows[i], columns[j], numbers)));
    var lines := [Header(columns)] + seq(|rows|, i requires 0 <= i < |rows| => Line(rows[i], columns, numbers));
    var table := Table(rows, columns, numbers);
    var codes := [labels] + cells;
    forall i | 0 <= i < |codes|
      ensures EncodesAll(codes[i], table[i]) && lines[i] == Join(codes[i], ",")
      ensures 1 <= i ==> lines[i] != ""
    {
      if 1 <= i {
        forall j | 0 <= j < |columns|
          ensures Encodes(codes[i][j], table[i][j])
        {
          ShownIsNotEmpty(rows[i - 1], columns[j], numbers);
        }
        LineIsNotEmpty(rows[i - 1], columns, numbers);
      }
    }
    FileReadsBack(codes, table, lines);
    assert Format(rows, columns, numbers)[|BOM|..] == Join(lines, "\r\n");
  }
}
