/**
  The text form of the spreadsheet projection (contracts/csv.mjs): an RFC 4180 printer and the parser
  it is the inverse of.
 */
module Csv {
  import opened Prelude

  // ------------------------------------------------------------------ printing

  type Row = seq<string>

  predicate IsSpecial(c: char) {
    c == '"' || c == '\n' || c == '\r' || c == ','
  }

  predicate NeedsQuotes(s: string) {
    exists i | 0 <= i < |s| :: IsSpecial(s[i])
  }

  /** Every double quote written twice. */
  function Doubled(s: string): string {
    if s == "" then "" else (if s[0] == '"' then "\"\"" else [s[0]]) + Doubled(s[1..])
  }

  function EscapeCsvField(s: string): string {
    if NeedsQuotes(s) then "\"" + Doubled(s) + "\"" else s
  }

  function EscapedFields(row: Row): seq<string> {
    seq(|row|, i requires 0 <= i < |row| => EscapeCsvField(row[i]))
  }

  function Line(row: Row): string {
    Join(EscapedFields(row), ",")
  }

  function Lines(rows: seq<Row>): seq<string> {
    seq(|rows|, i requires 0 <= i < |rows| => Line(rows[i]))
  }

  function ToCsv(header: Row, rows: seq<Row>): string {
    Join(Lines([header] + rows), "\n") + "\n"
  }

  // ------------------------------------------------------------------ parsing

  function Prepend(c: char, r: Option<(string, string)>): Option<(string, string)> {
    match r
    case None => None
    case Some((text, rest)) => Some(([c] + text, rest))
  }

  /** The rest of a quoted field, behind its opening quote (RFC 4180, section 2, rules 5 to 7). */
  function ParseQuoted(s: string): (r: Option<(string, string)>)
    ensures r.Some? ==> |r.value.1| < |s|
    decreases |s|
  {
    if s == "" then None
    else if s[0] == '"' then
      if |s| > 1 && s[1] == '"' then Prepend('"', ParseQuoted(s[2..])) else Some(("", s[1..]))
    else Prepend(s[0], ParseQuoted(s[1..]))
  }

  /** An unquoted field: text up to a comma or a line end, free of quotes and carriage returns. */
  function ParsePlain(s: string): (r: Option<(string, string)>)
    ensures r.Some? ==> |r.value.1| <= |s|
    decreases |s|
  {
    if s == "" || s[0] == ',' || s[0] == '\n' then Some(("", s))
    else if IsSpecial(s[0]) then None
    else Prepend(s[0], ParsePlain(s[1..]))
  }

  function ParseField(s: string): (r: Option<(string, string)>)
    ensures r.Some? ==> |r.value.1| <= |s|
  {
    if s != "" && s[0] == '"' then ParseQuoted(s[1..]) else ParsePlain(s)
  }

  /** One record: fields separated by commas, ended by a line feed. */
  function ParseRecord(s: string): (r: Option<(Row, string)>)
    ensures r.Some? ==> |r.value.1| < |s|
    decreases |s|
  {
    match ParseField(s)
    case None => None
    case Some((field, rest)) =>
      if rest != "" && rest[0] == '\n' then Some(([field], rest[1..]))
      else if rest != "" && rest[0] == ',' then
        match ParseRecord(rest[1..]) {
          case None => None
          case Some((fields, after)) => Some(([field] + fields, after))
        }
      else None
  }

  function ParseCsv(s: string): Option<seq<Row>>
    decreases |s|
  {
    if s == "" then Some([])
    else match ParseRecord(s)
      case None => None
      case Some((row, rest)) =>
        match ParseCsv(rest)
        case None => None
        case Some(rows) => Some([row] + rows)
  }

  // ------------------------------------------------------------------ round trip

  lemma {:induction false} QuotedReadsBack(s: string, rest: string)
    requires rest == "" || rest[0] != '"'
    ensures ParseQuoted(Doubled(s) + "\"" + rest) == Some((s, rest))
  {
    if s == "" {
      var text := Doubled(s) + "\"" + rest;
      assert text[1..] == rest;
    } else {
      QuotedReadsBack(s[1..], rest);
      var tail := Doubled(s[1..]) + "\"" + rest;
      var head := if s[0] == '"' then "\"\"" else [s[0]];
      assert Doubled(s) + "\"" + rest == head + tail;
      assert (head + tail)[|head|..] == tail;
      assert [s[0]] + s[1..] == s;
    }
  }

  lemma {:induction false} PlainReadsBack(s: string, rest: string)
    requires !NeedsQuotes(s) && rest != "" && (rest[0] == ',' || rest[0] == '\n')
    ensures ParsePlain(s + rest) == Some((s, rest))
  {
    if s == "" {
      assert s + rest == rest;
    } else {
      assert !IsSpecial(s[0]);
      assert forall i :: 0 <= i < |s[1..]| ==> s[1..][i] == s[i + 1];
      PlainReadsBack(s[1..], rest);
      assert (s + rest)[1..] == s[1..] + rest;
      assert [s[0]] + s[1..] == s;
    }
  }

  lemma QuotedField(body: string, s: string, rest: string)
    requires ParseQuoted(body + "\"" + rest) == Some((s, rest))
    ensures ParseField("\"" + body + "\"" + rest) == Some((s, rest))
  {
    assert ("\"" + body + "\"" + rest)[1..] == body + "\"" + rest;
  }

  lemma PlainField(text: string)
    requires text == "" || text[0] != '"'
    ensures ParseField(text) == ParsePlain(text)
  {
  }

  lemma FieldReadsBack(s: string, rest: string)
    requires rest != "" && (rest[0] == ',' || rest[0] == '\n')
    ensures ParseField(EscapeCsvField(s) + rest) == Some((s, rest))
  {
    if NeedsQuotes(s) {
      QuotedReadsBack(s, rest);
      QuotedField(Doubled(s), s, rest);
    } else {
      PlainReadsBack(s, rest);
      assert s != "" ==> !IsSpecial(s[0]);
      PlainField(s + rest);
    }
  }

  /** What a row reads back as: a row without fields prints like a row with one blank field. */
  function Normal(row: Row): Row {
    if row == [] then [""] else row
  }

  lemma LineSplits(row: Row)
    requires |row| > 1
    ensures Line(row) == EscapeCsvField(row[0]) + "," + Line(row[1..])
  {
    assert EscapedFields(row)[1..] == EscapedFields(row[1..]);
  }

  lemma LastField(s: string, field: string, rest: string)
    requires ParseField(s) == Some((field, "\n" + rest))
    ensures ParseRecord(s) == Some(([field], rest))
  {
    assert ("\n" + rest)[1..] == rest;
  }

  lemma NextField(s: string, field: string, next: string, fields: Row, after: string)
    requires ParseField(s) == Some((field, "," + next)) && ParseRecord(next) == Some((fields, after))
    ensures ParseRecord(s) == Some(([field] + fields, after))
  {
    assert ("," + next)[1..] == next;
  }

  lemma OneFieldReadsBack(field: string, rest: string)
    ensures ParseRecord(EscapeCsvField(field) + "\n" + rest) == Some(([field], rest))
  {
    FieldReadsBack(field, "\n" + rest);
    assert EscapeCsvField(field) + "\n" + rest == EscapeCsvField(field) + ("\n" + rest);
    LastField(EscapeCsvField(field) + "\n" + rest, field, rest);
  }

  lemma OneMoreFieldReadsBack(field: string, more: string, fields: Row, rest: string)
    requires ParseRecord(more + "\n" + rest) == Some((fields, rest))
    ensures ParseRecord(EscapeCsvField(field) + "," + more + "\n" + rest) == Some(([field] + fields, rest))
  {
    var next := more + "\n" + rest;
    FieldReadsBack(field, "," + next);
    assert EscapeCsvField(field) + "," + more + "\n" + rest == EscapeCsvField(field) + ("," + next);
    NextField(EscapeCsvField(field) + "," + more + "\n" + rest, field, next, fields, rest);
  }

  lemma {:induction false} RecordReadsBack(row: Row, rest: string)
    ensures ParseRecord(Line(row) + "\n" + rest) == Some((Normal(row), rest))
  {
    if |row| <= 1 {
      OneFieldReadsBack(Normal(row)[0], rest);
      assert Line(row) == EscapeCsvField(Normal(row)[0]) && Normal(row) == [Normal(row)[0]];
    } else {
      RecordReadsBack(row[1..], rest);
      LineSplits(row);
      OneMoreFieldReadsBack(row[0], Line(row[1..]), row[1..], rest);
      assert [row[0]] + row[1..] == row;
    }
  }

  /** The lines of a table, each with its line end. */
  function Text(rows: seq<Row>): string {
    if rows == [] then "" else Line(rows[0]) + "\n" + Text(rows[1..])
  }

  lemma {:induction false} JoinedLines(rows: seq<Row>)
    requires rows != []
    ensures Join(Lines(rows), "\n") + "\n" == Text(rows)
  {
    if |rows| == 1 {
      assert Text(rows[1..]) == "";
    } else {
      JoinedLines(rows[1..]);
      assert Lines(rows)[1..] == Lines(rows[1..]);
    }
  }

  function AllNormal(rows: seq<Row>): seq<Row> {
    seq(|rows|, i requires 0 <= i < |rows| => Normal(rows[i]))
  }

  lemma {:induction false} TextReadsBack(rows: seq<Row>)
    ensures ParseCsv(Text(rows)) == Some(AllNormal(rows))
  {
    if rows == [] {
      assert AllNormal(rows) == [];
    } else {
      TextReadsBack(rows[1..]);
      RecordReadsBack(rows[0], Text(rows[1..]));
      assert AllNormal(rows) == [Normal(rows[0])] + AllNormal(rows[1..]);
    }
  }

  /** Whatever the fields hold, parsing the printed table returns its header and rows, a row without
      any field coming back as one blank field. */
  lemma CsvReadsBack(header: Row, rows: seq<Row>)
    ensures ParseCsv(ToCsv(header, rows)) == Some(AllNormal([header] + rows))
  {
    JoinedLines([header] + rows);
    TextReadsBack([header] + rows);
  }

  ghost function BlankRow(rows: seq<Row>): (i: nat)
    requires exists row :: row in rows && row == []
    ensures i < |rows| && rows[i] == []
  {
    var i :| 0 <= i < |rows| && rows[i] == [];
    i
  }

  /** So the table comes back unchanged exactly when each of its rows has a field... */
  lemma CsvRoundTripIff(header: Row, rows: seq<Row>)
    ensures ParseCsv(ToCsv(header, rows)) == Some([header] + rows) <==>
      header != [] && forall row :: row in rows ==> row != []
  {
    CsvReadsBack(header, rows);
    var table := [header] + rows;
    if header != [] && forall row :: row in rows ==> row != [] {
      assert forall i :: 0 <= i < |rows| ==> rows[i] in rows;
      assert AllNormal(table) == table;
    } else {
      var i := if header == [] then 0 else BlankRow(rows) + 1;
      assert AllNormal(table)[i] != table[i];
    }
  }

  /** ...and on such tables printing is injective. */
  lemma ToCsvIsInjective(header: Row, rows: seq<Row>, header': Row, rows': seq<Row>)
    requires header != [] && header' != [] && (forall row :: row in rows + rows' ==> row != [])
    requires ToCsv(header, rows) == ToCsv(header', rows')
    ensures header == header' && rows == rows'
  {
    assert forall row :: row in rows || row in rows' ==> row in rows + rows';
    CsvRoundTripIff(header, rows);
    CsvRoundTripIff(header', rows');
    assert [header] + rows == [header'] + rows';
    assert ([header] + rows)[1..] == rows && ([header'] + rows')[1..] == rows';
  }

  lemma {:induction false} DoubledIsNotShorter(s: string)
    ensures |Doubled(s)| >= |s|
  {
    if s != "" {
      DoubledIsNotShorter(s[1..]);
    }
  }

  /** A field is quoted iff it holds a quote, a comma, a carriage return or a line feed; otherwise it
      is printed as it is. */
  lemma QuotedIffSpecial(s: string)
    ensures EscapeCsvField(s) != s <==> '"' in s || ',' in s || '\r' in s || '\n' in s
    ensures EscapeCsvField(s) != s ==> |EscapeCsvField(s)| >= |s| + 2 && EscapeCsvField(s)[0] == '"'
  {
    DoubledIsNotShorter(s);
    if c :| c in s && IsSpecial(c) {
      var i :| 0 <= i < |s| && s[i] == c;
      assert NeedsQuotes(s);
    }
    if NeedsQuotes(s) {
      var i :| 0 <= i < |s| && IsSpecial(s[i]);
      assert s[i] in s;
    }
  }
}
