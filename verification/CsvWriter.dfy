/** The CSV printer of backend/services/complianceService.js, undone by a parser written from section
    2 of RFC 4180 with LF as the line break. */
module CsvWriter {
  import opened Texts
  import opened Wrappers

  /** null and undefined cells print as nothing; every other cell as its string value. */
  datatype Cell = Null | Text(text: string)

  /** An object row: its keys in order, and its properties. */
  datatype Row = Row(keys: seq<string>, cells: map<string, Cell>)

  predicate NeedsQuotes(text: string) {
    '\"' in text || ',' in text || '\n' in text
  }

  /** text.replace(/"/g, '""') */
  function DoubleQuotes(text: string): string {
    if text == "" then ""
    else (if text[0] == '\"' then "\"\"" else [text[0]]) + DoubleQuotes(text[1..])
  }

  function Escape(text: string): string {
    if NeedsQuotes(text) then "\"" + (DoubleQuotes(text) + "\"") else text
  }

  function Join(parts: seq<string>, sep: char): string {
    if parts == [] then ""
    else if |parts| == 1 then parts[0]
    else parts[0] + ([sep] + Join(parts[1..], sep))
  }

  /** The string value of a row's cell under a header; a missing property prints as nothing. */
  function Value(row: Row, header: string): string {
    if header in row.cells && row.cells[header].Text? then row.cells[header].text else ""
  }

  function Values(row: Row, headers: seq<string>): (r: seq<string>)
    ensures |r| == |headers|
  {
    if headers == [] then [] else [Value(row, headers[0])] + Values(row, headers[1..])
  }

  function EscapeAll(fields: seq<string>): (r: seq<string>)
    ensures |r| == |fields|
  {
    if fields == [] then [] else [Escape(fields[0])] + EscapeAll(fields[1..])
  }

  function BodyLines(rows: seq<Row>, headers: seq<string>): seq<string> {
    if rows == [] then []
    else [Join(EscapeAll(Values(rows[0], headers)), ',')] + BodyLines(rows[1..], headers)
  }

  /** The header line is joined without escaping. */
  function ToCsv(rows: seq<Row>): string {
    if rows == [] then ""
    else Join([Join(rows[0].keys, ',')] + BodyLines(rows, rows[0].keys), '\n')
  }

  // ---- The specification parser ----

  predicate AtFieldEnd(s: string) {
    s == "" || s[0] == ',' || s[0] == '\n'
  }

  /** The text of a quoted field, after its opening quote, and what follows the closing quote. */
  function ParseQuoted(s: string): (r: Option<(string, string)>)
    ensures r.Some? ==> |r.value.1| < |s|
  {
    if s == "" then None
    else if s[0] != '\"' then
      match ParseQuoted(s[1..])
      case None => None
      case Some((text, rest)) => Some(([s[0]] + text, rest))
    else if |s| > 1 && s[1] == '\"' then
      match ParseQuoted(s[2..])
      case None => None
      case Some((text, rest)) => Some(("\"" + text, rest))
    else Some(("", s[1..]))
  }

  /** The text of an unquoted field: it holds no quote. */
  function ParsePlain(s: string): (r: Option<(string, string)>)
    ensures r.Some? ==> |r.value.1| <= |s| && AtFieldEnd(r.value.1)
  {
    if AtFieldEnd(s) then Some(("", s))
    else if s[0] == '\"' then None
    else
      match ParsePlain(s[1..])
      case None => None
      case Some((text, rest)) => Some(([s[0]] + text, rest))
  }

  function ParseField(s: string): (r: Option<(string, string)>)
    ensures r.Some? ==> |r.value.1| <= |s| && AtFieldEnd(r.value.1)
  {
    if s != "" && s[0] == '\"' then
      match ParseQuoted(s[1..])
      case None => None
      case Some((text, rest)) => if AtFieldEnd(rest) then Some((text, rest)) else None
    else ParsePlain(s)
  }

  /** The records of a file: at least one, each of at least one field. The last one may or may not have an ending
      line break (rule 2). */
  function ParseFile(s: string): (r: Option<seq<seq<string>>>)
    ensures r.Some? ==> r.value != [] && forall i :: 0 <= i < |r.value| ==> r.value[i] != []
    decreases |s|
  {
    match ParseField(s)
    case None => None
    case Some((text, rest)) =>
      if rest == "" || rest == "\n" then Some([[text]])
      else
        match ParseFile(rest[1..])
        case None => None
        case Some(records) =>
          if rest[0] == ',' then Some([[text] + records[0]] + records[1..]) else Some([[text]] + records)
  }

  // ---- Round trip ----

  lemma ParseDoubledQuote(tail: string, text: string, rest: string)
    requires ParseQuoted(tail) == Some((text, rest))
    ensures ParseQuoted("\"\"" + tail) == Some(("\"" + text, rest))
  {
    assert ("\"\"" + tail)[2..] == tail;
  }

  lemma ParseQuotedChar(c: char, tail: string, text: string, rest: string)
    requires c != '\"' && ParseQuoted(tail) == Some((text, rest))
    ensures ParseQuoted([c] + tail) == Some(([c] + text, rest))
  {
    assert ([c] + tail)[1..] == tail;
  }

  lemma ParseClosingQuote(rest: string)
    requires rest == "" || rest[0] != '\"'
    ensures ParseQuoted("\"" + rest) == Some(("", rest))
  {
    assert ("\"" + rest)[1..] == rest;
  }

  lemma {:induction false} QuotedRoundTrip(text: string, rest: string)
    requires rest == "" || rest[0] != '\"'
    ensures ParseQuoted(DoubleQuotes(text) + ("\"" + rest)) == Some((text, rest))
  {
    var s := DoubleQuotes(text) + ("\"" + rest);
    if text == "" {
      assert s == "\"" + rest;
      ParseClosingQuote(rest);
    } else {
      var c, more := text[0], text[1..];
      var tail := DoubleQuotes(more) + ("\"" + rest);
      QuotedRoundTrip(more, rest);
      assert text == [c] + more;
      if c == '\"' {
        assert s == "\"\"" + tail;
        ParseDoubledQuote(tail, more, rest);
      } else {
        assert s == [c] + tail;
        ParseQuotedChar(c, tail, more, rest);
      }
    }
  }

  lemma {:induction false} PlainRoundTrip(text: string, rest: string)
    requires !NeedsQuotes(text) && AtFieldEnd(rest)
    ensures ParsePlain(text + rest) == Some((text, rest))
  {
    if text == "" {
      assert text + rest == rest;
    } else {
      PlainRoundTrip(text[1..], rest);
      assert text[0] in text;
      assert (text + rest)[1..] == text[1..] + rest;
      assert text == [text[0]] + text[1..];
    }
  }

  lemma QuotedShape(body: string, rest: string)
    ensures ("\"" + (body + "\"")) + rest == "\"" + (body + ("\"" + rest))
  {
  }

  lemma FieldRoundTrip(text: string, rest: string)
    requires AtFieldEnd(rest)
    ensures ParseField(Escape(text) + rest) == Some((text, rest))
  {
    if NeedsQuotes(text) {
      QuotedRoundTrip(text, rest);
      var tail := DoubleQuotes(text) + ("\"" + rest);
      QuotedShape(DoubleQuotes(text), rest);
      assert ("\"" + tail)[1..] == tail;
    } else {
      PlainRoundTrip(text, rest);
      PlainStart(text, rest);
    }
  }

  lemma PlainStart(text: string, rest: string)
    requires !NeedsQuotes(text) && AtFieldEnd(rest)
    ensures text + rest == "" || (text + rest)[0] != '\"'
  {
    if text != "" {
      assert (text + rest)[0] == text[0] && text[0] in text;
    }
  }

  /** Fields laid out on lines, the way toCsv joins them. */
  function Lines(records: seq<seq<string>>): seq<string> {
    if records == [] then [] else [Join(records[0], ',')] + Lines(records[1..])
  }

  function Layout(records: seq<seq<string>>): string {
    Join(Lines(records), '\n')
  }

  function EscapeRecords(records: seq<seq<string>>): (r: seq<seq<string>>)
    ensures |r| == |records|
  {
    if records == [] then [] else [EscapeAll(records[0])] + EscapeRecords(records[1..])
  }

  ghost predicate Table(records: seq<seq<string>>) {
    records != [] && forall i :: 0 <= i < |records| ==> records[i] != []
  }

  lemma LayoutOne(f: string)
    ensures Layout([[f]]) == f
  {
    assert Lines([[f]]) == [f] + Lines([[f]][1..]) == [f];
  }

  lemma EscapeOne(f: string)
    ensures EscapeAll([f]) == [Escape(f)] && EscapeRecords([[f]]) == [[Escape(f)]]
  {
    assert [f][1..] == [] && EscapeAll([f][1..]) == [];
    assert [[f]][1..] == [] && EscapeRecords([[f]][1..]) == [];
  }

  lemma LayoutNextField(f: string, fields: seq<string>, records: seq<seq<string>>)
    requires fields != []
    ensures Layout([[f] + fields] + records) == f + ("," + Layout([fields] + records))
  {
    assert ([f] + fields)[1..] == fields;
    assert ([[f] + fields] + records)[1..] == records && ([fields] + records)[1..] == records;
    var lines := Lines(records);
    assert Lines([[f] + fields] + records) == [f + ("," + Join(fields, ','))] + lines;
    assert Lines([fields] + records) == [Join(fields, ',')] + lines;
    assert ([f + ("," + Join(fields, ','))] + lines)[1..] == lines && ([Join(fields, ',')] + lines)[1..] == lines;
    if lines != [] {
      Regroup(f, "," + Join(fields, ','), "\n" + Join(lines, '\n'));
      Regroup(",", Join(fields, ','), "\n" + Join(lines, '\n'));
    }
  }

  lemma LayoutNextLine(f: string, records: seq<seq<string>>)
    requires records != []
    ensures Layout([[f]] + records) == f + ("\n" + Layout(records))
  {
    assert ([[f]] + records)[1..] == records;
    assert Lines([[f]] + records) == [f] + Lines(records);
    assert ([f] + Lines(records))[1..] == Lines(records);
  }

  /** The last record is a single empty field under others: nothing but the line break before it shows it. */
  predicate BlankEnd(records: seq<seq<string>>)
    requires records != []
  {
    |records| > 1 && records[|records| - 1] == [""]
  }

  lemma LayoutEmptyIff(records: seq<seq<string>>)
    requires Table(records)
    ensures Layout(EscapeRecords(records)) == "" <==> records == [[""]]
  {
    var escaped := EscapeRecords(records);
    EscapedTable(records);
    LayoutSize(escaped);
    if |records| == 1 && |records[0]| == 1 {
      var f := records[0][0];
      assert records[0] == [f];
      assert records == [[f]];
      EscapeOne(f);
      assert Lengths(escaped[0]) == |Escape(f)|;
      EscapeSize(f);
    }
  }

  /** Printing every field escaped and parsing gives the table back: always with an ending line break, and without
      one unless the last record is blank. */
  lemma {:induction false} PrintedRoundTrip(records: seq<seq<string>>, end: string)
    requires Table(records) && (end == "\n" || (end == "" && !BlankEnd(records)))
    ensures ParseFile(Layout(EscapeRecords(records)) + end) == Some(records)
    decreases |records|, |records[0]|
  {
    var first, others := records[0], records[1..];
    var f, more := first[0], first[1..];
    assert first == [f] + more && records == [first] + others;
    assert EscapeRecords(records) == [EscapeAll(first)] + EscapeRecords(others);
    assert EscapeAll(first) == [Escape(f)] + EscapeAll(more);
    if more != [] {
      var smaller := [more] + others;
      assert smaller[1..] == others && smaller[0] == more;
      assert EscapeRecords(smaller) == [EscapeAll(more)] + EscapeRecords(others);
      assert BlankEnd(smaller) ==> BlankEnd(records);
      PrintedRoundTrip(smaller, end);
      LayoutNextField(Escape(f), EscapeAll(more), EscapeRecords(others));
      ParseNext(f, ",", Layout(EscapeRecords(smaller)), end, smaller);
    } else if others != [] {
      EscapeOne(f);
      assert first == [f];
      PrintedRoundTrip(others, end);
      LayoutNextLine(Escape(f), EscapeRecords(others));
      LayoutEmptyIff(others);
      ParseNext(f, "\n", Layout(EscapeRecords(others)), end, others);
      assert records == [[f]] + others;
    } else {
      EscapeOne(f);
      assert first == [f] && records == [[f]];
      LayoutOne(Escape(f));
      FieldRoundTrip(f, end);
    }
  }

  lemma ParseNext(f: string, sep: string, tail: string, end: string, parsed: seq<seq<string>>)
    requires (sep == "," || (sep == "\n" && tail + end != "")) && ParseFile(tail + end) == Some(parsed)
    ensures ParseFile((Escape(f) + (sep + tail)) + end)
         == Some(if sep == "," then [[f] + parsed[0]] + parsed[1..] else [[f]] + parsed)
  {
    assert (Escape(f) + (sep + tail)) + end == Escape(f) + (sep + (tail + end));
    FieldRoundTrip(f, sep + (tail + end));
    assert (sep + (tail + end))[1..] == tail + end;
  }

  lemma TableRoundTrip(records: seq<seq<string>>)
    requires Table(records) && !BlankEnd(records)
    ensures ParseFile(Layout(EscapeRecords(records))) == Some(records)
  {
    PrintedRoundTrip(records, "");
    assert Layout(EscapeRecords(records)) + "" == Layout(EscapeRecords(records));
  }

  lemma {:induction false} LayoutBlankEnd(records: seq<seq<string>>)
    requires Table(records)
    ensures Layout(records + [[""]]) == Layout(records) + "\n"
  {
    var all := records + [[""]];
    assert all[1..] == records[1..] + [[""]];
    if |records| == 1 {
      LayoutOne("");
      assert Lines(all) == [Join(records[0], ',')] + Lines([[""]]);
      assert Lines(records) == [Join(records[0], ',')] + Lines(records[1..]) == [Join(records[0], ',')];
    } else {
      LayoutBlankEnd(records[1..]);
      assert Lines(all) == [Join(records[0], ',')] + Lines(all[1..]);
      assert Lines(records) == [Join(records[0], ',')] + Lines(records[1..]);
      Regroup(Join(records[0], ','), "\n" + Layout(records[1..]), "\n");
      Regroup("\n", Layout(records[1..]), "\n");
    }
  }

  /** A blank last record is lost: what is read is the table without it. */
  lemma BlankEndIsDropped(records: seq<seq<string>>)
    requires Table(records) && BlankEnd(records)
    ensures ParseFile(Layout(EscapeRecords(records))) == Some(records[..|records| - 1])
  {
    var front := records[..|records| - 1];
    assert records == front + [[""]];
    BlankEndPrints(front);
    PrintedRoundTrip(front, "\n");
  }

  lemma EscapeBlank()
    ensures EscapeAll([""]) == [""]
  {
    EscapeOne("");
  }

  lemma BlankEndPrints(front: seq<seq<string>>)
    requires Table(front)
    ensures Layout(EscapeRecords(front + [[""]])) == Layout(EscapeRecords(front)) + "\n"
  {
    EscapeAppends(front, [""]);
    EscapeBlank();
    EscapedTable(front);
    LayoutBlankEnd(EscapeRecords(front));
  }

  lemma {:induction false} EscapeAppends(records: seq<seq<string>>, last: seq<string>)
    ensures EscapeRecords(records + [last]) == EscapeRecords(records) + [EscapeAll(last)]
  {
    if records == [] {
      assert [] + [last] == [last] && EscapeRecords([last]) == [EscapeAll(last)] + EscapeRecords([last][1..]);
    } else {
      assert (records + [last])[1..] == records[1..] + [last];
      EscapeAppends(records[1..], last);
    }
  }

  /** What the rows hold, as a table of strings under a header record. */
  function Contents(rows: seq<Row>, headers: seq<string>): (r: seq<seq<string>>)
    ensures |r| == |rows|
  {
    if rows == [] then [] else [Values(rows[0], headers)] + Contents(rows[1..], headers)
  }

  lemma {:induction false} BodyIsLayout(rows: seq<Row>, headers: seq<string>)
    ensures BodyLines(rows, headers) == Lines(EscapeRecords(Contents(rows, headers)))
  {
    if rows != [] {
      BodyIsLayout(rows[1..], headers);
      var c := Contents(rows, headers);
      assert c[1..] == Contents(rows[1..], headers);
      var e := EscapeRecords(c);
      assert e[1..] == EscapeRecords(c[1..]);
    }
  }

  lemma CsvIsLayout(rows: seq<Row>)
    requires rows != []
    ensures ToCsv(rows) == Layout([rows[0].keys] + EscapeRecords(Contents(rows, rows[0].keys)))
  {
    BodyIsLayout(rows, rows[0].keys);
    var records := [rows[0].keys] + EscapeRecords(Contents(rows, rows[0].keys));
    assert records[1..] == EscapeRecords(Contents(rows, rows[0].keys));
  }

  ghost predicate PlainHeaders(headers: seq<string>) {
    headers != [] && forall i :: 0 <= i < |headers| ==> !NeedsQuotes(headers[i])
  }

  lemma {:induction false} PlainEscapes(fields: seq<string>)
    requires forall i :: 0 <= i < |fields| ==> !NeedsQuotes(fields[i])
    ensures EscapeAll(fields) == fields
  {
    if fields != [] {
      PlainEscapes(fields[1..]);
      assert fields == [fields[0]] + fields[1..];
    }
  }

  lemma {:induction false} ContentsRows(rows: seq<Row>, headers: seq<string>)
    requires headers != []
    ensures forall i :: 0 <= i < |rows| ==> Contents(rows, headers)[i] != []
  {
    if rows != [] {
      ContentsRows(rows[1..], headers);
    }
  }

  /** One column, and nothing in its last cell. */
  predicate LastLineBlank(rows: seq<Row>)
    requires rows != []
  {
    |rows[0].keys| == 1 && Value(rows[|rows| - 1], rows[0].keys[0]) == ""
  }

  lemma {:induction false} ContentsAt(rows: seq<Row>, headers: seq<string>, i: nat)
    requires i < |rows|
    ensures Contents(rows, headers)[i] == Values(rows[i], headers)
  {
    if i > 0 {
      ContentsAt(rows[1..], headers, i - 1);
    }
  }

  lemma BlankEndIff(rows: seq<Row>)
    requires rows != [] && rows[0].keys != []
    ensures BlankEnd([rows[0].keys] + Contents(rows, rows[0].keys)) <==> LastLineBlank(rows)
  {
    var headers, n := rows[0].keys, |rows| - 1;
    ContentsAt(rows, headers, n);
    var last := Values(rows[n], headers);
    if |headers| == 1 {
      assert headers[1..] == [] && last == [Value(rows[n], headers[0])];
    }
  }

  lemma PlainRowsPrinted(rows: seq<Row>) returns (records: seq<seq<string>>)
    requires rows != [] && PlainHeaders(rows[0].keys)
    ensures records == [rows[0].keys] + Contents(rows, rows[0].keys) && Table(records)
    ensures ToCsv(rows) == Layout(EscapeRecords(records))
  {
    var headers := rows[0].keys;
    records := [headers] + Contents(rows, headers);
    CsvIsLayout(rows);
    PlainEscapes(headers);
    ContentsRows(rows, headers);
    assert records[1..] == Contents(rows, headers);
    assert EscapeRecords(records) == [headers] + EscapeRecords(Contents(rows, headers));
  }

  lemma PlainRowsRoundTrip(rows: seq<Row>)
    requires rows != [] && PlainHeaders(rows[0].keys)
    ensures ParseFile(ToCsv(rows)) == Some([rows[0].keys] + Contents(rows, rows[0].keys)) <==> !LastLineBlank(rows)
  {
    var records := PlainRowsPrinted(rows);
    BlankEndIff(rows);
    if BlankEnd(records) {
      BlankEndIsDropped(records);
    } else {
      TableRoundTrip(records);
    }
  }

  // ---- Only plain headers survive ----

  function Lengths(fields: seq<string>): nat {
    if fields == [] then 0 else |fields[0]| + Lengths(fields[1..])
  }

  /** The length of the layout of a table, counted field by field. */
  function Size(records: seq<seq<string>>): nat
    requires Table(records)
  {
    Lengths(records[0]) + |records[0]| - 1 + (if |records| == 1 then 0 else 1 + Size(records[1..]))
  }

  lemma {:induction false} JoinSize(fields: seq<string>, sep: char)
    requires fields != []
    ensures |Join(fields, sep)| == Lengths(fields) + |fields| - 1
  {
    if |fields| > 1 {
      JoinSize(fields[1..], sep);
    }
  }

  lemma {:induction false} LayoutSize(records: seq<seq<string>>)
    requires Table(records)
    ensures |Layout(records)| == Size(records)
  {
    JoinSize(records[0], ',');
    assert Lines(records)[1..] == Lines(records[1..]);
    if |records| > 1 {
      LayoutSize(records[1..]);
    }
  }

  lemma {:induction false} QuotedSize(s: string)
    requires ParseQuoted(s).Some?
    ensures |s| == |DoubleQuotes(ParseQuoted(s).value.0)| + 1 + |ParseQuoted(s).value.1|
  {
    if s[0] != '\"' {
      QuotedSize(s[1..]);
      var (text, rest) := ParseQuoted(s[1..]).value;
      assert ([s[0]] + text)[1..] == text;
    } else if |s| > 1 && s[1] == '\"' {
      QuotedSize(s[2..]);
      var (text, rest) := ParseQuoted(s[2..]).value;
      assert ("\"" + text)[1..] == text;
    }
  }

  lemma {:induction false} PlainSize(s: string)
    requires ParsePlain(s).Some?
    ensures |s| == |ParsePlain(s).value.0| + |ParsePlain(s).value.1| && !NeedsQuotes(ParsePlain(s).value.0)
  {
    if !AtFieldEnd(s) {
      PlainSize(s[1..]);
    }
  }

  lemma {:induction false} DoubledSize(text: string)
    ensures |DoubleQuotes(text)| >= |text|
  {
    if text != "" {
      DoubledSize(text[1..]);
    }
  }

  lemma EscapeSize(text: string)
    ensures |Escape(text)| >= |text| && (NeedsQuotes(text) ==> |Escape(text)| > |text|)
  {
    DoubledSize(text);
  }

  lemma FieldSize(s: string)
    requires ParseField(s).Some?
    ensures |s| >= |Escape(ParseField(s).value.0)| + |ParseField(s).value.1|
  {
    if s != "" && s[0] == '\"' {
      QuotedSize(s[1..]);
      DoubledSize(ParseField(s).value.0);
    } else {
      PlainSize(s);
    }
  }

  lemma {:induction false} EscapedTable(records: seq<seq<string>>)
    requires Table(records)
    ensures Table(EscapeRecords(records))
  {
    if |records| > 1 {
      EscapedTable(records[1..]);
    }
  }

  /** Any file that parses to a table is at least as long as the escaped table. */
  lemma {:induction false} ParsedSize(s: string)
    requires ParseFile(s).Some?
    ensures Table(ParseFile(s).value) && Table(EscapeRecords(ParseFile(s).value))
    ensures |s| >= Size(EscapeRecords(ParseFile(s).value))
    decreases |s|
  {
    var (text, rest) := ParseField(s).value;
    var records := ParseFile(s).value;
    FieldSize(s);
    EscapedTable(records);
    if rest != "" {
      ParsedSize(rest[1..]);
      var parsed := ParseFile(rest[1..]).value;
      if rest[0] == ',' {
        SizeOfNextField(text, parsed);
      } else {
        SizeOfNextLine(text, parsed);
      }
    } else {
      EscapeOne(text);
      assert Lengths([Escape(text)]) == |Escape(text)|;
    }
  }

  lemma SizeOfNextField(text: string, parsed: seq<seq<string>>)
    requires Table(parsed) && Table(EscapeRecords(parsed))
    ensures var records := [[text] + parsed[0]] + parsed[1..];
            && Table(EscapeRecords(records))
            && Size(EscapeRecords(records)) == |Escape(text)| + 1 + Size(EscapeRecords(parsed))
  {
    var records := [[text] + parsed[0]] + parsed[1..];
    assert records[1..] == parsed[1..];
    assert ([text] + parsed[0])[1..] == parsed[0];
    var e, p := EscapeRecords(records), EscapeRecords(parsed);
    assert e[1..] == p[1..] == EscapeRecords(parsed[1..]);
    assert e[0] == [Escape(text)] + p[0];
    assert ([Escape(text)] + p[0])[1..] == p[0];
    EscapedTable(records);
  }

  lemma SizeOfNextLine(text: string, parsed: seq<seq<string>>)
    requires Table(parsed) && Table(EscapeRecords(parsed))
    ensures var records := [[text]] + parsed;
            && Table(EscapeRecords(records))
            && Size(EscapeRecords(records)) == |Escape(text)| + 1 + Size(EscapeRecords(parsed))
  {
    var records := [[text]] + parsed;
    assert records[1..] == parsed;
    var e := EscapeRecords(records);
    assert e[0] == [Escape(text)] && e[1..] == EscapeRecords(parsed);
    assert Lengths(e[0]) == |Escape(text)|;
    EscapedTable(records);
  }

  lemma {:induction false} EscapingLengthens(fields: seq<string>)
    ensures Lengths(EscapeAll(fields)) >= Lengths(fields)
    ensures (exists i :: 0 <= i < |fields| && NeedsQuotes(fields[i])) ==> Lengths(EscapeAll(fields)) > Lengths(fields)
  {
    if fields != [] {
      EscapeSize(fields[0]);
      EscapingLengthens(fields[1..]);
      assert EscapeAll(fields)[1..] == EscapeAll(fields[1..]);
      if i :| 0 <= i < |fields| && NeedsQuotes(fields[i]) {
        if i > 0 {
          assert NeedsQuotes(fields[1..][i - 1]);
        }
      }
    }
  }

  lemma QuotedHeadersAreLost(rows: seq<Row>)
    requires rows != [] && !PlainHeaders(rows[0].keys)
    ensures ParseFile(ToCsv(rows)) != Some([rows[0].keys] + Contents(rows, rows[0].keys))
  {
    var headers := rows[0].keys;
    var records := [headers] + Contents(rows, headers);
    if ParseFile(ToCsv(rows)) == Some(records) {
      var body := EscapeRecords(Contents(rows, headers));
      assert records[0] == headers && headers != [];
      assert records[1..] == Contents(rows, headers);
      assert EscapeRecords(records) == [EscapeAll(headers)] + body;
      ParsedSize(ToCsv(rows));
      ContentsRows(rows, headers);
      EscapedTable(Contents(rows, headers));
      CsvIsLayout(rows);
      LayoutSize([headers] + body);
      assert ([headers] + body)[1..] == body && ([EscapeAll(headers)] + body)[1..] == body;
      EscapingLengthens(headers);
      assert false;
    }
  }

  /** For any non-empty rows, whatever quotes, commas and newlines their cells hold, the reader gives back the
      header and exactly the string value of every cell if and only if there is a header, no header needs quotes,
      and the file does not end in the blank line of a single column whose last cell is empty. */
  lemma CsvRoundTrip(rows: seq<Row>)
    requires rows != []
    ensures ParseFile(ToCsv(rows)) == Some([rows[0].keys] + Contents(rows, rows[0].keys))
       <==> PlainHeaders(rows[0].keys) && !LastLineBlank(rows)
  {
    if PlainHeaders(rows[0].keys) {
      PlainRowsRoundTrip(rows);
    } else {
      QuotedHeadersAreLost(rows);
    }
  }

  /** One row with one empty cell is read as no row at all. */
  lemma EmptyCellIsLost()
    ensures var rows := [Row(["a"], map["a" := Text("")])];
            && ToCsv(rows) == "a\n" && ParseFile("a\n") == Some([["a"]])
            && [rows[0].keys] + Contents(rows, rows[0].keys) == [["a"], [""]]
  {
    var row := Row(["a"], map["a" := Text("")]);
    assert ["a"][1..] == [] && [row][1..] == [];
    assert Values(row, ["a"]) == [Value(row, "a")] + Values(row, []) == [""];
    assert Contents([row], ["a"]) == [[""]] + Contents([], ["a"]);
    EscapeOne("");
    assert EscapeAll([""]) == [""];
    assert BodyLines([row], ["a"]) == [Join([""], ',')] + BodyLines([], ["a"]) == [""];
    assert Join(["a"], ',') == "a" && ["a", ""][1..] == [""] && Join([""], '\n') == "";
    assert ["a"] + [""] == ["a", ""];
    assert Join(["a", ""], '\n') == "a" + ("\n" + "");
    FieldRoundTrip("a", "\n");
    assert Escape("a") + "\n" == "a\n";
  }

  /** The i-th field of a row's line is its text under the i-th header; null, undefined and missing cells are empty. */
  lemma {:induction false} FieldsFollowHeaders(row: Row, headers: seq<string>, i: nat)
    requires i < |headers|
    ensures Values(row, headers)[i] == if headers[i] !in row.cells || row.cells[headers[i]] == Null then ""
                                       else row.cells[headers[i]].text
  {
    if i > 0 {
      FieldsFollowHeaders(row, headers[1..], i - 1);
    }
  }
}
