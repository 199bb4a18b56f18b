/** The comma-separated text every browser scraper prints: each value between
    double quotes with its own double quotes doubled (`quoteString`,
    `escapeCsvValue`), cells joined by ',' and each row ended by '\n'; and
    `csv.reader`'s reading of that text, which gives the printed rows back
    exactly. The clipboard converters do not hand the printed text to
    `csv.reader` as it is: they first turn every '\r' into '\n' and every
    "\n\n" into '\n', and that rewrite is not modelled here. */
module Csv {
  import Text
  import opened Wrappers

  /** `replaceAll('"', '""')` (and `replace(/"/g, '""')`): every double quote
      doubled, everything else kept. */
  function Escape(s: string): (r: string)
    ensures |r| >= |s|
    decreases |s|
  {
    if s == [] then [] else (if s[0] == '"' then "\"\"" else [s[0]]) + Escape(s[1..])
  }

  /** `quoteString`. */
  function Quote(s: string): string {
    "\"" + Escape(s) + "\""
  }

  /** `escapeCsvValue`: '' for a missing value (`null`, `undefined`), else the
      quoted text. */
  function Cell(v: Option<string>): (r: string)
    ensures v.None? ==> r == ""
    ensures v.Some? ==> r == Quote(v.value)
  {
    match v
    case None => ""
    case Some(s) => Quote(s)
  }

  function QuoteAll(fields: seq<string>): (r: seq<string>)
    ensures |r| == |fields| && forall i :: 0 <= i < |fields| ==> r[i] == Quote(fields[i])
  {
    seq(|fields|, i requires 0 <= i < |fields| => Quote(fields[i]))
  }

  /** One output line: the cells joined by ',' and a final '\n'. */
  function Line(cells: seq<string>): string {
    Text.Join(cells, ",") + "\n"
  }

  /** The line of six quoted values the scrapers append per comment. */
  function Record(fields: seq<string>): string {
    Line(QuoteAll(fields))
  }

  // ---------------------------------------------------------------------
  // Reading back

  /** The rest of a quoted field after its opening quote: a doubled quote
      stands for one quote and a single quote closes the field. None when the
      text ends before the closing quote. */
  function ReadBody(s: string): (r: Option<(string, string)>)
    ensures r.Some? ==> |r.value.1| < |s|
    decreases |s|
  {
    if s == [] then None
    else if s[0] == '"' then
      if |s| > 1 && s[1] == '"' then
        match ReadBody(s[2..])
        case None => None
        case Some(p) => Some(("\"" + p.0, p.1))
      else Some(([], s[1..]))
    else
      match ReadBody(s[1..])
      case None => None
      case Some(p) => Some(([s[0]] + p.0, p.1))
  }

  /** An unquoted field: everything up to the next ',' or '\n'. */
  function ReadPlain(s: string): (r: (string, string))
    ensures |r.1| <= |s|
    decreases |s|
  {
    if s == [] || s[0] == ',' || s[0] == '\n' then ([], s)
    else
      var p := ReadPlain(s[1..]);
      ([s[0]] + p.0, p.1)
  }

  /** One cell and the text after it. */
  function ReadCell(s: string): (r: Option<(string, string)>)
    ensures r.Some? ==> |r.value.1| <= |s|
  {
    if s != [] && s[0] == '"' then ReadBody(s[1..]) else Some(ReadPlain(s))
  }

  /** One line of cells and the text after its '\n'. */
  function ReadLine(s: string): (r: Option<(seq<string>, string)>)
    ensures r.Some? ==> |r.value.1| < |s|
    decreases |s|
  {
    match ReadCell(s)
    case None => None
    case Some(p) =>
      var rest := p.1;
      if rest != [] && rest[0] == ',' then
        match ReadLine(rest[1..])
        case None => None
        case Some(q) => Some(([p.0] + q.0, q.1))
      else if rest != [] && rest[0] == '\n' then Some(([p.0], rest[1..]))
      else None
  }

  /** Every line of a text, in order; None when one of them is malformed. */
  function ReadLines(s: string): (r: Option<seq<seq<string>>>)
    decreases |s|
  {
    if s == [] then Some([])
    else
      match ReadLine(s)
      case None => None
      case Some(p) =>
        match ReadLines(p.1)
        case None => None
        case Some(rows) => Some([p.0] + rows)
  }

  // ---------------------------------------------------------------------
  // Round trips

  /** The escaped text reads back up to the closing quote. */
  lemma {:induction false} ReadEscaped(s: string, t: string)
    requires t != [] && t[0] == '"' && (|t| == 1 || t[1] != '"')
    ensures ReadBody(Escape(s) + t) == Some((s, t[1..]))
    decreases |s|
  {
    if s == [] {
      assert Escape(s) + t == t;
    } else {
      ReadEscaped(s[1..], t);
      var e := Escape(s) + t;
      if s[0] == '"' {
        assert e == "\"\"" + (Escape(s[1..]) + t);
        assert e[2..] == Escape(s[1..]) + t;
      } else {
        assert e == [s[0]] + (Escape(s[1..]) + t);
        assert e[1..] == Escape(s[1..]) + t;
      }
      assert [s[0]] + s[1..] == s;
    }
  }

  /** A quoted value reads back as itself, whatever follows it (other than
      a quote). */
  lemma ReadQuoted(s: string, t: string)
    requires t == [] || t[0] != '"'
    ensures ReadCell(Quote(s) + t) == Some((s, t))
  {
    var q := Quote(s) + t;
    assert q == "\"" + (Escape(s) + ("\"" + t));
    assert q[1..] == Escape(s) + ("\"" + t);
    ReadEscaped(s, "\"" + t);
    assert ("\"" + t)[1..] == t;
  }

  /** A line of quoted values reads back as those values, and reading goes on
      right after its '\n'. */
  lemma {:induction false} ReadRecord(fields: seq<string>, more: string)
    requires fields != []
    ensures ReadLine(Record(fields) + more) == Some((fields, more))
    decreases |fields|
  {
    if |fields| == 1 {
      var s := Record(fields) + more;
      assert s == Quote(fields[0]) + ("\n" + more);
      ReadQuoted(fields[0], "\n" + more);
      assert ("\n" + more)[1..] == more;
      assert fields == [fields[0]];
    } else {
      var tail := fields[1..];
      var after := "," + (Record(tail) + more);
      RecordCons(fields);
      assert Record(fields) + more == Quote(fields[0]) + after;
      ReadQuoted(fields[0], after);
      ReadRecord(tail, more);
      assert after[1..] == Record(tail) + more;
      assert [fields[0]] + tail == fields;
    }
  }

  /** A line of several values is the first quoted value, a comma and the
      line of the others. */
  lemma RecordCons(fields: seq<string>)
    requires |fields| > 1
    ensures Record(fields) == Quote(fields[0]) + "," + Record(fields[1..])
  {
    var cells := QuoteAll(fields);
    assert QuoteAll(fields[1..]) == cells[1..];
    assert Text.Join(cells, ",") == cells[0] + "," + Text.Join(cells[1..], ",");
  }

  /** The lines of quoted rows, one after the other. */
  function Records(rows: seq<seq<string>>): string {
    if rows == [] then "" else Record(rows[0]) + Records(rows[1..])
  }

  /** Appending a row appends its line. */
  lemma {:induction false} RecordsSnoc(rows: seq<seq<string>>, row: seq<string>)
    ensures Records(rows + [row]) == Records(rows) + Record(row)
    decreases |rows|
  {
    if rows == [] {
      assert [row][1..] == [];
    } else {
      RecordsSnoc(rows[1..], row);
      assert (rows + [row])[1..] == rows[1..] + [row];
    }
  }

  /** `csv.reader` gets back every row, in order, with every value as it was. */
  lemma {:induction false} ReadRecords(rows: seq<seq<string>>)
    requires forall i :: 0 <= i < |rows| ==> rows[i] != []
    ensures ReadLines(Records(rows)) == Some(rows)
    decreases |rows|
  {
    if rows != [] {
      var s := Records(rows);
      ReadRecord(rows[0], Records(rows[1..]));
      assert |Record(rows[0])| > 0;
      ReadRecords(rows[1..]);
      assert [rows[0]] + rows[1..] == rows;
    }
  }

  /** Distinct values give distinct quoted cells. */
  lemma QuoteInjective(s: string, t: string)
    requires Quote(s) == Quote(t)
    ensures s == t
  {
    ReadQuoted(s, []);
    ReadQuoted(t, []);
    assert Quote(s) + [] == Quote(t) + [];
  }
  // ---------------------------------------------------------------------
  // Header lines

  /** A header name written without quotes: not empty, no opening quote, no
      separator. */
  predicate Plain(f: string) {
    f != [] && f[0] != '"' && forall i :: 0 <= i < |f| ==> f[i] != ',' && f[i] != '\n'
  }

  /** An unquoted name reads back as itself, up to the separator after it. */
  lemma {:induction false} ReadPlainOf(f: string, t: string)
    requires forall i :: 0 <= i < |f| ==> f[i] != ',' && f[i] != '\n'
    requires t == [] || t[0] == ',' || t[0] == '\n'
    ensures ReadPlain(f + t) == (f, t)
    decreases |f|
  {
    if f == [] {
      assert f + t == t;
    } else {
      ReadPlainOf(f[1..], t);
      assert (f + t)[1..] == f[1..] + t;
      assert [f[0]] + f[1..] == f;
    }
  }

  /** The header line, names joined by ',' without quotes, reads back as the
      names. */
  lemma {:induction false} ReadHeader(names: seq<string>, more: string)
    requires names != [] && forall i :: 0 <= i < |names| ==> Plain(names[i])
    ensures ReadLine(Line(names) + more) == Some((names, more))
    decreases |names|
  {
    var f := names[0];
    if |names| == 1 {
      assert Line(names) + more == f + ("\n" + more);
      ReadPlainOf(f, "\n" + more);
      assert ("\n" + more)[1..] == more;
      assert names == [f];
    } else {
      var after := "," + (Line(names[1..]) + more);
      assert Text.Join(names, ",") == f + "," + Text.Join(names[1..], ",");
      assert Line(names) + more == f + after;
      ReadPlainOf(f, after);
      ReadHeader(names[1..], more);
      assert after[1..] == Line(names[1..]) + more;
      assert [f] + names[1..] == names;
    }
  }

  /** A whole printed sheet: the header line and one quoted line per row. */
  function Sheet(names: seq<string>, rows: seq<seq<string>>): string {
    Line(names) + Records(rows)
  }

  /** The quoted cells of a row of six values. */
  lemma QuoteSix(row: seq<string>, cells: seq<string>)
    requires |row| == 6
    requires cells == [Quote(row[0]), Quote(row[1]), Quote(row[2]), Quote(row[3]), Quote(row[4]), Quote(row[5])]
    ensures cells == QuoteAll(row)
  {
  }

  /** Appending a row to a sheet appends its line of quoted cells. */
  lemma SheetSnoc(names: seq<string>, rows: seq<seq<string>>, row: seq<string>, cells: seq<string>)
    requires cells == QuoteAll(row)
    ensures Sheet(names, rows + [row]) == Sheet(names, rows) + (Text.Join(cells, ",") + "\n")
  {
    RecordsSnoc(rows, row);
    assert Sheet(names, rows + [row]) == Line(names) + (Records(rows) + Record(row));
  }

  /** `csv.reader` on a printed sheet gets back the header names and then
      every row as it was. */
  lemma ReadSheet(names: seq<string>, rows: seq<seq<string>>)
    requires names != [] && forall i :: 0 <= i < |names| ==> Plain(names[i])
    requires forall i :: 0 <= i < |rows| ==> rows[i] != []
    ensures ReadLines(Sheet(names, rows)) == Some([names] + rows)
  {
    ReadHeader(names, Records(rows));
    ReadRecords(rows);
  }
}
