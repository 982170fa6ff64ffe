/**
 The popup's "Export Data" button (`exportDataAsCSV` in
 src/popup/popup.js and src/popup/uiManager.js): a header line, then one
 line per (date, category, url) leaf of the ledger, in storage order.
 The URL field is quoted as section 2, rule 7 of RFC 4180 describes: the
 field is enclosed in double quotes and each double quote inside it is
 doubled. Lines end in a bare line feed.
 */
module Csv {
  import opened Values
  import opened Strings
  import opened Numerals
  import opened OrderedMaps
  import opened Ledgers
  import opened Entries
  import opened Popup

  const CsvHeader: string := "Date,Category,URL,Time Spent (ms)\n"

  // ---- Quoting ----

  /** `url.replace(/"/g, '""')`. */
  function EscapeQuotes(s: string): string
    decreases |s|
  {
    if |s| == 0 then ""
    else (if s[0] == '"' then "\"\"" else [s[0]]) + EscapeQuotes(s[1..])
  }

  /** `` `"${escaped}"` ``. */
  function QuoteField(s: string): string {
    "\"" + EscapeQuotes(s) + "\""
  }

  /** A field read off the front of a line, and what follows it. */
  datatype Read = Read(value: string, rest: string)

  /**
   Reads the inside of a quoted field up to its closing quote: `""`
   stands for one quote, a lone `"` ends the field.
   */
  function ReadQuotedBody(s: string): Option<Read>
    decreases |s|
  {
    if |s| == 0 then None
    else if s[0] == '"' then
      if |s| >= 2 && s[1] == '"' then
        match ReadQuotedBody(s[2..])
        case None => None
        case Some(r) => Some(Read("\"" + r.value, r.rest))
      else Some(Read("", s[1..]))
    else
      match ReadQuotedBody(s[1..])
      case None => None
      case Some(r) => Some(Read([s[0]] + r.value, r.rest))
  }

  /** A quoted field at the front of `s`. */
  function ReadQuoted(s: string): Option<Read> {
    if |s| > 0 && s[0] == '"' then ReadQuotedBody(s[1..]) else None
  }

  lemma {:induction false} ReadEscaped(u: string, rest: string)
    requires |rest| == 0 || rest[0] != '"'
    ensures ReadQuotedBody(EscapeQuotes(u) + "\"" + rest) == Some(Read(u, rest))
    decreases |u|
  {
    var s := EscapeQuotes(u) + "\"" + rest;
    if |u| == 0 {
      assert s == "\"" + rest;
      assert s[1..] == rest;
    } else {
      ReadEscaped(u[1..], rest);
      var tail := EscapeQuotes(u[1..]) + "\"" + rest;
      if u[0] == '"' {
        assert s == "\"\"" + tail;
        assert s[2..] == tail;
        assert "\"" + u[1..] == u;
      } else {
        assert s == [u[0]] + tail;
        assert s[1..] == tail;
        assert [u[0]] + u[1..] == u;
      }
    }
  }

  /**
   Unquoting recovers the URL exactly, whatever quotes or commas it
   holds, as long as the next character is not itself a quote.
   */
  lemma QuoteRoundTrip(u: string, rest: string)
    requires |rest| == 0 || rest[0] != '"'
    ensures ReadQuoted(QuoteField(u) + rest) == Some(Read(u, rest))
  {
    var s := QuoteField(u) + rest;
    assert s == "\"" + (EscapeQuotes(u) + "\"" + rest);
    assert s[1..] == EscapeQuotes(u) + "\"" + rest;
    ReadEscaped(u, rest);
  }

  // ---- Rows ----

  /** `` `${date},${capitalize(category)},${escapedUrl},${timeSpent}` `` and the line feed. */
  function FormatRow(date: string, e: LogEntry): string {
    date + "," + Capitalize(e.category) + "," + QuoteField(e.url) + "," + IntToString(e.time) + "\n"
  }

  /** The rows for a list of dated leaves, in order. */
  function Rows(es: seq<(string, LogEntry)>): (r: seq<string>)
    ensures |r| == |es|
  {
    seq(|es|, i requires 0 <= i < |es| => FormatRow(es[i].0, es[i].1))
  }

  function Concat(lines: seq<string>): string
    decreases |lines|
  {
    if |lines| == 0 then "" else lines[0] + Concat(lines[1..])
  }

  /** The lines of the file after the header. */
  function CsvRows(l: Ledger): seq<string> {
    Rows(LedgerEntries(l))
  }

  /** The whole file, from the stored `timeData` (`{}` when absent). */
  function ExportCsv(stored: Option<Ledger>): (r: string)
    ensures |r| >= |CsvHeader| && r[..|CsvHeader|] == CsvHeader
  {
    CsvHeader + Concat(CsvRows(LoadTimeData(stored)))
  }

  /** There is one row per leaf of the ledger. */
  lemma CsvRowCount(l: Ledger)
    ensures |CsvRows(l)| == LeafCount(l)
  {
    LedgerEntriesCount(l);
  }

  // ---- Reading a row back ----

  /** The text before the first `sep`, and what follows that `sep`. */
  function ReadUntil(s: string, sep: char): Option<Read>
    decreases |s|
  {
    if |s| == 0 then None
    else if s[0] == sep then Some(Read("", s[1..]))
    else
      match ReadUntil(s[1..], sep)
      case None => None
      case Some(r) => Some(Read([s[0]] + r.value, r.rest))
  }

  lemma {:induction false} ReadUntilFirst(a: string, sep: char, b: string)
    requires sep !in a
    ensures ReadUntil(a + [sep] + b, sep) == Some(Read(a, b))
    decreases |a|
  {
    var s := a + [sep] + b;
    if |a| == 0 {
      assert s[1..] == b;
    } else {
      assert s[1..] == a[1..] + [sep] + b;
      ReadUntilFirst(a[1..], sep, b);
      assert [a[0]] + a[1..] == a;
    }
  }

  /** `Number` of an optionally negative integer numeral. */
  function ParseInt(s: string): Option<int> {
    if |s| > 0 && s[0] == '-' then
      match ParseNumber(s[1..])
      case None => None
      case Some(n) =>
        var v: int := n;
        Some(-v)
    else
      match ParseNumber(s)
      case None => None
      case Some(n) => Some(n)
  }

  lemma ParseIntToString(n: int)
    ensures ParseInt(IntToString(n)) == Some(n)
  {
    if n < 0 {
      assert IntToString(n)[1..] == NatToString(-n);
    } else {
      assert IsDigit(NatToString(n)[0]);
    }
  }

  /** The four fields of a line, as a spreadsheet reads them. */
  datatype CsvRecord = CsvRecord(date: string, category: string, url: string, ms: int)

  /** Reads one line: two plain fields, the quoted URL, then the time up to the line feed. */
  function ParseRow(row: string): Option<CsvRecord> {
    match ReadUntil(row, ',')
    case None => None
    case Some(f1) =>
      match ReadUntil(f1.rest, ',')
      case None => None
      case Some(f2) =>
        match ReadQuoted(f2.rest)
        case None => None
        case Some(f3) =>
          if |f3.rest| == 0 || f3.rest[0] != ',' then None
          else
            match ReadUntil(f3.rest[1..], '\n')
            case None => None
            case Some(f4) =>
              if |f4.rest| != 0 then None
              else
                match ParseInt(f4.value)
                case None => None
                case Some(ms) => Some(CsvRecord(f1.value, f2.value, f3.value, ms))
  }

  lemma CapitalizeNoComma(c: string)
    requires ',' !in c
    ensures ',' !in Capitalize(c)
  {
    if |c| > 0 {
      assert Capitalize(c) == [UpperChar(c[0])] + c[1..];
    }
  }

  lemma NumeralNoNewline(n: int)
    ensures '\n' !in IntToString(n)
  {
    var s := NatToString(if n < 0 then -n else n);
    assert forall i :: 0 <= i < |s| ==> IsDigit(s[i]);
    if n < 0 {
      assert IntToString(n) == "-" + s;
    }
  }

  /**
   A row reads back as its date, its capitalized category, its URL and
   its time, provided the date and the category hold no comma (the
   dates are `YYYY-MM-DD` keys and the categories single words).
   */
  lemma ParseFormatRow(date: string, e: LogEntry)
    requires ',' !in date && ',' !in e.category
    ensures ParseRow(FormatRow(date, e)) == Some(CsvRecord(date, Capitalize(e.category), e.url, e.time))
  {
    var c := Capitalize(e.category);
    var q := QuoteField(e.url);
    var n := IntToString(e.time);
    var tail4 := n + "\n";
    var tail3 := "," + tail4;
    var tail2 := q + tail3;
    var tail1 := c + "," + tail2;
    assert FormatRow(date, e) == date + "," + tail1;
    ReadUntilFirst(date, ',', tail1);
    CapitalizeNoComma(e.category);
    ReadUntilFirst(c, ',', tail2);
    QuoteRoundTrip(e.url, tail3);
    assert tail3[1..] == tail4;
    NumeralNoNewline(e.time);
    ReadUntilFirst(n, '\n', "");
    assert n + "\n" + "" == tail4;
    ParseIntToString(e.time);
  }

  /**
   Every row of the file reads back as a leaf of the ledger, with its
   date, capitalized category, URL and time.
   */
  lemma CsvRowIsLeaf(l: Ledger, i: nat)
    requires WellFormed(l) && i < |CsvRows(l)|
    requires ',' !in LedgerEntries(l)[i].0 && ',' !in LedgerEntries(l)[i].1.category
    ensures var (d, e) := LedgerEntries(l)[i];
            && ParseRow(CsvRows(l)[i]) == Some(CsvRecord(d, Capitalize(e.category), e.url, e.time))
            && Leaf(l, d, e.category, e.url) == Some(e.time)
  {
    var es := LedgerEntries(l);
    ParseFormatRow(es[i].0, es[i].1);
    assert es[i] in es;
    LedgerEntriesIff(l, es[i].0, es[i].1);
  }

  /** Every leaf of the ledger has its row. */
  lemma CsvLeafHasRow(l: Ledger, d: string, c: string, u: string)
    requires WellFormed(l) && Leaf(l, d, c, u).Some?
    ensures FormatRow(d, LogEntry(u, Leaf(l, d, c, u).value, c)) in CsvRows(l)
  {
    var e := LogEntry(u, Leaf(l, d, c, u).value, c);
    var es := LedgerEntries(l);
    LedgerEntriesIff(l, d, e);
    var i :| 0 <= i < |es| && es[i] == (d, e);
    assert CsvRows(l)[i] == FormatRow(d, e);
  }
}
