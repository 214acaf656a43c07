/** The CSV export of the activity feed, and a reader for section 2 of RFC 4180. */
module Csv {
  import opened Options
  import opened Segments
  import opened Sequences

  const CRLF: string := "\r\n"

  /** A cell that begins with one of these runs as a formula in a spreadsheet. */
  predicate StartsFormula(s: string) {
    s != "" && (s[0] == '=' || s[0] == '+' || s[0] == '-' || s[0] == '@' || s[0] == '\t' || s[0] == '\r')
  }

  function Neutralised(raw: string): string { if StartsFormula(raw) then "'" + raw else raw }

  predicate NeedsQuotes(s: string) { '"' in s || ',' in s || '\n' in s || '\r' in s }

  /** Every quote doubled. */
  function Doubled(s: string): string {
    if s == "" then "" else (if s[0] == '"' then "\"\"" else [s[0]]) + Doubled(s[1..])
  }

  function Quoted(cell: string): string {
    if NeedsQuotes(cell) then "\"" + Doubled(cell) + "\"" else cell
  }

  function CsvField(raw: string): string { Quoted(Neutralised(raw)) }

  function Mapped(row: seq<string>): seq<string> { seq(|row|, i requires 0 <= i < |row| => CsvField(row[i])) }

  function Line(row: seq<string>): string { Join(Mapped(row), ",") + CRLF }

  const HEADER: seq<string> := ["id", "createdAt", "action", "category", "severity", "security",
                                "actor", "subjectType", "subjectId", "requestId", "metadata"]

  function Lines(rows: seq<seq<string>>): string {
    if rows == [] then "" else Line(rows[0]) + Lines(rows[1..])
  }

  lemma LinesFrom(rows: seq<seq<string>>, i: nat, csv: string)
    requires i < |rows|
    ensures csv + Lines(rows[i..]) == (csv + Line(rows[i])) + Lines(rows[i + 1..])
  {
    assert rows[i..][1..] == rows[i + 1..];
    Regroup(csv, Line(rows[i]), Lines(rows[i + 1..]));
  }

  /** The document is assembled line by line; every row has a field for each column. */
  method Export(rows: seq<seq<string>>) returns (csv: string)
    requires forall i :: 0 <= i < |rows| ==> |rows[i]| == |HEADER|
    ensures csv == Join(HEADER, ",") + CRLF + Lines(rows)
  {
    csv := Join(HEADER, ",") + CRLF;
    ghost var head := csv;
    for i := 0 to |rows|
      invariant csv + Lines(rows[i..]) == head + Lines(rows)
    {
      LinesFrom(rows, i, csv);
      csv := csv + Line(rows[i]);
    }
  }

  /** The rest of a quoted field, after its opening quote: the field and what follows its closing quote. */
  function ReadQuoted(s: string): (r: Option<(string, string)>)
    ensures r.Some? ==> |r.value.1| < |s|
  {
    if s == "" then None
    else if s[0] == '"' then
      if |s| >= 2 && s[1] == '"' then
        match ReadQuoted(s[2..])
        case None => None
        case Some(f) => Some(("\"" + f.0, f.1))
      else Some(("", s[1..]))
    else
      match ReadQuoted(s[1..])
      case None => None
      case Some(f) => Some(([s[0]] + f.0, f.1))
  }

  /** What the reader takes in an unquoted field. Section 2 of RFC 4180 allows TEXTDATA alone there, printable
      ASCII; the printer leaves tabs, other control characters and non-ASCII text unquoted, so a strict reader
      would stop at them. This one accepts whatever does not end a field. */
  predicate Plain(c: char) { c != '"' && c != ',' && c != '\r' && c != '\n' }

  /** A field without quotes: as many plain characters as there are. */
  function ReadPlain(s: string): (f: (string, string))
    ensures |f.1| <= |s|
  {
    if s == "" || !Plain(s[0]) then ("", s)
    else
      var rest := ReadPlain(s[1..]);
      ([s[0]] + rest.0, rest.1)
  }

  function ReadField(s: string): (r: Option<(string, string)>)
    ensures r.Some? ==> |r.value.1| <= |s|
  {
    if s != "" && s[0] == '"' then ReadQuoted(s[1..]) else Some(ReadPlain(s))
  }

  /** Fields separated by commas up to a line break, or the end of the document. */
  function ReadRecord(s: string): (r: Option<(seq<string>, string)>)
    ensures r.Some? ==> |r.value.1| <= |s|
    ensures r.Some? && s != "" ==> |r.value.1| < |s|
    decreases |s|
  {
    match ReadField(s)
    case None => None
    case Some(f) =>
      if f.1 == "" then Some(([f.0], ""))
      else if |f.1| >= 2 && f.1[..2] == CRLF then Some(([f.0], f.1[2..]))
      else if f.1[0] != ',' then None
      else
        match ReadRecord(f.1[1..])
        case None => None
        case Some(more) => Some(([f.0] + more.0, more.1))
  }

  function ReadDocument(s: string): Option<seq<seq<string>>>
    decreases |s|
  {
    if s == "" then Some([])
    else
      match ReadRecord(s)
      case None => None
      case Some(first) =>
        match ReadDocument(first.1)
        case None => None
        case Some(more) => Some([first.0] + more)
  }

  predicate EndsField(s: string) { s == "" || s[0] == ',' || s[0] == '\r' }

  lemma {:induction false} DoubledReads(cell: string, rest: string)
    requires rest == "" || rest[0] != '"'
    ensures ReadQuoted(Doubled(cell) + "\"" + rest) == Some((cell, rest))
  {
    var all := Doubled(cell) + "\"" + rest;
    if cell == "" {
      assert all == "\"" + rest;
    } else {
      DoubledReads(cell[1..], rest);
      var head := if cell[0] == '"' then "\"\"" else [cell[0]];
      assert all == head + (Doubled(cell[1..]) + "\"" + rest);
      assert all[|head|..] == Doubled(cell[1..]) + "\"" + rest;
      assert cell == [cell[0]] + cell[1..];
    }
  }

  lemma {:induction false} PlainReads(cell: string, rest: string)
    requires !NeedsQuotes(cell) && EndsField(rest)
    ensures ReadPlain(cell + rest) == (cell, rest)
  {
    if cell == "" {
      assert cell + rest == rest;
    } else {
      assert (cell + rest)[1..] == cell[1..] + rest;
      PlainReads(cell[1..], rest);
      assert cell == [cell[0]] + cell[1..];
    }
  }

  lemma QuotedReads(cell: string, rest: string)
    requires EndsField(rest)
    ensures ReadField(Quoted(cell) + rest) == Some((cell, rest))
  {
    if NeedsQuotes(cell) {
      var body := Doubled(cell) + "\"" + rest;
      DoubledReads(cell, rest);
      Opening(Doubled(cell), rest);
      assert ReadField("\"" + body) == ReadQuoted(body);
    } else {
      PlainReads(cell, rest);
      FirstIsPlain(cell, rest);
    }
  }

  lemma Opening(doubled: string, rest: string)
    ensures ("\"" + doubled + "\"") + rest == "\"" + (doubled + "\"" + rest)
    ensures ("\"" + (doubled + "\"" + rest))[1..] == doubled + "\"" + rest
  {
  }

  lemma FirstIsPlain(cell: string, rest: string)
    requires !NeedsQuotes(cell) && EndsField(rest)
    ensures cell + rest == "" || (cell + rest)[0] != '"'
  {
    assert cell != "" ==> (cell + rest)[0] == cell[0] && cell[0] in cell;
  }

  function Cells(row: seq<string>): seq<string> { seq(|row|, i requires 0 <= i < |row| => Neutralised(row[i])) }

  lemma LastField(s: string, field: string, rest: string)
    requires ReadField(s) == Some((field, CRLF + rest))
    ensures ReadRecord(s) == Some(([field], rest))
  {
    assert (CRLF + rest)[..2] == CRLF && (CRLF + rest)[2..] == rest;
  }

  lemma NextField(s: string, field: string, more: string, fields: seq<string>, rest: string)
    requires ReadField(s) == Some((field, "," + more)) && ReadRecord(more) == Some((fields, rest))
    ensures ReadRecord(s) == Some(([field] + fields, rest))
  {
    var after := "," + more;
    assert after[0] == ',' && after[1..] == more;
    assert |after| >= 2 ==> after[..2][0] == ',';
  }

  lemma LineHead(row: seq<string>, rest: string)
    requires row != []
    ensures Cells(row) == [Neutralised(row[0])] + Cells(row[1..])
    ensures Line(row) + rest
      == Quoted(Neutralised(row[0])) + (if |row| == 1 then CRLF + rest else "," + (Line(row[1..]) + rest))
  {
    assert Mapped(row) == [CsvField(row[0])] + Mapped(row[1..]);
    assert Mapped(row)[1..] == Mapped(row[1..]);
    Regroup(CsvField(row[0]), CRLF, rest);
    Regroup("," , Line(row[1..]), rest);
    Regroup(CsvField(row[0]), "," + Line(row[1..]), rest);
    Regroup(CsvField(row[0]) + ",", Join(Mapped(row[1..]), ","), CRLF);
    Regroup(CsvField(row[0]), ",", Line(row[1..]));
  }

  /** A printed line is read back as its cells. */
  lemma {:induction false} LineReads(row: seq<string>, rest: string)
    requires row != []
    ensures ReadRecord(Line(row) + rest) == Some((Cells(row), rest))
  {
    var cell := Neutralised(row[0]);
    LineHead(row, rest);
    if |row| == 1 {
      assert Cells(row) == [cell];
      QuotedReads(cell, CRLF + rest);
      LastField(Line(row) + rest, cell, rest);
    } else {
      var more := Line(row[1..]) + rest;
      QuotedReads(cell, "," + more);
      LineReads(row[1..], rest);
      NextField(Line(row) + rest, cell, more, Cells(row[1..]), rest);
    }
  }

  function AllCells(rows: seq<seq<string>>): seq<seq<string>> {
    seq(|rows|, i requires 0 <= i < |rows| => Cells(rows[i]))
  }

  lemma {:induction false} LinesRead(rows: seq<seq<string>>)
    requires forall i :: 0 <= i < |rows| ==> rows[i] != []
    ensures ReadDocument(Lines(rows)) == Some(AllCells(rows))
  {
    if rows != [] {
      LineReads(rows[0], Lines(rows[1..]));
      LinesRead(rows[1..]);
      assert AllCells(rows) == [Cells(rows[0])] + AllCells(rows[1..]);
      assert |Line(rows[0])| >= 2;
    }
  }

  predicate FormulaFree(rows: seq<seq<string>>) {
    forall i, k :: 0 <= i < |rows| && 0 <= k < |rows[i]| ==> !StartsFormula(rows[i][k])
  }

  lemma CellsAreFormulaFree(rows: seq<seq<string>>)
    ensures FormulaFree(AllCells(rows))
  {
  }

  /** A reader of the exported document gets the header, then each row's cells, none of which runs as a formula. */
  lemma ExportReadsBack(rows: seq<seq<string>>)
    requires forall i :: 0 <= i < |rows| ==> |rows[i]| == |HEADER|
    ensures ReadDocument(Join(HEADER, ",") + CRLF + Lines(rows)) == Some([HEADER] + AllCells(rows))
    ensures FormulaFree(AllCells(rows))
  {
    HeaderIsPlain();
    assert Join(HEADER, ",") + CRLF == Line(HEADER);
    LineReads(HEADER, Lines(rows));
    LinesRead(rows);
    CellsAreFormulaFree(rows);
    assert |Line(HEADER)| >= 2;
  }

  predicate Letters(s: string) {
    forall i :: 0 <= i < |s| ==> 'A' <= s[i] <= 'Z' || 'a' <= s[i] <= 'z'
  }

  lemma LettersPrintAsTheyAre(s: string)
    requires Letters(s)
    ensures CsvField(s) == s && Neutralised(s) == s
  {
  }

  lemma FirstColumnsAreLetters()
    ensures Letters("id") && Letters("createdAt") && Letters("action") && Letters("category")
  {
  }

  lemma MiddleColumnsAreLetters()
    ensures Letters("severity") && Letters("security") && Letters("actor") && Letters("subjectType")
  {
  }

  lemma LastColumnsAreLetters()
    ensures Letters("subjectId") && Letters("requestId") && Letters("metadata")
  {
  }

  lemma HeaderIsLetters(i: nat)
    requires i < |HEADER|
    ensures Letters(HEADER[i])
  {
    FirstColumnsAreLetters();
    MiddleColumnsAreLetters();
    LastColumnsAreLetters();
  }

  lemma HeaderIsPlain()
    ensures Mapped(HEADER) == HEADER && Cells(HEADER) == HEADER
  {
    var header := HEADER;
    forall i | 0 <= i < |header| ensures CsvField(header[i]) == header[i] && Neutralised(header[i]) == header[i] {
      HeaderIsLetters(i);
      LettersPrintAsTheyAre(header[i]);
    }
  }

  /** A cell is printed as it is iff it holds no quote, comma or line break; otherwise it is quoted. */
  lemma QuotedIffNeeded(cell: string)
    ensures Quoted(cell) == cell <==> forall c :: c in cell ==> c != '"' && c != ',' && c != '\n' && c != '\r'
  {
    if NeedsQuotes(cell) {
      DoubledIsLonger(cell);
    }
  }

  lemma {:induction false} DoubledIsLonger(cell: string)
    ensures |Doubled(cell)| >= |cell|
  {
    if cell != "" {
      DoubledIsLonger(cell[1..]);
    }
  }

  /** A cell gets an apostrophe iff it begins with one of the six characters a spreadsheet takes for a formula. */
  lemma NeutralisedIff(raw: string)
    ensures var risky := raw != "" && raw[0] in {'=', '+', '-', '@', '\t', '\r'};
      Neutralised(raw) == if risky then "'" + raw else raw
  {
  }

  /** Two fields print alike only if they are equal, or one is the other with its formula already quoted. */
  lemma PrintAlikeIff(a: string, b: string)
    ensures CsvField(a) == CsvField(b)
      <==> a == b || (StartsFormula(a) && b == "'" + a) || (StartsFormula(b) && a == "'" + b)
  {
    QuotedReads(Neutralised(a), "");
    QuotedReads(Neutralised(b), "");
    assert CsvField(a) + "" == CsvField(a) && CsvField(b) + "" == CsvField(b);
    if CsvField(a) == CsvField(b) {
      assert Neutralised(a) == Neutralised(b);
      assert ("'" + a)[1..] == a && ("'" + b)[1..] == b;
    }
  }
}
