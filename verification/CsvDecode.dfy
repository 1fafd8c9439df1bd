/** Reading CSV back: a decoder defined on its own, and the proof that it recovers what was formatted. */
module CsvDecode {
  import opened Text
  import opened Csv

  /** Where the decoder is: at the start of a cell, inside a plain or a quoted one, after a quote
      inside a quoted one, or past a character that fits nowhere. */
  datatype Mode = CellStart | Plain | InQuotes | QuoteSeen | Broken

  datatype Decoder = Decoder(rows: seq<seq<string>>, cells: seq<string>, cell: string, mode: Mode) {
    function EndCell(): Decoder { Decoder(rows, cells + [cell], "", CellStart) }

    function EndRow(): Decoder { Decoder(rows + [cells + [cell]], [], "", CellStart) }

    function Add(c: char, m: Mode): Decoder { Decoder(rows, cells, cell + [c], m) }

    /** One character, by the rules of section 2 of RFC 4180. */
    function Feed(c: char): Decoder {
      match mode
      case Broken => this
      case InQuotes => if c == '"' then this.(mode := QuoteSeen) else Add(c, InQuotes)
      case QuoteSeen =>
        if c == '"' then Add(c, InQuotes)
        else if c == ';' then EndCell()
        else if c == '\n' then EndRow()
        else this.(mode := Broken)
      case _ =>
        if c == ';' then EndCell()
        else if c == '\n' then EndRow()
        else if c == '"' then this.(mode := if mode == CellStart then InQuotes else Broken)
        else Add(c, Plain)
    }

    function Run(s: string): Decoder
      decreases |s|
    {
      if s == "" then this else Feed(s[0]).Run(s[1..])
    }
  }

  function AtRow(rows: seq<seq<string>>): Decoder { Decoder(rows, [], "", CellStart) }

  /** The rows of a text, or None when it is not a list of complete rows. */
  function Decode(s: string): Option<seq<seq<string>>> {
    var d := AtRow([]).Run(s);
    if d == AtRow(d.rows) then Some(d.rows) else None
  }

  lemma {:induction false} RunAppend(d: Decoder, a: string, b: string)
    ensures d.Run(a + b) == d.Run(a).Run(b)
    decreases |a|
  {
    if a == "" {
      assert a + b == b;
    } else {
      assert (a + b)[1..] == a[1..] + b;
      RunAppend(d.Feed(a[0]), a[1..], b);
    }
  }

  lemma RunOne(d: Decoder, c: char)
    ensures d.Run([c]) == d.Feed(c)
  {
    assert [c][1..] == "";
  }

  /** Text that means itself outside quotes. */
  predicate PlainText(s: string) {
    forall i | 0 <= i < |s| :: s[i] != ';' && s[i] != '"' && s[i] != '\n'
  }

  lemma PlainIff(s: string)
    ensures PlainText(s) <==> ';' !in s && '"' !in s && '\n' !in s
  {
  }

  lemma {:induction false} RunPlain(d: Decoder, s: string)
    requires PlainText(s) && (d.mode == CellStart || d.mode == Plain)
    ensures d.Run(s) == d.(cell := d.cell + s, mode := if s == "" then d.mode else Plain)
    decreases |s|
  {
    if s == "" {
      assert d.cell + s == d.cell;
    } else {
      RunPlain(d.Feed(s[0]), s[1..]);
      assert d.cell + [s[0]] + s[1..] == d.cell + s;
    }
  }

  lemma RunCell(d: Decoder, s: string)
    requires PlainText(s) && d.mode == CellStart && d.cell == ""
    ensures d.Run(Cell(s)) == Decoder(d.rows, d.cells + [s], "", CellStart)
  {
    RunPlain(d, s);
    assert d.cell + s == s;
    RunAppend(d, s, ";");
    RunOne(d.Run(s), ';');
  }

  lemma {:induction false} RunDoubled(d: Decoder, s: string)
    requires d.mode == InQuotes
    ensures d.Run(Doubled(s)) == d.(cell := d.cell + s)
    decreases |s|
  {
    if s == "" {
      assert d.cell + s == d.cell;
    } else {
      var first := if s[0] == '"' then "\"\"" else [s[0]];
      RunAppend(d, first, Doubled(s[1..]));
      assert d.Run(first) == d.Add(s[0], InQuotes) by {
        if s[0] == '"' {
          assert first[1..] == "\"";
          RunOne(d.Feed('"'), '"');
        } else {
          RunOne(d, s[0]);
        }
      }
      RunDoubled(d.Add(s[0], InQuotes), s[1..]);
      assert d.cell + [s[0]] + s[1..] == d.cell + s;
    }
  }

  lemma RunQuotedEnd(d: Decoder, s: string)
    requires d.mode == CellStart && d.cell == ""
    ensures d.Run(Quoted(s) + "\n") == AtRow(d.rows + [d.cells + [s]])
  {
    RunAppend(d, Quoted(s), "\n");
    RunAppend(d, QUOTE + Doubled(s), QUOTE);
    RunAppend(d, QUOTE, Doubled(s));
    RunOne(d, '"');
    RunDoubled(d.Feed('"'), s);
    assert d.cell + s == s;
    RunOne(d.Feed('"').(cell := s), '"');
    RunOne(d.(cell := s, mode := QuoteSeen), '\n');
  }

  /** A record whose only free-form cells before the message, function name and object, are plain. */
  predicate PlainRecord(r: Record) { PlainText(r.func) && PlainText(r.caller) }

  lemma DateIsPlain(t: Stamp)
    ensures PlainText(Date(t))
  {
    DecimalIsDigits(t.year);
    PaddedIsDigits(t.month, 2);
    PaddedIsDigits(t.day, 2);
  }

  lemma TimeIsPlain(t: Stamp)
    ensures PlainText(TimeOfDay(t))
  {
    PaddedIsDigits(t.hour, 2);
    PaddedIsDigits(t.minute, 2);
    PaddedIsDigits(t.second, 2);
    PaddedIsDigits(t.millis, 3);
  }

  lemma FuncIsPlain(r: Record)
    requires PlainText(r.func)
    ensures PlainText(Cells(r)[5])
  {
    DecimalIsDigits(r.line);
  }

  lemma SeverityIsPlain(s: Severity)
    ensures PlainText(SeverityToString(s))
  {
  }

  lemma CellsArePlain(r: Record)
    requires PlainRecord(r)
    ensures forall i :: 0 <= i < 6 ==> PlainText(Cells(r)[i])
  {
    FirstCellsArePlain(r);
    FuncIsPlain(r);
    forall i | 0 <= i < 6 ensures PlainText(Cells(r)[i]) {
      if i < 5 { assert Cells(r)[i] == FirstCells(r)[i]; }
    }
  }

  /** The cells before the function name. */
  function FirstCells(r: Record): seq<string> {
    [Date(r.time), TimeOfDay(r.time), SeverityToString(r.severity), Decimal(r.tid), r.caller]
  }

  lemma FirstCellsArePlain(r: Record)
    requires PlainText(r.caller)
    ensures forall i :: 0 <= i < 5 ==> PlainText(FirstCells(r)[i])
    ensures Cells(r)[..5] == FirstCells(r)
  {
    DateIsPlain(r.time);
    TimeIsPlain(r.time);
    SeverityIsPlain(r.severity);
    DecimalIsDigits(r.tid);
  }

  /** Any row, formatted where a row may begin, is read as the cells it stands for. */
  lemma RunRow(rows: seq<seq<string>>, r: Record)
    requires PlainRecord(r)
    ensures AtRow(rows).Run(Row(r)) == AtRow(rows + [Cells(r)])
  {
    CellsArePlain(r);
    var c, start := Cells(r), AtRow(rows);
    var end := Quoted(c[6]) + "\n";
    assert Row(r) == Prefix(r) + end;
    RunAppend(start, Prefix(r), end);
    RunCells(start, c[..6]);
    assert start.cells + c[..6] == c[..6];
    RunQuotedEnd(Decoder(rows, c[..6], "", CellStart), c[6]);
    assert c[..6] + [c[6]] == c;
  }

  lemma {:induction false} RunCells(d: Decoder, cells: seq<string>)
    requires d.mode == CellStart && d.cell == "" && forall i :: 0 <= i < |cells| ==> PlainText(cells[i])
    ensures d.Run(CellRow(cells)) == Decoder(d.rows, d.cells + cells, "", CellStart)
  {
    if cells == [] {
      assert d.cells + cells == d.cells;
    } else {
      var k := |cells| - 1;
      RunCells(d, cells[..k]);
      RunAppend(d, CellRow(cells[..k]), Cell(cells[k]));
      RunCell(Decoder(d.rows, d.cells + cells[..k], "", CellStart), cells[k]);
      assert d.cells + cells[..k] + [cells[k]] == d.cells + cells;
    }
  }

  function RowTexts(rs: seq<Record>): seq<string> { seq(|rs|, i requires 0 <= i < |rs| => Row(rs[i])) }

  function CellRows(rs: seq<Record>): seq<seq<string>> { seq(|rs|, i requires 0 <= i < |rs| => Cells(rs[i])) }

  predicate AllPlain(rs: seq<Record>) { forall i :: 0 <= i < |rs| ==> PlainRecord(rs[i]) }

  /** Wherever a row may begin, the text is one row with these cells. */
  ghost predicate ReadsAs(text: string, cells: seq<string>) {
    forall rows :: AtRow(rows).Run(text) == AtRow(rows + [cells])
  }

  lemma RowReadsAs(r: Record)
    requires PlainRecord(r)
    ensures ReadsAs(Row(r), Cells(r))
  {
    forall rows ensures AtRow(rows).Run(Row(r)) == AtRow(rows + [Cells(r)]) { RunRow(rows, r); }
  }

  /** Texts and what each of them reads as. */
  ghost predicate AllReadAs(texts: seq<string>, cells: seq<seq<string>>) {
    |texts| == |cells| && forall i :: 0 <= i < |texts| ==> ReadsAs(texts[i], cells[i])
  }

  lemma {:induction false} RunRows(rows: seq<seq<string>>, texts: seq<string>, cells: seq<seq<string>>)
    requires AllReadAs(texts, cells)
    ensures AtRow(rows).Run(Flatten(texts)) == AtRow(rows + cells)
  {
    if texts == [] {
      assert rows + cells == rows;
    } else {
      var k := |texts| - 1;
      RunRows(rows, texts[..k], cells[..k]);
      assert texts == texts[..k] + [texts[k]];
      FlattenSnoc(texts[..k], texts[k]);
      RunAppend(AtRow(rows), Flatten(texts[..k]), texts[k]);
      assert ReadsAs(texts[k], cells[k]);
      assert rows + cells[..k] + [cells[k]] == rows + cells;
    }
  }

  /** A row of plain cells. */
  lemma {:induction false} RunPlainRow(rows: seq<seq<string>>, cells: seq<string>, last: string)
    requires PlainText(last) && forall i :: 0 <= i < |cells| ==> PlainText(cells[i])
    ensures AtRow(rows).Run(CellRow(cells) + (last + "\n")) == AtRow(rows + [cells + [last]])
  {
    var d, e := AtRow(rows), Decoder(rows, cells, "", CellStart);
    RunAppend(d, CellRow(cells), last + "\n");
    RunCells(d, cells);
    assert d.cells + cells == cells;
    RunAppend(e, last, "\n");
    RunPlain(e, last);
    assert e.cell + last == last;
    RunOne(e.Run(last), '\n');
  }

  lemma CellRowOfSix(a: string, b: string, c: string, d: string, e: string, f: string)
    ensures CellRow([a, b, c, d, e, f]) == Cell(a) + Cell(b) + Cell(c) + Cell(d) + Cell(e) + Cell(f)
  {
    CellRowSnoc([], a);
    assert [] + [a] == [a];
    assert CellRow([a]) == Cell(a);
    CellRowSnoc([a], b);
    assert [a] + [b] == [a, b];
    CellRowSnoc([a, b], c);
    assert [a, b] + [c] == [a, b, c];
    CellRowSnoc([a, b, c], d);
    assert [a, b, c] + [d] == [a, b, c, d];
    CellRowSnoc([a, b, c, d], e);
    assert [a, b, c, d] + [e] == [a, b, c, d, e];
    CellRowSnoc([a, b, c, d, e], f);
    assert [a, b, c, d, e] + [f] == [a, b, c, d, e, f];
  }

  lemma HeaderStart()
    ensures Cell("Date") + Cell("Time") + Cell("Severity") == "Date;Time;Severity;"
  {
    assert Cell("Date") + Cell("Time") == "Date;Time;";
  }

  lemma HeaderEnd()
    ensures Cell("TID") + Cell("This") + Cell("Function") == "TID;This;Function;"
  {
    assert Cell("TID") + Cell("This") == "TID;This;";
  }

  lemma Regrouped(a: string, b: string, c: string, d: string, e: string, f: string)
    ensures a + b + c + d + e + f == (a + b + c) + (d + e + f)
  {
  }

  lemma HeaderHalves()
    ensures HEADER == ("Date;Time;Severity;" + "TID;This;Function;") + ("Message" + "\n")
  {
    assert "Message" + "\n" == "Message\n";
  }

  lemma HeaderText()
    ensures HEADER == CellRow(["Date", "Time", "Severity", "TID", "This", "Function"]) + ("Message" + "\n")
  {
    CellRowOfSix("Date", "Time", "Severity", "TID", "This", "Function");
    Regrouped(Cell("Date"), Cell("Time"), Cell("Severity"), Cell("TID"), Cell("This"), Cell("Function"));
    HeaderStart();
    HeaderEnd();
    HeaderHalves();
  }

  lemma {:induction false} PlainRowReadsAs(text: string, cells: seq<string>, last: string)
    requires text == CellRow(cells) + (last + "\n")
    requires PlainText(last) && forall i :: 0 <= i < |cells| ==> PlainText(cells[i])
    ensures ReadsAs(text, cells + [last])
  {
    forall rows ensures AtRow(rows).Run(text) == AtRow(rows + [cells + [last]]) { RunPlainRow(rows, cells, last); }
  }

  lemma HeaderReadsAs()
    ensures ReadsAs(HEADER, HEADER_CELLS)
  {
    HeaderText();
    var cells := HEADER_CELLS[..6];
    assert cells == ["Date", "Time", "Severity", "TID", "This", "Function"];
    PlainRowReadsAs(HEADER, cells, "Message");
    assert cells + ["Message"] == HEADER_CELLS;
  }

  /** The byte order mark the UTF-8 converter puts before the header. */
  const BOM: string := [0xEF as char, 0xBB as char, 0xBF as char]

  /** What a fresh CSV log file starts with. */
  const FILE_HEADER: string := BOM + HEADER

  /** The rows of a log file: its byte order mark is dropped and the rest decoded. */
  function DecodeFile(content: string): Option<seq<seq<string>>> {
    if BOM <= content then Decode(content[|BOM|..]) else None
  }

  lemma RowsReadAs(rs: seq<Record>)
    requires AllPlain(rs)
    ensures AllReadAs(RowTexts(rs), CellRows(rs))
  {
    forall i | 0 <= i < |rs| ensures ReadsAs(RowTexts(rs)[i], CellRows(rs)[i]) { RowReadsAs(rs[i]); }
  }

  lemma FileOfRows(header: string, headerCells: seq<string>, texts: seq<string>, cells: seq<seq<string>>)
    requires ReadsAs(header, headerCells) && AllReadAs(texts, cells)
    ensures DecodeFile(BOM + header + Flatten(texts)) == Some([headerCells] + cells)
  {
    var content := BOM + header + Flatten(texts);
    assert content[|BOM|..] == header + Flatten(texts);
    RunAppend(AtRow([]), header, Flatten(texts));
    assert [] + [headerCells] == [headerCells];
    RunRows([headerCells], texts, cells);
  }

  /** A file of formatted records reads as the header row and each record's cells, whatever the
      messages hold: quotes, separators, line ends, or more than 32000 characters. */
  lemma FileRoundTrip(rs: seq<Record>)
    requires AllPlain(rs)
    ensures DecodeFile(FILE_HEADER + Flatten(RowTexts(rs))) == Some([HEADER_CELLS] + CellRows(rs))
  {
    HeaderReadsAs();
    RowsReadAs(rs);
    FileOfRows(HEADER, HEADER_CELLS, RowTexts(rs), CellRows(rs));
  }

  // ---- Exactly which function names are recovered ----

  /** The first row as far as it is decided. */
  function FirstRow(d: Decoder): seq<string> { if d.rows == [] then d.cells else d.rows[0] }

  lemma {:induction false} DecidedStays(d: Decoder, s: string)
    ensures d.rows <= d.Run(s).rows && FirstRow(d) <= FirstRow(d.Run(s))
    decreases |s|
  {
    if s != "" { DecidedStays(d.Feed(s[0]), s[1..]); }
  }

  /** A function name is recovered exactly when it holds no ';', no quote and no line end. */
  lemma FuncRecoveredIff(r: Record)
    requires PlainText(r.caller)
    ensures Decode(Row(r)) == Some([Cells(r)]) <==> ';' !in r.func && '"' !in r.func && '\n' !in r.func
  {
    PlainIff(r.func);
    if PlainText(r.func) {
      RunRow([], r);
      assert [] + [Cells(r)] == [Cells(r)];
    } else {
      FuncBreaksRow(r);
    }
  }

  lemma FuncBreaksRow(r: Record)
    requires PlainText(r.caller) && !PlainText(r.func)
    ensures Decode(Row(r)) != Some([Cells(r)])
  {
    var c := Cells(r);
    FirstCellsArePlain(r);
    assert c[5] == r.func + ("@" + Decimal(r.line));
    assert c[..6] == c[..5] + [c[5]];
    CellBreaksRow(c[..5], r.func, Decimal(r.line), Quoted(c[6]) + "\n");
    assert Row(r) == CellRow(c[..6]) + (Quoted(c[6]) + "\n");
    assert [c][0][5] == c[5];
  }

  /** The decoding went wrong, or the first row's cell k is not this text. */
  ghost predicate Misread(d: Decoder, k: nat, text: string) {
    d.mode == Broken || |FirstRow(d)| <= k || FirstRow(d)[k] != text
  }

  lemma CellBreaksRow(cells: seq<string>, text: string, number: string, rest: string)
    requires forall i :: 0 <= i < |cells| ==> PlainText(cells[i])
    requires !PlainText(text)
    ensures Misread(AtRow([]).Run(CellRow(cells + [text + ("@" + number)]) + rest), |cells|, text + ("@" + number))
  {
    var tail := "@" + number;
    var p, d := FirstSpecial(text), AtRow([]);
    CellRowSnoc(cells, text + tail);
    assert CellRow(cells + [text + tail]) + rest == CellRow(cells) + (text + (tail + ";" + rest));
    if text[p] != '"' {
      SpecialBreaksCell(cells, text, tail + ";" + rest);
      var first := FirstRow(d.Run(CellRow(cells + [text + tail]) + rest));
      assert first[|cells|] == (cells + [text[..p]])[|cells|];
      assert |text[..p]| < |text + tail|;
    } else {
      var e := Decoder([], cells, "", CellStart);
      RunAppend(d, CellRow(cells), text + (tail + ";" + rest));
      RunCells(d, cells);
      assert d.cells + cells == cells;
      assert text + (tail + ";" + rest) == text + tail + (";" + rest);
      if p > 0 {
        QuoteInside(e, text, p, tail + ";" + rest);
      } else {
        QuoteInFront(e, text + tail, |text|, ";" + rest);
      }
    }
  }

  lemma {:induction false} BrokenStays(d: Decoder, s: string)
    requires d.mode == Broken
    ensures d.Run(s) == d
    decreases |s|
  {
    if s != "" { BrokenStays(d, s[1..]); }
  }

  /** A quote after other characters of a cell fits nowhere. */
  lemma QuoteInside(d: Decoder, text: string, p: nat, rest: string)
    requires d.mode == CellStart && 0 < p < |text| && PlainText(text[..p]) && text[p] == '"'
    ensures d.Run(text + rest).mode == Broken
  {
    var after := text[p + 1..] + rest;
    assert text + rest == text[..p] + ([text[p]] + after);
    RunAppend(d, text[..p], [text[p]] + after);
    RunPlain(d, text[..p]);
    RunAppend(d.Run(text[..p]), [text[p]], after);
    RunOne(d.Run(text[..p]), text[p]);
    BrokenStays(d.Run(text[..p]).Feed(text[p]), after);
  }

  predicate AllQuotes(s: string) { forall i | 0 <= i < |s| :: s[i] == '"' }

  /** Whatever follows, the cell being read keeps what it has so far. */
  lemma {:induction false} CellStays(d: Decoder, s: string)
    requires d.rows == []
    ensures var e := d.Run(s);
      if |FirstRow(e)| > |d.cells| then d.cell <= FirstRow(e)[|d.cells|] else d.cell <= e.cell
    decreases |s|
  {
    if s != "" {
      var d' := d.Feed(s[0]);
      if |FirstRow(d')| > |d.cells| {
        DecidedStays(d', s[1..]);
      } else {
        CellStays(d', s[1..]);
      }
    }
  }

  /** A quoted cell that has read only quotes so far ends up with fewer quotes in front than the text
      it stands for: another character comes, or the cell ends, too early. */
  lemma {:induction false} QuotesTooFew(d: Decoder, s: string, n: nat, text: string)
    requires d.rows == [] && d.mode == InQuotes && AllQuotes(d.cell) && n < |s| && AllQuotes(s[..n]) && s[n] != '"'
    requires |d.cell| + n < |text| && AllQuotes(text[..|d.cell| + n + 1])
    ensures Misread(d.Run(s), |d.cells|, text)
    decreases n
  {
    var d', rest := d.Feed(s[0]), s[1..];
    if n == 0 {
      CellStays(d', rest);
      assert d'.cell[|d.cell|] == s[0] != '"' == text[..|d.cell| + 1][|d.cell|];
    } else if n == 1 {
      assert s[..n][0] == '"';
      var d'' := d'.Feed(rest[0]);
      if d''.mode == Broken {
        BrokenStays(d'', rest[1..]);
      } else {
        assert FirstRow(d'')[|d.cells|] == d.cell;
        DecidedStays(d'', rest[1..]);
      }
    } else {
      assert s[..n][0] == '"' && s[..n][1] == '"';
      var d'' := d'.Feed(rest[0]);
      assert forall i | 0 <= i < n - 2 :: rest[1..][i] == s[..n][i + 2];
      assert forall i | 0 <= i < |d.cell| + n :: text[i] == text[..|d.cell| + n + 1][i];
      QuotesTooFew(d'', rest[1..], n - 2, text);
    }
  }

  /** A quote in front of a cell opens a quoted cell, which is never read as the text that was meant. */
  lemma QuoteInFront(d: Decoder, text: string, p: nat, rest: string)
    requires d.rows == [] && d.cell == "" && d.mode == CellStart
    requires 0 < p < |text| && text[0] == '"' && text[p] == '@'
    ensures Misread(d.Run(text + rest), |d.cells|, text)
  {
    var m := Quotes(text);
    var s := text + rest;
    assert s[1..] == text[1..] + rest;
    assert forall i | 0 <= i < m - 1 :: s[1..][i] == text[..m][i + 1];
    QuotesTooFew(d.Feed('"'), s[1..], m - 1, text);
  }

  /** How many quotes a text starts with. */
  function Quotes(s: string): (n: nat)
    ensures n <= |s| && AllQuotes(s[..n]) && (n < |s| ==> s[n] != '"')
  {
    if s == "" || s[0] != '"' then 0 else 1 + Quotes(s[1..])
  }

  /** Plain cells, then text with a separator or a line end in it: whatever follows, the first row
      has the text up to that character as its next cell. */
  lemma SpecialBreaksCell(cells: seq<string>, text: string, rest: string)
    requires forall i :: 0 <= i < |cells| ==> PlainText(cells[i])
    requires !PlainText(text) && text[FirstSpecial(text)] != '"'
    ensures cells + [text[..FirstSpecial(text)]] <= FirstRow(AtRow([]).Run(CellRow(cells) + (text + rest)))
  {
    var p := FirstSpecial(text);
    var name, special, after := text[..p], text[p], text[p + 1..] + rest;
    assert text + rest == name + ([special] + after);
    var d, e := AtRow([]), Decoder([], cells, "", CellStart);
    RunAppend(d, CellRow(cells), text + rest);
    RunCells(d, cells);
    assert d.cells + cells == cells;
    RunAppend(e, name, [special] + after);
    RunPlain(e, name);
    assert e.cell + name == name;
    RunAppend(e.Run(name), [special], after);
    RunOne(e.Run(name), special);
    DecidedStays(e.Run(name).Feed(special), after);
  }

  /** The first character of s that is not plain. */
  function FirstSpecial(s: string): (p: nat)
    requires !PlainText(s)
    ensures p < |s| && PlainText(s[..p]) && (s[p] == ';' || s[p] == '"' || s[p] == '\n')
  {
    if s[0] == ';' || s[0] == '"' || s[0] == '\n' then 0
    else
      assert forall i :: 1 <= i < |s| ==> s[1..][i - 1] == s[i];
      var p := 1 + FirstSpecial(s[1..]);
      assert s[..p] == [s[0]] + s[1..][..p - 1];
      p
  }
}
