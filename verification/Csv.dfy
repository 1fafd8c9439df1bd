/** The CSV formatter, and the decoder that section 2 of RFC 4180 asks for, with ';' as separator. */
module Csv {
  import opened Text
  import opened Streams

  const MAX_MESSAGE_SIZE := 32000

  datatype Severity = NoSeverity | Fatal | Error | Warning | Info | Debug | Verbose

  function SeverityToString(s: Severity): string {
    match s
    case Fatal => "FATAL"
    case Error => "ERROR"
    case Warning => "WARN"
    case Info => "INFO"
    case Debug => "DEBUG"
    case Verbose => "VERB"
    case NoSeverity => "NONE"
  }

  /** A broken-down time, with the offsets of `struct tm` already added, and its milliseconds. */
  datatype Stamp = Stamp(year: nat, month: nat, day: nat, hour: nat, minute: nat, second: nat, millis: nat)

  /** A log record; caller is the printed form of the `this` pointer at the call. */
  datatype Record = Record(time: Stamp, severity: Severity, tid: nat, caller: string,
                           func: string, line: nat, message: string)

  function Date(t: Stamp): string {
    Decimal(t.year) + "/" + Padded(t.month, 2) + "/" + Padded(t.day, 2)
  }

  function TimeOfDay(t: Stamp): string {
    Padded(t.hour, 2) + ":" + Padded(t.minute, 2) + ":" + Padded(t.second, 2) + "." + Padded(t.millis, 3)
  }

  /** What is logged of a message: all of it, or its first 32000 characters and an ellipsis. */
  function Logged(message: string): string {
    if |message| > MAX_MESSAGE_SIZE then message[..MAX_MESSAGE_SIZE] + "..." else message
  }

  /** Every quote written twice. */
  function Doubled(s: string): string {
    if s == "" then ""
    else (if s[0] == '"' then "\"\"" else [s[0]]) + Doubled(s[1..])
  }

  lemma {:induction false} DoubledAppend(a: string, b: string)
    ensures Doubled(a + b) == Doubled(a) + Doubled(b)
  {
    if a == "" {
      assert a + b == b;
    } else {
      assert (a + b)[1..] == a[1..] + b;
      DoubledAppend(a[1..], b);
    }
  }

  lemma {:induction false} DoubledPlain(s: string)
    requires '"' !in s
    ensures Doubled(s) == s
  {
    if s != "" { DoubledPlain(s[1..]); }
  }

  /** The cells a record stands for. */
  function Cells(r: Record): seq<string> {
    [Date(r.time), TimeOfDay(r.time), SeverityToString(r.severity), Decimal(r.tid), r.caller,
     r.func + "@" + Decimal(r.line), Logged(r.message)]
  }

  /** One cell closed by the separator. */
  function Cell(text: string): string { text + ";" }

  /** Cells, each closed by the separator. */
  function CellRow(cells: seq<string>): string {
    if cells == [] then "" else CellRow(cells[..|cells| - 1]) + Cell(cells[|cells| - 1])
  }

  lemma CellRowSnoc(cells: seq<string>, cell: string)
    ensures CellRow(cells + [cell]) == CellRow(cells) + Cell(cell)
  {
    assert (cells + [cell])[..|cells|] == cells;
  }

  /** All cells but the message. */
  function Prefix(r: Record): string { CellRow(Cells(r)[..6]) }

  /** The row a record must become: plain cells, then the message quoted with its quotes doubled. */
  function Row(r: Record): string {
    Prefix(r) + Quoted(Logged(r.message)) + "\n"
  }

  const HEADER := "Date;Time;Severity;TID;This;Function;Message\n"
  const HEADER_CELLS := ["Date", "Time", "Severity", "TID", "This", "Function", "Message"]

  const QUOTE := "\""

  /** A quoted cell. */
  function Quoted(s: string): string { QUOTE + Doubled(s) + QUOTE }

  /** What the quoting loop has written after reading some of the message: a quoted cell once the
      stream is at its end, before that a quoted cell short of its last quote. */
  ghost predicate QuotedSoFar(written: string, read: string, atEnd: bool) {
    if atEnd then written == Quoted(read)
    else if read == "" then written == ""
    else written + QUOTE == QUOTE + Doubled(read)
  }

  lemma StartQuoted(written: string, read: string)
    requires QuotedSoFar(written, read, false)
    ensures written + QUOTE == QUOTE + Doubled(read)
  {
    if read == "" {
      assert written + QUOTE == QUOTE;
      assert QUOTE + Doubled(read) == QUOTE;
    }
  }

  lemma TokenQuoted(written: string, read: string, token: string)
    requires '"' !in token && QuotedSoFar(written, read, false)
    ensures written + (QUOTE + token) == QUOTE + Doubled(read + token)
  {
    StartQuoted(written, read);
    DoubledAppend(read, token);
    DoubledPlain(token);
    Regroup(written, QUOTE, token);
    Regroup(QUOTE, Doubled(read), token);
  }

  lemma QuoteQuoted(s: string)
    ensures Doubled(s + QUOTE) == Doubled(s) + QUOTE + QUOTE
  {
    assert Doubled(QUOTE) == QUOTE + QUOTE by { assert QUOTE[1..] == ""; }
    DoubledAppend(s, QUOTE);
  }

  /** One turn of the quoting loop: the piece read goes between two quotes. */
  lemma PieceQuoted(written: string, read: string, token: string, taken: string, atEnd: bool)
    requires '"' !in token && QuotedSoFar(written, read, false)
    requires taken == token + (if atEnd then "" else QUOTE)
    ensures QuotedSoFar(written + (QUOTE + token + QUOTE), read + taken, atEnd)
  {
    TokenQuoted(written, read, token);
    var w := written + (QUOTE + token);
    assert written + (QUOTE + token + QUOTE) == w + QUOTE;
    if atEnd {
      assert read + taken == read + token;
    } else {
      assert read + taken == (read + token) + QUOTE;
      QuoteQuoted(read + token);
      Regroup(QUOTE, Doubled(read + token), QUOTE);
      Regroup(QUOTE, Doubled(read + token) + QUOTE, QUOTE);
    }
  }

  lemma Regroup(a: string, b: string, c: string)
    ensures (a + b) + c == a + (b + c)
  {
  }

  /** Quotes a message: it is read quote by quote, and every piece is written between quotes. */
  method WriteMessage(message: string) returns (written: string)
    ensures written == Quoted(message)
  {
    var split := new InputStream(message);
    var token := "";
    written := "";
    ghost var read := "";
    while !split.eof
      invariant split.Valid() && split.data == message && (split.fail ==> split.eof)
      invariant read + split.Rest() == message && (split.eof ==> split.Rest() == "")
      invariant QuotedSoFar(written, read, split.eof)
      decreases |split.Rest()|, !split.eof
    {
      ghost var rest := split.Rest();
      token := split.GetLine('"', token);
      ghost var taken := token + (if split.eof then "" else QUOTE);
      PieceQuoted(written, read, token, taken, split.eof);
      Regroup(read, taken, split.Rest());
      read := read + taken;
      written := written + (QUOTE + token + QUOTE);
    }
    assert read == message;
  }

  /** Appends one closed cell. */
  method WriteCell(out: string, text: string, ghost cells: seq<string>) returns (r: string)
    requires out == CellRow(cells)
    ensures r == CellRow(cells + [text])
  {
    CellRowSnoc(cells, text);
    r := out + (text + ";");
  }

  /** Formats a record. */
  method Format(r: Record) returns (out: string)
    ensures out == Row(r)
  {
    ghost var cells: seq<string> := [];
    var date := Decimal(r.time.year) + "/" + Padded(r.time.month, 2) + "/" + Padded(r.time.day, 2);
    var time := Padded(r.time.hour, 2) + ":" + Padded(r.time.minute, 2) + ":" + Padded(r.time.second, 2)
                + "." + Padded(r.time.millis, 3);
    out := WriteCell("", date, cells);
    cells := cells + [date];
    out := WriteCell(out, time, cells);
    cells := cells + [time];
    out := WriteCell(out, SeverityToString(r.severity), cells);
    cells := cells + [SeverityToString(r.severity)];
    out := WriteCell(out, Decimal(r.tid), cells);
    cells := cells + [Decimal(r.tid)];
    out := WriteCell(out, r.caller, cells);
    cells := cells + [r.caller];
    out := WriteCell(out, r.func + "@" + Decimal(r.line), cells);
    cells := cells + [r.func + "@" + Decimal(r.line)];
    assert cells == Cells(r)[..6];

    var message := r.message;
    if |message| > MAX_MESSAGE_SIZE {
      message := message[..MAX_MESSAGE_SIZE];
      message := message + "...";
    }
    var quoted := WriteMessage(message);
    out := out + quoted;
    out := out + "\n";
  }
}
