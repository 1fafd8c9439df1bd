/** Records read back from the rows they were formatted to, field by field. */
module CsvRecords {
  import opened Text
  import opened Csv
  import opened CsvDecode

  // ---- A reader of cells ----

  /** What comes before the first c, and what comes after it. */
  function Upto(s: string, c: char): string { s[..IndexOf(s, c)] }

  function Past(s: string, c: char): string {
    if IndexOf(s, c) < |s| then s[IndexOf(s, c) + 1..] else ""
  }

  function ReadNumber(s: string): Option<nat> { if s != "" && AllDigits(s) then Some(Number(s)) else None }

  /** YYYY/MM/DD */
  function ReadDate(s: string): Option<(nat, nat, nat)> {
    var rest := Past(s, '/');
    var year, month, day := ReadNumber(Upto(s, '/')), ReadNumber(Upto(rest, '/')), ReadNumber(Past(rest, '/'));
    if year.Some? && month.Some? && day.Some? then Some((year.value, month.value, day.value)) else None
  }

  /** HH:MM:SS.mmm */
  function ReadTime(s: string): Option<(nat, nat, nat, nat)> {
    var minutes := Past(s, ':');
    var seconds := Past(minutes, ':');
    var hour, minute := ReadNumber(Upto(s, ':')), ReadNumber(Upto(minutes, ':'));
    var second, millis := ReadNumber(Upto(seconds, '.')), ReadNumber(Past(seconds, '.'));
    if hour.Some? && minute.Some? && second.Some? && millis.Some?
    then Some((hour.value, minute.value, second.value, millis.value))
    else None
  }

  function ToUpper(c: char): char { if 'a' <= c <= 'z' then c - 'a' + 'A' else c }

  /** plog's own reading of a severity: by its first letter. */
  function SeverityFromString(s: string): Severity {
    var first := if s == "" then '\0' else ToUpper(s[0]);
    match first
    case 'F' => Fatal
    case 'E' => Error
    case 'W' => Warning
    case 'I' => Info
    case 'D' => Debug
    case 'V' => Verbose
    case _ => NoSeverity
  }

  /** The position of the last c in s; |s| when there is none. */
  function LastIndexOf(s: string, c: char): (i: nat)
    ensures i <= |s|
  {
    if s == "" then 0
    else if s[|s| - 1] == c then |s| - 1
    else
      var i := LastIndexOf(s[..|s| - 1], c);
      if i == |s| - 1 then |s| else i
  }

  /** function@line, where the function may hold an '@' itself. */
  function ReadPlace(s: string): Option<(string, nat)> {
    var i := LastIndexOf(s, '@');
    if i == |s| then None
    else match ReadNumber(s[i + 1..])
      case Some(line) => Some((s[..i], line))
      case None => None
  }

  /** The record a row of cells tells of. */
  function ReadRecord(cells: seq<string>): Option<Record> {
    if |cells| != 7 then None
    else FromFields(ReadDate(cells[0]), ReadTime(cells[1]), SeverityFromString(cells[2]), ReadNumber(cells[3]),
                    cells[4], ReadPlace(cells[5]), cells[6])
  }

  function FromFields(date: Option<(nat, nat, nat)>, time: Option<(nat, nat, nat, nat)>, severity: Severity,
      tid: Option<nat>, caller: string, place: Option<(string, nat)>, message: string): Option<Record> {
    if date.None? || time.None? || tid.None? || place.None? then None
    else
      var stamp := Stamp(date.value.0, date.value.1, date.value.2,
                         time.value.0, time.value.1, time.value.2, time.value.3);
      Some(Record(stamp, severity, tid.value, caller, place.value.0, place.value.1, message))
  }

  // ---- It inverts the formatter ----

  lemma SplitFirst(a: string, c: char, b: string)
    requires c !in a
    ensures Upto(a + [c] + b, c) == a && Past(a + [c] + b, c) == b
  {
    var s := a + [c] + b;
    assert s[..|a|] == a;
    IndexOfIs(s, c, |a|);
  }

  lemma DigitsHold(s: string, c: char)
    requires AllDigits(s) && !IsDigit(c)
    ensures c !in s
  {
  }

  lemma DateReadsBack(t: Stamp)
    ensures ReadDate(Date(t)) == Some((t.year, t.month, t.day))
  {
    var y, m, d := Decimal(t.year), Padded(t.month, 2), Padded(t.day, 2);
    DecimalIsNumeral(t.year);
    PaddedIsNumber(t.month, 2);
    PaddedIsNumber(t.day, 2);
    DigitsHold(y, '/');
    DigitsHold(m, '/');
    assert Date(t) == y + ['/'] + (m + ['/'] + d);
    SplitFirst(y, '/', m + ['/'] + d);
    SplitFirst(m, '/', d);
  }

  lemma TimeReadsBack(t: Stamp)
    ensures ReadTime(TimeOfDay(t)) == Some((t.hour, t.minute, t.second, t.millis))
  {
    PaddedIsNumber(t.hour, 2);
    PaddedIsNumber(t.minute, 2);
    PaddedIsNumber(t.second, 2);
    PaddedIsNumber(t.millis, 3);
    var h, m, s, ms := Padded(t.hour, 2), Padded(t.minute, 2), Padded(t.second, 2), Padded(t.millis, 3);
    DigitsHold(h, ':');
    DigitsHold(m, ':');
    DigitsHold(s, '.');
    TimeRegrouped(h, m, s, ms);
    SplitFirst(h, ':', m + [':'] + (s + ['.'] + ms));
    SplitFirst(m, ':', s + ['.'] + ms);
    SplitFirst(s, '.', ms);
    TimeParts(TimeOfDay(t), h, m, s, ms);
  }

  lemma TimeParts(time: string, h: string, m: string, s: string, ms: string)
    requires AllDigits(h) && AllDigits(m) && AllDigits(s) && AllDigits(ms)
    requires h != "" && m != "" && s != "" && ms != ""
    requires Upto(time, ':') == h && Upto(Past(time, ':'), ':') == m
    requires Upto(Past(Past(time, ':'), ':'), '.') == s && Past(Past(Past(time, ':'), ':'), '.') == ms
    ensures ReadTime(time) == Some((Number(h), Number(m), Number(s), Number(ms)))
  {
  }

  lemma TimeRegrouped(h: string, m: string, s: string, ms: string)
    ensures h + ":" + m + ":" + s + "." + ms == h + [':'] + (m + [':'] + (s + ['.'] + ms))
  {
  }

  lemma SeverityReadsBack(s: Severity)
    ensures SeverityFromString(SeverityToString(s)) == s
  {
  }

  lemma {:induction false} SplitLast(a: string, c: char, b: string)
    requires c !in b
    ensures LastIndexOf(a + [c] + b, c) == |a|
  {
    var s := a + [c] + b;
    if b == "" {
      assert s[|s| - 1] == c;
    } else {
      assert s[|s| - 1] == b[|b| - 1];
      assert s[..|s| - 1] == a + [c] + b[..|b| - 1];
      SplitLast(a, c, b[..|b| - 1]);
    }
  }

  lemma PlaceReadsBack(func: string, line: nat)
    ensures ReadPlace(func + "@" + Decimal(line)) == Some((func, line))
  {
    var s, digits := func + "@" + Decimal(line), Decimal(line);
    DecimalIsNumeral(line);
    DigitsHold(digits, '@');
    assert s == func + ['@'] + digits;
    SplitLast(func, '@', digits);
    assert s[..|func|] == func && s[|func| + 1..] == digits;
  }

  /** What is kept of a record: everything but the end of a message over 32000 characters. */
  function AsLogged(r: Record): Record {
    r.(message := if |r.message| > 32000 then r.message[..32000] + "..." else r.message)
  }

  lemma ReadsSeven(date: string, time: string, severity: string, tid: string, caller: string, place: string,
      message: string)
    ensures ReadRecord([date, time, severity, tid, caller, place, message])
         == FromFields(ReadDate(date), ReadTime(time), SeverityFromString(severity), ReadNumber(tid),
                       caller, ReadPlace(place), message)
  {
  }

  /** Every record comes back from its cells: date, time, severity, thread, object, function, line and
      message, each from the column that the header names. */
  lemma RecordReadsBack(r: Record)
    ensures ReadRecord(Cells(r)) == Some(AsLogged(r))
  {
    DateReadsBack(r.time);
    TimeReadsBack(r.time);
    SeverityReadsBack(r.severity);
    DecimalIsNumeral(r.tid);
    PlaceReadsBack(r.func, r.line);
    ReadsSeven(Date(r.time), TimeOfDay(r.time), SeverityToString(r.severity), Decimal(r.tid), r.caller,
               r.func + "@" + Decimal(r.line), AsLogged(r).message);
  }

  /** Columns of fixed width: YYYY/MM/DD and HH:MM:SS.mmm. */
  lemma StampShape(t: Stamp)
    requires 1000 <= t.year < 10000 && t.month < 100 && t.day < 100
    requires t.hour < 100 && t.minute < 100 && t.second < 100 && t.millis < 1000
    ensures |Date(t)| == 10 && Date(t)[4] == Date(t)[7] == '/'
    ensures |TimeOfDay(t)| == 12 && TimeOfDay(t)[2] == TimeOfDay(t)[5] == ':' && TimeOfDay(t)[8] == '.'
  {
    DigitCount(t.year);
    DigitCount(t.month);
    DigitCount(t.day);
    DigitCount(t.hour);
    DigitCount(t.minute);
    DigitCount(t.second);
    DigitCount(t.millis);
  }

  lemma DigitCount(n: nat)
    requires n < 10000
    ensures |Decimal(n)| == if n < 10 then 1 else if n < 100 then 2 else if n < 1000 then 3 else 4
  {
    assert n >= 1000 ==> Decimal(n) == Decimal(n / 10) + [Digit(n % 10)];
    assert n >= 1000 ==> Decimal(n / 10) == Decimal(n / 10 / 10) + [Digit(n / 10 % 10)];
    assert n >= 100 ==> 10 <= n / 10;
  }

  /** These rows of cells give back these records. */
  ghost predicate Tell(rows: seq<seq<string>>, rs: seq<Record>) {
    |rows| == |rs| && forall i :: 0 <= i < |rs| ==> ReadRecord(rows[i]) == Some(AsLogged(rs[i]))
  }

  lemma CellRowsTell(rs: seq<Record>)
    ensures Tell(CellRows(rs), rs)
  {
    forall i | 0 <= i < |rs| ensures ReadRecord(CellRows(rs)[i]) == Some(AsLogged(rs[i])) { RecordReadsBack(rs[i]); }
  }

  lemma AfterHeader(header: seq<string>, rows: seq<seq<string>>)
    ensures ([header] + rows)[0] == header && ([header] + rows)[1..] == rows
  {
  }

  lemma HeaderCellsAre()
    ensures HEADER_CELLS == ["Date", "Time", "Severity", "TID", "This", "Function", "Message"]
  {
  }

  /** A file of formatted records gives the records back. */
  lemma RecordRoundTrip(rs: seq<Record>)
    requires forall i, c | 0 <= i < |rs| && (c in rs[i].func || c in rs[i].caller) ::
               c != ';' && c != '"' && c != '\n'
    ensures var rows := DecodeFile(FILE_HEADER + Flatten(RowTexts(rs)));
      && rows.Some? && |rows.value| > 0
      && rows.value[0] == ["Date", "Time", "Severity", "TID", "This", "Function", "Message"]
      && Tell(rows.value[1..], rs)
  {
    forall i | 0 <= i < |rs| ensures PlainRecord(rs[i]) {
      PlainIff(rs[i].func);
      PlainIff(rs[i].caller);
    }
    FileRoundTrip(rs);
    AfterHeader(HEADER_CELLS, CellRows(rs));
    HeaderCellsAre();
    CellRowsTell(rs);
  }

  /** The header is the byte order mark and the line of column names. */
  lemma HeaderIs()
    ensures FILE_HEADER == [0xEF as char, 0xBB as char, 0xBF as char] + "Date;Time;Severity;TID;This;Function;Message\n"
  {
  }
}
