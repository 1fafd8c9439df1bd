/** A rolling log of CSV rows: every file of the family can be read on its own. */
module CsvFamily {
  import opened Text
  import opened FileNames
  import opened Files
  import opened RollingLog
  import opened RollingRuns
  import opened Csv
  import opened CsvDecode
  import opened CsvRecords

  /** How many lines the groups before j hold. */
  function Before(groups: seq<seq<string>>, j: nat): nat
    requires j <= |groups|
  {
    |Flatten(groups[..j])|
  }

  /** Group j is a run of consecutive lines: those from Before(j) to Before(j + 1). */
  lemma GroupIsSlice(groups: seq<seq<string>>, j: nat)
    requires j < |groups|
    ensures Before(groups, j) <= Before(groups, j + 1) <= |Flatten(groups)|
    ensures groups[j] == Flatten(groups)[Before(groups, j)..Before(groups, j + 1)]
    ensures Before(groups, 0) == 0 && Before(groups, |groups|) == |Flatten(groups)|
  {
    var a, rest := Flatten(groups[..j]), Flatten(groups[j + 1..]);
    assert groups[..j + 1] == groups[..j] + [groups[j]];
    FlattenSnoc(groups[..j], groups[j]);
    assert groups == groups[..j + 1] + groups[j + 1..];
    FlattenAppend(groups[..j + 1], groups[j + 1..]);
    assert Flatten(groups) == a + groups[j] + rest;
    assert groups[..|groups|] == groups;
    assert groups[..0] == [];
  }

  /** The data rows of one decoded file; no rows for a missing file; None for one that is not a
      header row followed by complete rows. */
  function DataRows(c: Config, files: Directory, i: nat): Option<seq<seq<string>>> {
    if Slot(c.family, i) !in files then Some([])
    else match DecodeFile(files[Slot(c.family, i)])
      case Some(rows) => if rows != [] && rows[0] == HEADER_CELLS then Some(rows[1..]) else None
      case None => None
  }

  /** The data rows of files n - 1, ..., 1, 0, each file decoded by itself. */
  function FamilyRows(c: Config, files: Directory, n: nat): Option<seq<seq<string>>> {
    if n == 0 then Some([])
    else match (DataRows(c, files, n - 1), FamilyRows(c, files, n - 1))
      case (Some(older), Some(newer)) => Some(older + newer)
      case _ => None
  }

  /** The rows that group j stands for. */
  function GroupCells(groups: seq<seq<string>>, cells: seq<seq<string>>, j: nat): seq<seq<string>>
    requires j < |groups| && Before(groups, j) <= Before(groups, j + 1) <= |cells|
  {
    cells[Before(groups, j)..Before(groups, j + 1)]
  }

  /** A header file of one group reads as the header row and that group's rows. */
  lemma {:induction false} GroupDecodes(groups: seq<seq<string>>, cells: seq<seq<string>>, j: nat)
    requires j < |groups| && AllReadAs(Flatten(groups), cells)
    ensures Before(groups, j) <= Before(groups, j + 1) <= |cells|
    ensures DecodeFile(FILE_HEADER + Flatten(groups[j]))
         == Some([HEADER_CELLS] + GroupCells(groups, cells, j))
  {
    GroupIsSlice(groups, j);
    HeaderReadsAs();
    SliceReadsAs(Flatten(groups), cells, Before(groups, j), Before(groups, j + 1));
    FileOfRows(HEADER, HEADER_CELLS, groups[j], GroupCells(groups, cells, j));
  }

  lemma SliceReadsAs(texts: seq<string>, cells: seq<seq<string>>, a: nat, b: nat)
    requires AllReadAs(texts, cells) && a <= b <= |texts|
    ensures AllReadAs(texts[a..b], cells[a..b])
  {
  }

  lemma DataRowsOf(c: Config, files: Directory, i: nat, rows: seq<seq<string>>)
    requires Slot(c.family, i) in files && DecodeFile(files[Slot(c.family, i)]) == Some([HEADER_CELLS] + rows)
    ensures DataRows(c, files, i) == Some(rows)
  {
    var all := [HEADER_CELLS] + rows;
    assert all[0] == HEADER_CELLS && all[1..] == rows;
  }

  lemma {:induction false} SlotDecodes(c: Config, files: Directory,
      groups: seq<seq<string>>, cells: seq<seq<string>>, i: nat, j: nat)
    requires c.header == FILE_HEADER && HoldsGroup(c, files, groups, i) && AllReadAs(Flatten(groups), cells)
    requires i + j + 1 == |groups|
    ensures Before(groups, j) <= Before(groups, j + 1) <= |cells|
    ensures DataRows(c, files, i) == Some(GroupCells(groups, cells, j))
  {
    GroupDecodes(groups, cells, j);
    DataRowsOf(c, files, i, GroupCells(groups, cells, j));
  }

  lemma {:induction false} FamilyDecodes(c: Config, files: Directory,
      groups: seq<seq<string>>, cells: seq<seq<string>>, n: nat)
    requires c.header == FILE_HEADER && n <= Slots(c.maxFiles)
    requires HoldsGroups(c, files, groups) && AllReadAs(Flatten(groups), cells)
    ensures var first := if |groups| > n then |groups| - n else 0;
      Before(groups, first) <= |cells| && FamilyRows(c, files, n) == Some(cells[Before(groups, first)..])
  {
    if n == 0 {
      assert groups[..|groups|] == groups;
      assert cells[|cells|..] == [];
    } else {
      FamilyDecodes(c, files, groups, cells, n - 1);
      assert HoldsGroup(c, files, groups, n - 1);
      if n <= |groups| {
        SlotDecodes(c, files, groups, cells, n - 1, |groups| - n);
        var a, b := Before(groups, |groups| - n), Before(groups, |groups| - n + 1);
        assert cells[a..b] + cells[b..] == cells[a..];
      } else {
        assert [] + cells[0..] == cells[0..];
      }
    }
  }

  /** Every file of a CSV log decodes by itself, in every reachable state; together, oldest first,
      they give the cells of the last records logged, without a gap, whatever the messages hold. */
  lemma {:induction false} EveryFileDecodes(c: Config, trace: seq<Log>, events: seq<Event>, rs: seq<Record>)
    requires c.header == FILE_HEADER && IsRun(c, trace, events) && NoFamily(c, trace[0].files)
    requires Lines(events) == RowTexts(rs) && AllPlain(rs)
    ensures var dropped := Dropped(c, Cuts(c, c.header, trace[0].limit, events).groups);
      && dropped <= |rs|
      && FamilyRows(c, trace[|events|].files, Slots(c.maxFiles)) == Some(CellRows(rs)[dropped..])
  {
    RowsReadAs(rs);
    RowsOfRun(c, trace, events, CellRows(rs));
  }

  /** Read back, the rows of all files together are the last records logged. */
  lemma {:induction false} LastRecordsComeBack(c: Config, trace: seq<Log>, events: seq<Event>, rs: seq<Record>)
    requires c.header == FILE_HEADER && IsRun(c, trace, events) && NoFamily(c, trace[0].files)
    requires Lines(events) == RowTexts(rs) && AllPlain(rs)
    ensures var dropped := Dropped(c, Cuts(c, c.header, trace[0].limit, events).groups);
      var rows := FamilyRows(c, trace[|events|].files, Slots(c.maxFiles));
      && dropped <= |rs| && rows == Some(CellRows(rs)[dropped..]) && Tell(rows.value, rs[dropped..])
  {
    EveryFileDecodes(c, trace, events, rs);
    CellRowsTell(rs);
    TellLast(CellRows(rs), rs, Dropped(c, Cuts(c, c.header, trace[0].limit, events).groups));
  }

  lemma TellLast(rows: seq<seq<string>>, rs: seq<Record>, k: nat)
    requires Tell(rows, rs) && k <= |rs|
    ensures Tell(rows[k..], rs[k..])
  {
  }

  /** The groups that a session cuts the rows of these records into. */
  function GroupsOf(c: Config, limit: nat, rs: seq<Record>): seq<seq<string>> {
    Cuts(c, c.header, limit, Writes(RowTexts(rs))).groups
  }

  /** The files hold the rows of the last records, without a gap; and each of them can be read, if
      function names and objects are plain. */
  ghost predicate KeepsLast(c: Config, files: Directory, limit: nat, rs: seq<Record>) {
    var dropped := Dropped(c, GroupsOf(c, limit, rs));
    && dropped <= |rs|
    && FamilyText(c, files, Slots(c.maxFiles)) == Flatten(RowTexts(rs)[dropped..])
    && (AllPlain(rs) ==>
          var rows := FamilyRows(c, files, Slots(c.maxFiles));
          && rows == Some(CellRows(rs)[dropped..])
          && Tell(rows.value, rs[dropped..]))
  }

  /** Writing these lines leads a new appender from one state to another. */
  ghost predicate Leads(c: Config, first: Log, lines: seq<string>, last: Log) {
    exists trace :: IsRun(c, trace, Writes(lines)) && trace[0] == first && trace[|lines|] == last
  }

  lemma LeadsSnoc(c: Config, first: Log, lines: seq<string>, s: Log, line: string, s': Log)
    requires Leads(c, first, lines, s) && c.Valid(s) && c.IsStep(s, Write(line), s')
    ensures Leads(c, first, lines + [line], s')
  {
    var trace :| IsRun(c, trace, Writes(lines)) && trace[0] == first && trace[|lines|] == s;
    RunSnoc(c, trace, Writes(lines), Write(line), s');
    assert Writes(lines + [line]) == Writes(lines) + [Write(line)];
    assert (trace + [s'])[|lines + [line]|] == s';
  }

  method WriteLines(app: RollingFileAppender, lines: seq<string>)
    requires app.Valid() && app.firstWrite
    modifies app`fileSize, app`firstWrite, app.fs, app.file
    ensures app.Valid() && Leads(app.Settings(), old(app.State()), lines, app.State())
  {
    ghost var first := app.State();
    LeadsNowhere(app.Settings(), first);
    assert lines[..0] == [];
    for k := 0 to |lines|
      invariant app.Valid() && Leads(app.Settings(), first, lines[..k], app.State())
    {
      ghost var s := app.State();
      app.Write(lines[k]);
      LeadsSnoc(app.Settings(), first, lines[..k], s, lines[k], app.State());
      assert lines[..k] + [lines[k]] == lines[..k + 1];
    }
    assert lines[..|lines|] == lines;
  }

  /** Formatting a record has no effect on the log, so all of them can be formatted first. */
  method FormatAll(rs: seq<Record>) returns (lines: seq<string>)
    ensures lines == RowTexts(rs)
  {
    lines := [];
    for k := 0 to |rs|
      invariant |lines| == k && forall i :: 0 <= i < k ==> lines[i] == Row(rs[i])
    {
      var line := Format(rs[k]);
      lines := lines + [line];
    }
  }

  lemma LeadsNowhere(c: Config, s: Log)
    requires s.firstWrite
    ensures Leads(c, s, [], s)
  {
    assert IsRun(c, [s], Writes([]));
  }

  lemma RunKeepsLast(c: Config, first: Log, last: Log, rs: seq<Record>)
    requires c.header == FILE_HEADER && NoFamily(c, first.files) && Leads(c, first, RowTexts(rs), last)
    ensures KeepsLast(c, last.files, first.limit, rs)
  {
    var trace :| IsRun(c, trace, Writes(RowTexts(rs))) && trace[0] == first && trace[|RowTexts(rs)|] == last;
    LinesOfWrites(RowTexts(rs));
    Retention(c, trace, Writes(RowTexts(rs)));
    if AllPlain(rs) {
      LastRecordsComeBack(c, trace, Writes(RowTexts(rs)), rs);
    }
  }

  /** A program that starts without a family and logs records leaves a family that holds the last of them. */
  method LogRecords(app: RollingFileAppender, rs: seq<Record>)
    requires app.Valid() && app.firstWrite && app.header == FILE_HEADER
    modifies app`fileSize, app`firstWrite, app.fs, app.file
    ensures app.Valid()
    ensures NoFamily(app.Settings(), old(app.fs.files)) ==>
      KeepsLast(app.Settings(), app.fs.files, old(app.maxFileSize), rs)
  {
    var lines := FormatAll(rs);
    WriteLines(app, lines);
    if NoFamily(app.Settings(), old(app.fs.files)) {
      RunKeepsLast(app.Settings(), old(app.State()), app.State(), rs);
    }
  }

  lemma RowsOfRun(c: Config, trace: seq<Log>, events: seq<Event>, cells: seq<seq<string>>)
    requires c.header == FILE_HEADER && IsRun(c, trace, events) && NoFamily(c, trace[0].files)
    requires AllReadAs(Lines(events), cells)
    ensures var dropped := Dropped(c, Cuts(c, c.header, trace[0].limit, events).groups);
      && dropped <= |cells|
      && FamilyRows(c, trace[|events|].files, Slots(c.maxFiles)) == Some(cells[dropped..])
  {
    var groups, files := Cuts(c, c.header, trace[0].limit, events).groups, trace[|events|].files;
    assert c.Opened(trace[0].files) == c.header;
    RunMatchesCuts(c, trace, events);
    CutsKeepEveryLine(c, c.header, trace[0].limit, events);
    if Lines(events) == [] {
      NoFilesNoRows(c, files, Slots(c.maxFiles));
      assert |groups| == 1;
    } else {
      ShapedHoldsGroups(c, trace[0].files, files, groups);
      FamilyDecodes(c, files, groups, cells, Slots(c.maxFiles));
      assert groups[..0] == [];
    }
  }

  lemma {:induction false} NoFilesNoRows(c: Config, files: Directory, n: nat)
    requires NoFamily(c, files) && n <= Slots(c.maxFiles)
    ensures FamilyRows(c, files, n) == Some([])
  {
    if n > 0 {
      NoFilesNoRows(c, files, n - 1);
      assert Slot(c.family, n - 1) !in files;
      var none: seq<seq<string>> := [];
      assert none + none == none;
    }
  }

  /** The CSV header stays below the smallest limit, so no header alone makes a file roll, and the
      ceiling on CSV files is the limit itself. */
  lemma HeaderBelowLimit(c: Config, limit: nat)
    requires c.header == FILE_HEADER && limit >= MIN_FILE_SIZE
    ensures |c.header| == 48 && Ceiling(c, limit) == limit
  {
    assert |HEADER| == 45;
  }
}
