/** Whole runs of the rolling appender, against a reference that only looks at sizes. */
module RollingRuns {
  import opened Text
  import opened FileNames
  import opened Files
  import opened RollingLog

  /** How a list of events cuts the written lines into files, oldest file first. */
  datatype Cut = Cut(groups: seq<seq<string>>, reopened: bool, limit: nat)

  /** The bytes of group j: the oldest group continues the file found at the start. */
  function Content(c: Config, start: string, groups: seq<seq<string>>, j: nat): string
    requires j < |groups|
  {
    (if j == 0 then start else c.header) + Flatten(groups[j])
  }

  /** Adds a line to the newest group. */
  function Extend(groups: seq<seq<string>>, line: string): (r: seq<seq<string>>)
    requires groups != []
  {
    groups[|groups| - 1 := groups[|groups| - 1] + [line]]
  }

  /** The reference: a line starts a new group exactly when files are limited, the log was not just
      opened, and the newest group has outgrown the limit. */
  function AfterWrite(c: Config, start: string, p: Cut, line: string): (q: Cut)
    requires p.groups != []
    ensures q.groups != []
  {
    if !p.reopened && c.maxFiles > 0 && |Content(c, start, p.groups, |p.groups| - 1)| > p.limit
    then Cut(p.groups + [[line]], false, p.limit)
    else Cut(Extend(p.groups, line), false, p.limit)
  }

  /** The cuts that a whole list of events makes. */
  function Cuts(c: Config, start: string, limit: nat, events: seq<Event>): (r: Cut)
    ensures r.groups != []
  {
    if events == [] then Cut([[]], true, limit)
    else
      var p := Cuts(c, start, limit, events[..|events| - 1]);
      match events[|events| - 1]
      case Write(line) => AfterWrite(c, start, p, line)
      case SetFileName => p.(reopened := true)
      case SetMaxFileSize(bytes) => p.(limit := if bytes > MIN_FILE_SIZE then bytes else MIN_FILE_SIZE)
  }

  /** The lines written, in order. */
  function Lines(events: seq<Event>): seq<string> {
    if events == [] then []
    else
      var p := Lines(events[..|events| - 1]);
      match events[|events| - 1]
      case Write(line) => p + [line]
      case _ => p
  }

  /** Nothing but writes of these lines. */
  function Writes(lines: seq<string>): seq<Event> { seq(|lines|, i requires 0 <= i < |lines| => Write(lines[i])) }

  lemma {:induction false} LinesOfWrites(lines: seq<string>)
    ensures Lines(Writes(lines)) == lines
  {
    if lines != [] {
      var k := |lines| - 1;
      LinesOfWrites(lines[..k]);
      assert Writes(lines)[..k] == Writes(lines[..k]);
    }
  }

  /** A run of a newly built appender: one state before the events and one after each. */
  ghost predicate IsRun(c: Config, trace: seq<Log>, events: seq<Event>) {
    && |trace| == |events| + 1
    && trace[0].firstWrite
    && forall i :: 0 <= i < |events| ==> c.Valid(trace[i]) && c.IsStep(trace[i], events[i], trace[i + 1])
  }

  lemma RunSnoc(c: Config, trace: seq<Log>, events: seq<Event>, e: Event, s: Log)
    requires IsRun(c, trace, events) && c.Valid(trace[|events|]) && c.IsStep(trace[|events|], e, s)
    ensures IsRun(c, trace + [s], events + [e])
  {
  }

  /** Every list of events, put to a new appender one by one, makes a run. */
  method Drive(app: RollingFileAppender, fileName: string, events: seq<Event>) returns (ghost trace: seq<Log>)
    requires app.Valid() && app.firstWrite && IsSplit(fileName, app.family)
    modifies app, app.fs, app.file
    ensures app.Valid() && app.Settings() == old(app.Settings())
    ensures IsRun(app.Settings(), trace, events) && trace[0] == old(app.State()) && trace[|events|] == app.State()
  {
    trace := [app.State()];
    ghost var c := app.Settings();
    for k := 0 to |events|
      invariant app.Valid() && app.Settings() == c
      invariant IsRun(c, trace, events[..k]) && trace[0] == old(app.State()) && trace[k] == app.State()
    {
      match events[k] {
        case Write(line) => app.Write(line);
        case SetFileName =>
          SplitUniqueFor(fileName, c.family);
          app.SetFileName(fileName);
        case SetMaxFileSize(bytes) => app.SetMaxFileSize(bytes);
      }
      RunSnoc(c, trace, events[..k], events[k], app.State());
      assert events[..k] + [events[k]] == events[..k + 1];
      trace := trace + [app.State()];
    }
    assert events[..|events|] == events;
  }

  lemma SplitUniqueFor(fileName: string, f: Family)
    requires IsSplit(fileName, f)
    ensures forall g :: IsSplit(fileName, g) ==> g == f
  {
    forall g | IsSplit(fileName, g) ensures g == f { SplitUnique(fileName, g, f); }
  }

  lemma StepKeepsValid(c: Config, s: Log, e: Event, s': Log)
    requires c.Valid(s) && c.IsStep(s, e, s')
    ensures c.Valid(s')
  {
  }

  /** The directory a run leaves when it cuts its lines into groups: group by group from slot 0 up,
      then whatever the family held before, moved up, and nothing else touched. */
  ghost predicate Shaped(c: Config, before: Directory, files: Directory, groups: seq<seq<string>>) {
    var newest := |groups| - 1;
    && (forall i: nat :: i < Slots(c.maxFiles) && i <= newest ==>
          Slot(c.family, i) in files && files[Slot(c.family, i)] == Content(c, c.Opened(before), groups, newest - i))
    && (forall i: nat :: newest < i < Slots(c.maxFiles) ==>
          SameAt(before, Slot(c.family, i - newest), files, Slot(c.family, i)))
    && (forall name :: !IsSlot(c.family, Slots(c.maxFiles), name) ==> SameAt(before, name, files, name))
  }

  lemma ContentExtend(c: Config, start: string, groups: seq<seq<string>>, line: string, j: nat)
    requires j < |groups|
    ensures Content(c, start, Extend(groups, line), j)
         == Content(c, start, groups, j) + (if j == |groups| - 1 then line else "")
  {
    FlattenSnoc(groups[j], line);
  }

  lemma LiveIsSlot(c: Config)
    ensures IsSlot(c.family, Slots(c.maxFiles), c.Live())
  {
    assert 0 < Slots(c.maxFiles) && c.Live() == Slot(c.family, 0);
  }

  lemma LiveIsSlotZero(c: Config, i: nat)
    ensures Slot(c.family, i) == c.Live() <==> i == 0
  {
    SlotsDistinct(c.family);
  }

  lemma FirstWriteShapes(c: Config, before: Directory, s: Log, line: string, s': Log)
    requires c.Valid(s) && c.IsWrite(s, line, s') && s.files == before && s.firstWrite
    ensures Shaped(c, before, s'.files, Extend([[]], line))
  {
    SlotsDistinct(c.family);
    ContentExtend(c, c.Opened(before), [[]], line, 0);
    LiveIsSlot(c);
  }

  lemma AppendKeepsShape(c: Config, before: Directory, s: Log, line: string, s': Log, groups: seq<seq<string>>)
    requires c.Valid(s) && c.IsWrite(s, line, s') && !c.Rolls(s)
    requires groups != [] && Shaped(c, before, s.files, groups)
    ensures Shaped(c, before, s'.files, Extend(groups, line))
  {
    LiveIsSlot(c);
    var n, newest := Slots(c.maxFiles), |groups| - 1;
    assert s.files[Slot(c.family, 0)] == Content(c, c.Opened(before), groups, newest - 0);
    assert s'.files == s.files[c.Live() := s.files[c.Live()] + line];
    forall i: nat | i < n && i <= newest
      ensures Slot(c.family, i) in s'.files
           && s'.files[Slot(c.family, i)] == Content(c, c.Opened(before), Extend(groups, line), newest - i) {
      ContentExtend(c, c.Opened(before), groups, line, newest - i);
      LiveIsSlotZero(c, i);
    }
    forall i: nat | newest < i < n
      ensures SameAt(before, Slot(c.family, i - newest), s'.files, Slot(c.family, i)) {
      assert SameAt(before, Slot(c.family, i - newest), s.files, Slot(c.family, i));
      LiveIsSlotZero(c, i);
    }
    forall name | !IsSlot(c.family, n, name) ensures SameAt(before, name, s'.files, name) {
      assert SameAt(before, name, s.files, name);
    }
  }

  lemma RollKeepsShape(c: Config, before: Directory, s: Log, line: string, s': Log, groups: seq<seq<string>>)
    requires c.Valid(s) && c.IsWrite(s, line, s') && c.Rolls(s)
    requires groups != [] && Shaped(c, before, s.files, groups)
    ensures Shaped(c, before, s'.files, groups + [[line]])
  {
    SlotsDistinct(c.family);
    FlattenOne(line);
    LiveIsSlot(c);
    var n, after, newest := Slots(c.maxFiles), groups + [[line]], |groups|;
    var shifted := s'.files - {c.Live()};
    forall i: nat | i < n && i <= newest
      ensures Slot(c.family, i) in s'.files
           && s'.files[Slot(c.family, i)] == Content(c, c.Opened(before), after, newest - i) {
      if i > 0 {
        assert SameAt(s.files, Slot(c.family, i - 1), shifted, Slot(c.family, i - 1 + 1));
      }
    }
    forall i: nat | newest < i < n
      ensures SameAt(before, Slot(c.family, i - newest), s'.files, Slot(c.family, i)) {
      assert SameAt(s.files, Slot(c.family, i - 1), shifted, Slot(c.family, i - 1 + 1));
    }
    forall name | !IsSlot(c.family, n, name) ensures SameAt(before, name, s'.files, name) {
      assert SameAt(s.files, name, shifted, name);
    }
  }

  /** The whole-run theorem. From any directory at all, gaps and earlier sessions included, and for
      every mix of writes, restarts and limit changes, the directory is the one the reference cuts. */
  lemma {:induction false} RunMatchesCuts(c: Config, trace: seq<Log>, events: seq<Event>)
    requires IsRun(c, trace, events)
    ensures var before, s := trace[0].files, trace[|events|];
      var cut := Cuts(c, c.Opened(before), trace[0].limit, events);
      && c.Valid(s) && cut.reopened == s.firstWrite && cut.limit == s.limit
      && if Lines(events) == [] then s.files == before && cut.groups == [[]] && cut.reopened
         else Shaped(c, before, s.files, cut.groups)
  {
    if events != [] {
      var k := |events| - 1;
      RunMatchesCuts(c, trace[..k + 1], events[..k]);
      var before, s, s' := trace[0].files, trace[k], trace[k + 1];
      var p := Cuts(c, c.Opened(before), trace[0].limit, events[..k]);
      assert c.Valid(s) && c.IsStep(s, events[k], s');
      match events[k] {
        case Write(line) =>
          if Lines(events[..k]) == [] {
            FirstWriteShapes(c, before, s, line, s');
          } else {
            var newest := |p.groups| - 1;
            assert s.files[Slot(c.family, 0)] == Content(c, c.Opened(before), p.groups, newest - 0);
            if c.Rolls(s) {
              RollKeepsShape(c, before, s, line, s', p.groups);
            } else {
              AppendKeepsShape(c, before, s, line, s', p.groups);
            }
          }
        case _ =>
      }
    }
  }

  // ---- What is kept ----

  lemma {:induction false} CutsKeepEveryLine(c: Config, start: string, limit: nat, events: seq<Event>)
    ensures Flatten(Cuts(c, start, limit, events).groups) == Lines(events)
  {
    if events == [] {
      FlattenOne<string>([]);
    } else {
      var k := |events| - 1;
      CutsKeepEveryLine(c, start, limit, events[..k]);
      var groups := Cuts(c, start, limit, events[..k]).groups;
      if events[k].Write? {
        var older, newest := groups[..|groups| - 1], groups[|groups| - 1];
        assert groups == older + [newest];
        assert Extend(groups, events[k].line) == older + [newest + [events[k].line]];
        FlattenSnoc(older, newest);
        FlattenSnoc(older, newest + [events[k].line]);
        FlattenSnoc(groups, [events[k].line]);
        assert Flatten(older) + (newest + [events[k].line]) == Flatten(older) + newest + [events[k].line];
      }
    }
  }

  /** A file without its header; nothing for a missing file. */
  function Body(c: Config, files: Directory, i: nat): string {
    var name := Slot(c.family, i);
    if name in files && c.header <= files[name] then files[name][|c.header|..] else ""
  }

  /** The bodies of files n - 1, ..., 1, 0, oldest first. */
  function FamilyText(c: Config, files: Directory, n: nat): string {
    if n == 0 then "" else Body(c, files, n - 1) + FamilyText(c, files, n - 1)
  }

  /** The directory holds no file of the family. */
  ghost predicate NoFamily(c: Config, files: Directory) {
    forall i: nat :: i < Slots(c.maxFiles) ==> Slot(c.family, i) !in files
  }

  /** The directory of a run that started without a family: group by group from slot 0 up. */
  ghost predicate HoldsGroups(c: Config, files: Directory, groups: seq<seq<string>>) {
    forall i: nat :: i < Slots(c.maxFiles) ==> HoldsGroup(c, files, groups, i)
  }

  ghost predicate HoldsGroup(c: Config, files: Directory, groups: seq<seq<string>>, i: nat) {
    if i < |groups|
    then Slot(c.family, i) in files && files[Slot(c.family, i)] == c.header + Flatten(groups[|groups| - 1 - i])
    else Slot(c.family, i) !in files
  }

  lemma ShapedHoldsGroups(c: Config, before: Directory, files: Directory, groups: seq<seq<string>>)
    requires NoFamily(c, before) && groups != [] && Shaped(c, before, files, groups)
    ensures HoldsGroups(c, files, groups)
  {
    var newest := |groups| - 1;
    assert c.Opened(before) == c.header;
    forall i: nat | i < Slots(c.maxFiles) ensures HoldsGroup(c, files, groups, i) {
      if i <= newest {
        assert files[Slot(c.family, i)] == Content(c, c.header, groups, newest - i);
      } else {
        assert SameAt(before, Slot(c.family, i - newest), files, Slot(c.family, i));
      }
    }
  }

  /** The newest n groups, or all of them. */
  function Newest(groups: seq<seq<string>>, n: nat): seq<seq<string>> {
    if |groups| > n then groups[|groups| - n..] else groups
  }

  lemma NewestText(groups: seq<seq<string>>, n: nat)
    requires n < |groups|
    ensures Flatten(Flatten(Newest(groups, n + 1)))
         == Flatten(groups[|groups| - 1 - n]) + Flatten(Flatten(Newest(groups, n)))
  {
    var group := groups[|groups| - 1 - n];
    assert Newest(groups, n + 1) == [group] + Newest(groups, n);
    FlattenAppend([group], Newest(groups, n));
    FlattenOne(group);
    FlattenAppend(group, Flatten(Newest(groups, n)));
  }

  lemma BodyOfGroup(c: Config, files: Directory, groups: seq<seq<string>>, i: nat)
    requires HoldsGroup(c, files, groups, i)
    ensures Body(c, files, i) == if i < |groups| then Flatten(groups[|groups| - 1 - i]) else ""
  {
  }

  lemma {:induction false} FamilyTextIsNewestGroups(c: Config, files: Directory, groups: seq<seq<string>>, n: nat)
    requires HoldsGroups(c, files, groups) && n <= Slots(c.maxFiles)
    ensures FamilyText(c, files, n) == Flatten(Flatten(Newest(groups, n)))
  {
    if n == 0 {
      assert Newest(groups, 0) == [];
    } else {
      FamilyTextIsNewestGroups(c, files, groups, n - 1);
      assert HoldsGroup(c, files, groups, n - 1);
      OlderFile(c, files, groups, n - 1);
    }
  }

  lemma OlderFile(c: Config, files: Directory, groups: seq<seq<string>>, i: nat)
    requires HoldsGroup(c, files, groups, i)
    ensures Body(c, files, i) + Flatten(Flatten(Newest(groups, i))) == Flatten(Flatten(Newest(groups, i + 1)))
  {
    BodyOfGroup(c, files, groups, i);
    if i < |groups| {
      NewestText(groups, i);
    } else {
      assert Newest(groups, i + 1) == Newest(groups, i);
    }
  }

  /** How many lines a run has dropped: those of the groups that no longer have a slot. */
  function Dropped(c: Config, groups: seq<seq<string>>): nat {
    if |groups| > Slots(c.maxFiles) then |Flatten(groups[..|groups| - Slots(c.maxFiles)])| else 0
  }

  /** Retention. Starting without a family, the files joined oldest first are, byte for byte, the
      last lines written; what is missing is whole oldest files, and nothing is missing while the
      lines still fit in the number of files allowed. */
  lemma Retention(c: Config, trace: seq<Log>, events: seq<Event>)
    requires IsRun(c, trace, events) && NoFamily(c, trace[0].files)
    ensures var groups := Cuts(c, c.header, trace[0].limit, events).groups;
      && Flatten(groups) == Lines(events)
      && Dropped(c, groups) <= |Lines(events)|
      && FamilyText(c, trace[|events|].files, Slots(c.maxFiles)) == Flatten(Lines(events)[Dropped(c, groups)..])
      && (|groups| <= Slots(c.maxFiles) ==> Dropped(c, groups) == 0)
      && (c.maxFiles >= 1 ==>
            && Dropped(c, groups) == |Flatten(groups[..if |groups| > c.maxFiles then |groups| - c.maxFiles else 0])|
            && forall i: nat :: i < c.maxFiles && i < |groups| && Lines(events) != [] ==>
                 BuildFileName(c.family, i) in trace[|events|].files)
  {
    SlotsMeans(c.maxFiles);
    RunMatchesCuts(c, trace, events);
    CutsKeepEveryLine(c, c.header, trace[0].limit, events);
    assert c.Opened(trace[0].files) == c.header;
    var groups, files, n := Cuts(c, c.header, trace[0].limit, events).groups, trace[|events|].files, Slots(c.maxFiles);
    DroppedRest(c, groups);
    if Lines(events) == [] {
      EmptyFamilyText(c, files, n);
    } else {
      ShapedHoldsGroups(c, trace[0].files, files, groups);
      FamilyTextIsNewestGroups(c, files, groups, n);
      forall i: nat | i < c.maxFiles && i < |groups| ensures BuildFileName(c.family, i) in files {
        assert HoldsGroup(c, files, groups, i) && Slot(c.family, i) == BuildFileName(c.family, i);
      }
    }
  }

  lemma DroppedRest(c: Config, groups: seq<seq<string>>)
    ensures Dropped(c, groups) <= |Flatten(groups)|
    ensures Flatten(groups)[Dropped(c, groups)..] == Flatten(Newest(groups, Slots(c.maxFiles)))
  {
    var n := Slots(c.maxFiles);
    var k := if |groups| > n then |groups| - n else 0;
    assert groups == groups[..k] + groups[k..];
    FlattenAppend(groups[..k], groups[k..]);
    assert groups[..0] == [] && groups[0..] == groups;
  }

  lemma {:induction false} EmptyFamilyText(c: Config, files: Directory, n: nat)
    requires NoFamily(c, files) && n <= Slots(c.maxFiles)
    ensures FamilyText(c, files, n) == ""
  {
    if n > 0 { EmptyFamilyText(c, files, n - 1); }
  }

  // ---- How large the files get ----

  ghost predicate OnlyWrites(events: seq<Event>) { forall i :: 0 <= i < |events| ==> events[i].Write? }

  /** The size a file may have before its last line is added. */
  function Ceiling(c: Config, limit: nat): nat {
    if |c.header| > limit then |c.header| else limit
  }

  /** Without its last line, group j's file is no larger than the ceiling. */
  ghost predicate FitsBut(c: Config, limit: nat, groups: seq<seq<string>>, j: nat)
    requires j < |groups|
  {
    groups[j] != [] && |Content(c, c.header, groups, j)| <= Ceiling(c, limit) + |groups[j][|groups[j]| - 1]|
  }

  /** Every group is within its bounds, and every finished one exceeds the limit. */
  ghost predicate GroupsBounded(c: Config, limit: nat, groups: seq<seq<string>>) {
    && (forall j: nat :: j < |groups| ==> FitsBut(c, limit, groups, j))
    && (forall j: nat :: j < |groups| - 1 ==> |Content(c, c.header, groups, j)| > limit)
  }

  lemma NewGroupBounded(c: Config, limit: nat, groups: seq<seq<string>>, line: string)
    requires groups != [] && GroupsBounded(c, limit, groups) && |Content(c, c.header, groups, |groups| - 1)| > limit
    ensures GroupsBounded(c, limit, groups + [[line]])
  {
    var r := groups + [[line]];
    FlattenOne(line);
    assert forall j: nat :: j < |groups| ==> Content(c, c.header, r, j) == Content(c, c.header, groups, j);
    forall j: nat | j < |r| ensures FitsBut(c, limit, r, j) {
      if j < |groups| { assert FitsBut(c, limit, groups, j); }
    }
  }

  lemma LongerGroupBounded(c: Config, limit: nat, groups: seq<seq<string>>, line: string)
    requires groups != [] && GroupsBounded(c, limit, groups) && |Content(c, c.header, groups, |groups| - 1)| <= limit
    ensures GroupsBounded(c, limit, Extend(groups, line))
  {
    var r := Extend(groups, line);
    ContentExtend(c, c.header, groups, line, |groups| - 1);
    assert forall j: nat :: j < |groups| - 1 ==> Content(c, c.header, r, j) == Content(c, c.header, groups, j);
    forall j: nat | j < |r| ensures FitsBut(c, limit, r, j) {
      if j < |groups| - 1 { assert FitsBut(c, limit, groups, j); }
    }
  }

  lemma {:induction false} CutBounds(c: Config, limit: nat, events: seq<Event>)
    requires OnlyWrites(events) && events != [] && c.maxFiles > 0
    ensures var cut := Cuts(c, c.header, limit, events);
      cut.limit == limit && !cut.reopened && GroupsBounded(c, limit, cut.groups)
  {
    var k := |events| - 1;
    var line := events[k].line;
    if k == 0 {
      assert events[..0] == [];
      ContentExtend(c, c.header, [[]], line, 0);
    } else {
      CutBounds(c, limit, events[..k]);
      var groups := Cuts(c, c.header, limit, events[..k]).groups;
      if |Content(c, c.header, groups, |groups| - 1)| > limit {
        NewGroupBounded(c, limit, groups, line);
      } else {
        LongerGroupBounded(c, limit, groups, line);
      }
    }
  }

  /** The size of slot i; 0 when there is no such file. */
  function SlotSize(c: Config, files: Directory, i: nat): nat {
    if Slot(c.family, i) in files then |files[Slot(c.family, i)]| else 0
  }

  function TotalSize(c: Config, files: Directory, n: nat): nat {
    if n == 0 then 0 else SlotSize(c, files, n - 1) + TotalSize(c, files, n - 1)
  }

  lemma {:induction false} TotalAbove(c: Config, files: Directory, n: nat, limit: nat)
    requires n > 0 && forall i: nat :: 0 < i < n ==> SlotSize(c, files, i) > limit
    ensures TotalSize(c, files, n) >= (n - 1) * (limit + 1)
  {
    if n > 1 {
      TotalAbove(c, files, n - 1, limit);
      assert SlotSize(c, files, n - 1) >= limit + 1;
      assert (n - 2) * (limit + 1) + (limit + 1) == (n - 1) * (limit + 1);
    }
  }

  lemma {:induction false} GroupLineIsWritten(groups: seq<seq<string>>, j: nat, i: nat)
    requires j < |groups| && i < |groups[j]|
    ensures groups[j][i] in Flatten(groups)
  {
    var flat := Flatten(groups);
    if j == 0 {
      assert flat[i] == groups[0][i];
    } else {
      GroupLineIsWritten(groups[1..], j - 1, i);
      var k :| 0 <= k < |Flatten(groups[1..])| && Flatten(groups[1..])[k] == groups[j][i];
      assert flat[|groups[0]| + k] == groups[j][i];
    }
  }

  lemma LastLineShort(groups: seq<seq<string>>, j: nat, longest: nat)
    requires j < |groups| && groups[j] != []
    requires forall line :: line in Flatten(groups) ==> |line| <= longest
    ensures |groups[j][|groups[j]| - 1]| <= longest
  {
    GroupLineIsWritten(groups, j, |groups[j]| - 1);
  }

  lemma SlotBounds(c: Config, limit: nat, files: Directory, groups: seq<seq<string>>, i: nat, j: nat)
    requires i + j + 1 == |groups| && HoldsGroup(c, files, groups, i) && FitsBut(c, limit, groups, j)
    ensures SlotSize(c, files, i) == |Content(c, c.header, groups, j)|
    ensures SlotSize(c, files, i) <= Ceiling(c, limit) + |groups[j][|groups[j]| - 1]|
  {
    assert files[Slot(c.family, i)] == Content(c, c.header, groups, j);
  }

  /** The bounds of one session, as a property of the directory it leaves. */
  ghost predicate WithinBounds(c: Config, files: Directory, limit: nat, longest: nat, filesUsed: nat)
    requires c.maxFiles > 0
  {
    && (forall i: nat :: i < c.maxFiles ==> SlotSize(c, files, i) <= Ceiling(c, limit) + longest)
    && (forall i: nat :: 0 < i < c.maxFiles && Slot(c.family, i) in files ==> SlotSize(c, files, i) > limit)
    && (filesUsed >= c.maxFiles ==> TotalSize(c, files, c.maxFiles) >= (c.maxFiles - 1) * (limit + 1))
  }

  lemma {:induction false} BoundsFromGroups(c: Config, limit: nat, files: Directory,
      groups: seq<seq<string>>, longest: nat)
    requires HoldsGroups(c, files, groups) && GroupsBounded(c, limit, groups) && c.maxFiles > 0
    requires forall line :: line in Flatten(groups) ==> |line| <= longest
    ensures WithinBounds(c, files, limit, longest, |groups|)
  {
    SlotsMeans(c.maxFiles);
    forall i: nat | i < Slots(c.maxFiles)
      ensures SlotSize(c, files, i) <= Ceiling(c, limit) + longest
      ensures 0 < i && Slot(c.family, i) in files ==> SlotSize(c, files, i) > limit
      ensures 0 < i < |groups| ==> SlotSize(c, files, i) > limit {
      assert HoldsGroup(c, files, groups, i);
      if i < |groups| {
        var j := |groups| - 1 - i;
        assert FitsBut(c, limit, groups, j);
        SlotBounds(c, limit, files, groups, i, j);
        LastLineShort(groups, j, longest);
      }
    }
    if |groups| >= Slots(c.maxFiles) {
      TotalAbove(c, files, Slots(c.maxFiles), limit);
    }
  }

  /** Sizes. In one uninterrupted session that starts without a family, no file exceeds the limit by
      more than its last line, every rolled file exceeds the limit, and once all slots are in use
      more than (maxFiles - 1) * limit bytes are retained. */
  lemma SizesOfOneSession(c: Config, trace: seq<Log>, events: seq<Event>, longest: nat)
    requires IsRun(c, trace, events) && NoFamily(c, trace[0].files)
    requires OnlyWrites(events) && events != [] && c.maxFiles > 0
    requires forall line :: line in Lines(events) ==> |line| <= longest
    ensures WithinBounds(c, trace[|events|].files, trace[0].limit, longest,
                         |Cuts(c, c.header, trace[0].limit, events).groups|)
  {
    var limit := trace[0].limit;
    var groups := Cuts(c, c.header, limit, events).groups;
    assert c.Opened(trace[0].files) == c.header;
    RunMatchesCuts(c, trace, events);
    CutsKeepEveryLine(c, c.header, limit, events);
    CutBounds(c, limit, events);
    assert events[|events| - 1].Write?;
    ShapedHoldsGroups(c, trace[0].files, trace[|events|].files, groups);
    BoundsFromGroups(c, limit, trace[|events|].files, groups, longest);
  }

  // ---- When the limit does not hold ----

  /** A write leaves the live file over the limit by more than the line written exactly when the file
      was over the limit before and the write could not roll: it was the first after opening, or the
      number of files is not limited. */
  lemma OvergrowsIff(c: Config, start: string, limit: nat, events: seq<Event>, line: string)
    requires |c.header| <= Cuts(c, start, limit, events).limit
    ensures var p, q := Cuts(c, start, limit, events), Cuts(c, start, limit, events + [Write(line)]);
      |Content(c, start, q.groups, |q.groups| - 1)| > p.limit + |line|
      <==> |Content(c, start, p.groups, |p.groups| - 1)| > p.limit && (p.reopened || c.maxFiles <= 0)
  {
    CutsOfWrite(c, start, limit, events, line);
    OvergrowsFrom(c, start, Cuts(c, start, limit, events), line);
  }

  lemma OvergrowsFrom(c: Config, start: string, p: Cut, line: string)
    requires p.groups != [] && |c.header| <= p.limit
    ensures var q := AfterWrite(c, start, p, line);
      |Content(c, start, q.groups, |q.groups| - 1)| > p.limit + |line|
      <==> |Content(c, start, p.groups, |p.groups| - 1)| > p.limit && (p.reopened || c.maxFiles <= 0)
  {
    NewestSize(c, start, p.groups, line);
  }

  lemma CutsOfWrite(c: Config, start: string, limit: nat, events: seq<Event>, line: string)
    ensures Cuts(c, start, limit, events + [Write(line)]) == AfterWrite(c, start, Cuts(c, start, limit, events), line)
  {
    assert (events + [Write(line)])[..|events|] == events;
  }

  lemma NewestSize(c: Config, start: string, groups: seq<seq<string>>, line: string)
    requires groups != []
    ensures |Extend(groups, line)| == |groups|
    ensures |Content(c, start, Extend(groups, line), |groups| - 1)|
         == |Content(c, start, groups, |groups| - 1)| + |line|
    ensures |Content(c, start, groups + [[line]], |groups|)| == |c.header| + |line|
  {
    ContentExtend(c, start, groups, line, |groups| - 1);
    FlattenOne(line);
  }

  /** Each line is logged by a session of its own. */
  function OneLineSessions(lines: seq<string>): seq<Event> {
    if lines == [] then []
    else OneLineSessions(lines[..|lines| - 1]) + [SetFileName, Write(lines[|lines| - 1])]
  }

  /** Because the first write after opening never rolls, a program that logs one line each time it
      is started never rolls at all: all lines pile up in one group, whatever the limit. */
  lemma {:induction false} RestartsDefeatTheLimit(c: Config, start: string, limit: nat, lines: seq<string>)
    ensures var e := OneLineSessions(lines);
      Lines(e) == lines && Cuts(c, start, limit, e) == Cut([lines], lines == [], limit)
  {
    if lines != [] {
      var k := |lines| - 1;
      RestartsDefeatTheLimit(c, start, limit, lines[..k]);
      var p := OneLineSessions(lines[..k]);
      var reopen := p + [SetFileName];
      var e := OneLineSessions(lines);
      assert reopen[..|p|] == p;
      assert e == reopen + [Write(lines[k])];
      assert e[..|reopen|] == reopen;
      assert Lines(reopen) == lines[..k];
      assert Cuts(c, start, limit, reopen) == Cut([lines[..k]], true, limit);
      assert lines[..k] + [lines[k]] == lines;
      assert Extend([lines[..k]], lines[k]) == [lines];
    }
  }
}
