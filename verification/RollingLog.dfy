/** The rolling file appender: one live log file and a family of numbered older ones. */
module RollingLog {
  import opened FileNames
  import opened Files

  /** The smallest size limit the appender accepts. */
  const MIN_FILE_SIZE := 1000

  function Slot(f: Family, i: nat): string { BuildFileName(f, i) }

  lemma SlotsDistinct(f: Family)
    ensures forall i: nat, j: nat :: Slot(f, i) == Slot(f, j) ==> i == j
  {
    forall i: nat, j: nat | Slot(f, i) == Slot(f, j) ensures i == j {
      BuildInjective(f, i, j);
    }
  }

  ghost predicate IsSlot(f: Family, n: nat, name: string) {
    exists i: nat :: i < n && name == Slot(f, i)
  }

  /** What a roll does to a directory, before the live file is reopened: slot i + 1 holds what
      slot i held or is absent if slot i was, what the last slot held is gone, slot 0 is absent,
      and no other name changes. */
  ghost predicate IsShift(before: Directory, after: Directory, f: Family, n: nat) {
    && (forall i: nat :: i + 1 < n ==> SameAt(before, Slot(f, i), after, Slot(f, i + 1)))
    && Slot(f, 0) !in after
    && (forall name :: !IsSlot(f, n, name) ==> SameAt(before, name, after, name))
  }

  /** IsShift leaves nothing open: at most one directory is the shift of another. */
  lemma ShiftUnique(before: Directory, f: Family, n: nat, a: Directory, b: Directory)
    requires n > 0 && IsShift(before, a, f, n) && IsShift(before, b, f, n)
    ensures a == b
  {
    forall name ensures SameAt(a, name, b, name) { ShiftUniqueAt(before, f, n, a, b, name); }
    SameEverywhere(a, b);
  }

  lemma ShiftUniqueAt(before: Directory, f: Family, n: nat, a: Directory, b: Directory, name: string)
    requires n > 0 && IsShift(before, a, f, n) && IsShift(before, b, f, n)
    ensures SameAt(a, name, b, name)
  {
    if IsSlot(f, n, name) {
      var i: nat :| i < n && name == Slot(f, i);
      if i > 0 {
        assert SameAt(before, Slot(f, i - 1), a, Slot(f, i - 1 + 1));
        assert SameAt(before, Slot(f, i - 1), b, Slot(f, i - 1 + 1));
      }
    } else {
      assert SameAt(before, name, a, name) && SameAt(before, name, b, name);
    }
  }

  lemma SameEverywhere(a: Directory, b: Directory)
    requires forall name :: SameAt(a, name, b, name)
    ensures a == b
  {
    forall name ensures name in a <==> name in b { assert SameAt(a, name, b, name); }
    forall name | name in a ensures a[name] == b[name] { assert SameAt(a, name, b, name); }
  }

  /** A roll in progress: slots from gap upwards have moved up by one, slot gap is free,
      and the slots below it have not been touched. */
  ghost predicate Moved(before: Directory, now: Directory, f: Family, n: nat, gap: nat) {
    && (forall i: nat :: gap <= i && i + 1 < n ==> SameAt(before, Slot(f, i), now, Slot(f, i + 1)))
    && Slot(f, gap) !in now
    && (forall i: nat :: i < gap ==> SameAt(before, Slot(f, i), now, Slot(f, i)))
    && (forall name :: !IsSlot(f, n, name) ==> SameAt(before, name, now, name))
  }

  lemma MoveOne(before: Directory, now: Directory, f: Family, n: nat, i: nat)
    requires i + 1 < n && Moved(before, now, f, n, i + 1)
    ensures Moved(before, Renamed(now, Slot(f, i), Slot(f, i + 1)), f, n, i)
  {
    SlotsDistinct(f);
    assert IsSlot(f, n, Slot(f, i)) && IsSlot(f, n, Slot(f, i + 1));
  }

  lemma UnlinkLast(before: Directory, f: Family, n: nat)
    requires n > 0
    ensures Moved(before, before - {Slot(f, n - 1)}, f, n, n - 1)
  {
    SlotsDistinct(f);
    assert IsSlot(f, n, Slot(f, n - 1));
  }

  /** How many numbered names a roll moves: a limit of zero or less acts like one. */
  function Slots(maxFiles: int): nat {
    if maxFiles > 1 then maxFiles else 1
  }

  lemma SlotsMeans(maxFiles: int)
    ensures maxFiles >= 1 ==> Slots(maxFiles) == maxFiles
    ensures maxFiles < 1 ==> Slots(maxFiles) == 1
  {
  }

  /** A shift and a new live file, said file by file: number i + 1 holds what number i held, the live
      file is the given one, and every name outside the family is as it was. */
  lemma ShiftMeans(before: Directory, after: Directory, f: Family, maxFiles: int, live: string)
    requires IsShift(before, after - {Slot(f, 0)}, f, Slots(maxFiles))
    requires Slot(f, 0) in after && after[Slot(f, 0)] == live
    ensures forall i: nat :: i + 1 < maxFiles ==>
      SameAt(before, BuildFileName(f, i), after, BuildFileName(f, i + 1))
    ensures forall name | name != BuildFileName(f, 0)
                          && (forall i: nat :: i < maxFiles ==> name != BuildFileName(f, i)) ::
              SameAt(before, name, after, name)
  {
    SlotsDistinct(f);
    SlotsMeans(maxFiles);
    var shifted := after - {Slot(f, 0)};
    forall i: nat | i + 1 < maxFiles ensures SameAt(before, BuildFileName(f, i), after, BuildFileName(f, i + 1)) {
      assert SameAt(before, Slot(f, i), shifted, Slot(f, i + 1));
    }
    forall name | name != BuildFileName(f, 0) && (forall i: nat :: i < maxFiles ==> name != BuildFileName(f, i))
      ensures SameAt(before, name, after, name) {
      assert !IsSlot(f, Slots(maxFiles), name);
      assert SameAt(before, name, shifted, name);
    }
  }

  /** What the appender is told: a record, already formatted, or a change of its settings. */
  datatype Event =
    | Write(line: string)
    | SetFileName          // to the same name again, as a restarted program does
    | SetMaxFileSize(bytes: nat)

  /** The state one write hands to the next. */
  datatype Log = Log(files: Directory, fileSize: int, limit: nat, firstWrite: bool)

  /** What never changes during a run: names, number of files, and the header with its byte order mark. */
  datatype Config = Config(family: Family, maxFiles: int, header: string) {
    function Live(): string { Slot(family, 0) }

    /** The live file as it stands once it has been opened. */
    function Opened(files: Directory): string {
      if Live() in files && files[Live()] != "" then files[Live()] else header
    }

    ghost predicate Valid(s: Log) {
      !s.firstWrite ==> Live() in s.files && s.fileSize == |s.files[Live()]|
    }

    /** A write rolls when files are limited and the live file has outgrown the limit;
        the first write after opening never does. */
    predicate Rolls(s: Log) {
      !s.firstWrite && maxFiles > 0 && s.fileSize > s.limit
    }

    ghost predicate IsWrite(s: Log, line: string, s': Log)
      requires Valid(s)
    {
      && !s'.firstWrite && s'.limit == s.limit
      && Live() in s'.files && s'.fileSize == |s'.files[Live()]|
      && if Rolls(s) then
           && IsShift(s.files, s'.files - {Live()}, family, Slots(maxFiles))
           && s'.files[Live()] == header + line
         else
           s'.files == s.files[Live() := (if s.firstWrite then Opened(s.files) else s.files[Live()]) + line]
    }

    ghost predicate IsStep(s: Log, e: Event, s': Log)
      requires Valid(s)
    {
      match e
      case Write(line) => IsWrite(s, line, s')
      case SetFileName => s' == s.(firstWrite := true)
      case SetMaxFileSize(bytes) => s' == s.(limit := if bytes > MIN_FILE_SIZE then bytes else MIN_FILE_SIZE)
    }
  }

  /** What a write does, said file by file. It rolls exactly when files are limited, the log was not just
      opened and the live file has outgrown the limit; then every file moves up by one number. Otherwise
      the live file keeps all it held, with or without a header, or starts with the header; and no other
      file changes. */
  lemma WriteMeans(c: Config, s: Log, line: string, s': Log)
    requires c.Valid(s) && c.IsWrite(s, line, s')
    ensures var live := BuildFileName(c.family, 0);
      && live in s'.files
      && if !s.firstWrite && c.maxFiles > 0 && |s.files[live]| > s.limit then
           && s'.files[live] == c.header + line
           && (forall i: nat :: i + 1 < c.maxFiles ==>
                 SameAt(s.files, BuildFileName(c.family, i), s'.files, BuildFileName(c.family, i + 1)))
         else
           && (live in s.files && s.files[live] != "" ==> s'.files[live] == s.files[live] + line)
           && (s.firstWrite && (live !in s.files || s.files[live] == "") ==> s'.files[live] == c.header + line)
           && (forall name :: name != live ==> SameAt(s.files, name, s'.files, name))
  {
    if c.Rolls(s) {
      ShiftMeans(s.files, s'.files, c.family, c.maxFiles, c.header + line);
    }
  }

  class RollingFileAppender {
    const fs: FileSystem
    const file: File
    const maxFiles: int
    const header: string   // what Converter::header makes of Formatter::header
    var family: Family
    var fileSize: int
    var maxFileSize: nat
    var firstWrite: bool

    ghost predicate Valid()
      reads this, fs, file
    {
      && (firstWrite <==> !file.isOpen)
      && (file.isOpen ==>
            && file.name == Slot(family, 0)
            && file.name in fs.files
            && file.offset == |fs.files[file.name]| == fileSize)
    }

    ghost function Settings(): Config
      reads this
    {
      Config(family, maxFiles, header)
    }

    ghost function State(): Log
      reads this, fs
    {
      Log(fs.files, fileSize, maxFileSize, firstWrite)
    }

    constructor (fs: FileSystem, fileName: string, header: string, maxFileSize: nat, maxFiles: int)
      ensures Valid() && fresh(file) && this.fs == fs
      ensures IsSplit(fileName, family) && Settings() == Config(family, maxFiles, header)
      ensures State() == Log(fs.files, 0, if maxFileSize > 1000 then maxFileSize else 1000, true)
    {
      this.fs, this.header, this.maxFiles := fs, header, maxFiles;
      this.file := new File();
      this.fileSize, this.maxFileSize, this.firstWrite := 0, 0, true;
      this.family := Family("", "");
      new;
      SetFileName(fileName);
      SetMaxFileSize(maxFileSize);
    }

    method SetFileName(fileName: string)
      modifies this`family, this`firstWrite, file
      ensures Valid() && !file.isOpen
      ensures IsSplit(fileName, family)
      ensures State() == old(State()).(firstWrite := true)
    {
      family := SplitFileName(fileName);
      file.Close();
      firstWrite := true;
    }

    method SetMaxFileSize(bytes: nat)
      requires Valid()
      modifies this`maxFileSize
      ensures Valid()
      ensures Settings().Valid(old(State()))
      ensures Settings().IsStep(old(State()), Event.SetMaxFileSize(bytes), State())
      ensures maxFileSize == if bytes > 1000 then bytes else 1000
    {
      maxFileSize := if bytes > MIN_FILE_SIZE then bytes else MIN_FILE_SIZE;
    }

    /** Opens the live file, starting it with the header if it is empty. */
    method OpenLogFile()
      requires !file.isOpen
      modifies this`fileSize, fs, file
      ensures file.isOpen && file.name == Slot(family, 0) && file.name in fs.files
      ensures file.offset == |fs.files[file.name]| == fileSize
      ensures fs.files == old(fs.files)[Slot(family, 0) := Settings().Opened(old(fs.files))]
    {
      var fileName := BuildFileName(family, 0);
      ghost var live := Settings().Opened(fs.files);
      ghost var after := fs.files[fileName := live];
      fileSize := file.Open(fs, fileName);
      if fileSize == 0 {
        WriteAtEnd("", header);
        var bytesWritten := file.Write(fs, header);
        if bytesWritten != -1 {
          fileSize := fileSize + bytesWritten;
        }
      }
      assert fs.files[fileName] == live;
      assert fs.files == after;
    }

    /** Drops the oldest file, moves every other one up by one number and starts a new live file. */
    method RollLogFiles()
      requires Valid()
      modifies this`fileSize, this`firstWrite, fs, file
      ensures Valid() && !firstWrite
      ensures IsShift(old(fs.files), fs.files - {Slot(family, 0)}, family, Slots(maxFiles))
      ensures BuildFileName(family, 0) in fs.files && fs.files[BuildFileName(family, 0)] == header
      ensures forall i: nat :: i + 1 < maxFiles ==>
        SameAt(old(fs.files), BuildFileName(family, i), fs.files, BuildFileName(family, i + 1))
      ensures forall name | name != BuildFileName(family, 0)
                            && (forall i: nat :: i < maxFiles ==> name != BuildFileName(family, i)) ::
                SameAt(old(fs.files), name, fs.files, name)
    {
      file.Close();
      ghost var before := fs.files;
      UnlinkLast(before, family, Slots(maxFiles));

      var lastFileName := BuildFileName(family, maxFiles - 1);
      fs.Unlink(lastFileName);

      var fileNumber := maxFiles - 2;
      while fileNumber >= 0
        invariant fileNumber < Slots(maxFiles) - 1 && (fileNumber >= -1 || maxFiles < 1)
        invariant Moved(before, fs.files, family, Slots(maxFiles), if fileNumber >= 0 then fileNumber + 1 else 0)
        modifies fs
      {
        MoveOne(before, fs.files, family, Slots(maxFiles), fileNumber);
        var currentFileName := BuildFileName(family, fileNumber);
        var nextFileName := BuildFileName(family, fileNumber + 1);
        fs.Rename(currentFileName, nextFileName);
        fileNumber := fileNumber - 1;
      }
      ghost var shifted := fs.files;
      assert IsShift(before, shifted, family, Slots(maxFiles));

      OpenLogFile();
      assert fs.files - {Slot(family, 0)} == shifted;
      ShiftMeans(before, fs.files, family, maxFiles, header);
      firstWrite := false;
    }

    /** Appends one formatted record, rolling first when the live file is too large. */
    method Write(line: string)
      requires Valid()
      modifies this`fileSize, this`firstWrite, fs, file
      ensures Valid()
      ensures Settings().Valid(old(State()))
      ensures Settings().IsStep(old(State()), Event.Write(line), State())
    {
      if firstWrite {
        OpenLogFile();
        firstWrite := false;
      } else if maxFiles > 0 && fileSize > maxFileSize && fileSize != -1 {
        RollLogFiles();
      }
      ghost var ready := fs.files;
      WriteAtEnd(ready[Slot(family, 0)], line);
      var bytesWritten := file.Write(fs, line);
      if bytesWritten != -1 {
        fileSize := fileSize + bytesWritten;
      }
      assert fs.files == ready[Slot(family, 0) := ready[Slot(family, 0)] + line];
      assert fs.files - {Slot(family, 0)} == ready - {Slot(family, 0)};
    }
  }
}
