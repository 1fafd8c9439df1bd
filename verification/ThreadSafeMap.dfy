/** The map that is saved to and restored from a text file, one entry a line. */
module ThreadSafeMap {
  import opened Text
  import opened Streams

  const NEWLINE: char := '\n'

  type Entries = map<string, string>

  // ---- The file format ----

  /** The lines getline finds: what lies between line ends, and a last line without one. */
  function Lines(file: string): seq<string>
    decreases |file|
  {
    if file == "" then []
    else
      var i := IndexOf(file, NEWLINE);
      if i < |file| then [file[..i]] + Lines(file[i + 1..]) else [file]
  }

  /** The entry on a line: the key is what comes before the first delimiter, the value what comes
      after. A line without a delimiter, or with nothing after it, has none. */
  function Entry(line: string, delimiter: char): Option<(string, string)> {
    var i := IndexOf(line, delimiter);
    if i + 1 < |line| then Some((line[..i], line[i + 1..])) else None
  }

  function AddLine(m: Entries, line: string, delimiter: char): Entries {
    match Entry(line, delimiter)
    case Some((key, value)) => m[key := value]
    case None => m
  }

  /** A map after the entries of some lines were added to it, in order. */
  function Load(m: Entries, lines: seq<string>, delimiter: char): Entries {
    if lines == [] then m else AddLine(Load(m, lines[..|lines| - 1], delimiter), lines[|lines| - 1], delimiter)
  }

  function LineOf(key: string, value: string, delimiter: char): string { key + [delimiter] + value }

  /** The file of a map whose entries are written in some order. */
  function Dump(m: Entries, order: seq<string>, delimiter: char): string
    requires forall i :: 0 <= i < |order| ==> order[i] in m
  {
    if order == [] then ""
    else LineOf(order[0], m[order[0]], delimiter) + [NEWLINE] + Dump(m, order[1..], delimiter)
  }

  /** order lists exactly the given keys, each once. */
  ghost predicate IsOrder(order: seq<string>, keys: set<string>) {
    && (forall i :: 0 <= i < |order| ==> order[i] in keys)
    && (forall key :: key in keys ==> key in order)
    && (forall i, j :: 0 <= i < j < |order| ==> order[i] != order[j])
  }

  /** The file lists every entry of the map once, in some order. */
  ghost predicate IsDumpOf(file: string, m: Entries, delimiter: char) {
    exists order :: IsOrder(order, m.Keys) && file == Dump(m, order, delimiter)
  }

  /** One getline: it takes the first of the lines left, or fails when there is none. */
  lemma LinesStep(rest: string, line: string, left: string, eof: bool, fail: bool)
    requires NEWLINE !in line && rest == line + (if eof then "" else [NEWLINE]) + left
    requires (eof ==> left == "") && fail == (rest == "")
    ensures Lines(rest) == if fail then [] else [line] + Lines(left)
  {
    if !fail {
      assert rest[..|line|] == line;
      IndexOfIs(rest, NEWLINE, |line|);
      if eof {
        assert rest == line;
      } else {
        assert rest[|line| + 1..] == left;
      }
    }
  }

  lemma {:induction false} DumpSnoc(m: Entries, order: seq<string>, key: string, delimiter: char)
    requires key in m && forall i :: 0 <= i < |order| ==> order[i] in m
    ensures Dump(m, order + [key], delimiter) == Dump(m, order, delimiter) + LineOf(key, m[key], delimiter) + [NEWLINE]
  {
    if order == [] {
      assert [key][1..] == [];
    } else {
      assert (order + [key])[1..] == order[1..] + [key];
      DumpSnoc(m, order[1..], key, delimiter);
    }
  }

  lemma LoadSnoc(m: Entries, lines: seq<string>, line: string, delimiter: char)
    ensures Load(m, lines + [line], delimiter) == AddLine(Load(m, lines, delimiter), line, delimiter)
  {
    assert (lines + [line])[..|lines|] == lines;
  }

  lemma MoveFirst(done: seq<string>, line: string, left: seq<string>)
    ensures done + ([line] + left) == (done + [line]) + left
  {
  }

  class ThreadSafeMap {
    var entries: Entries

    constructor ()
      ensures entries == map[]
    {
      entries := map[];
    }

    method Add(key: string, value: string)
      modifies this
      ensures entries == old(entries)[key := value]
    {
      entries := entries[key := value];
    }

    /** Changes the value of a key that is there, and nothing else. */
    method Edit(key: string, value: string)
      modifies this
      ensures entries.Keys == old(entries).Keys
      ensures forall k :: k in entries ==> entries[k] == if k == key then value else old(entries)[k]
    {
      if key in entries {
        entries := entries[key := value];
      }
    }

    method Remove(key: string)
      modifies this
      ensures entries == old(entries) - {key}
    {
      entries := entries - {key};
    }

    /** The value of a key, or the empty string. */
    method Get(key: string) returns (value: string)
      ensures value == if key in entries then entries[key] else ""
    {
      value := if key in entries then entries[key] else "";
    }

    /** Writes every entry once, in whatever order the map is traversed. */
    method WriteToFile(delimiter: char) returns (file: string)
      ensures IsDumpOf(file, entries, delimiter)
    {
      file := "";
      ghost var order: seq<string> := [];
      var rest := entries.Keys;
      while rest != {}
        invariant rest <= entries.Keys && IsOrder(order, entries.Keys - rest)
        invariant file == Dump(entries, order, delimiter)
        decreases rest
      {
        var key :| key in rest;
        DumpSnoc(entries, order, key, delimiter);
        file := file + key + [delimiter] + entries[key] + [NEWLINE];
        order := order + [key];
        rest := rest - {key};
      }
    }

    /** Reads line by line, and adds the entry of each line that has one; a file that cannot be opened
        changes nothing. */
    method ReadFromFile(file: Option<string>, delimiter: char)
      modifies this
      ensures entries == if file.Some? then Load(old(entries), Lines(file.value), delimiter) else old(entries)
    {
      if file == None {
        return;
      }
      var infile := new InputStream(file.value);
      ghost var all := Lines(file.value);
      ghost var done: seq<string> := [];
      ghost var left := all;
      var line := infile.GetLine(NEWLINE, "");
      LinesStep(file.value, line, infile.Rest(), infile.eof, infile.fail);
      while !infile.fail
        invariant infile.Valid() && (infile.eof ==> infile.Rest() == "")
        invariant entries == Load(old(entries), done, delimiter)
        invariant all == done + left
        invariant left == if infile.fail then [] else [line] + Lines(infile.Rest())
        invariant infile.fail || NEWLINE !in line
        decreases |infile.Rest()|, !infile.eof, !infile.fail
      {
        AddEntry(line, delimiter);
        LoadSnoc(old(entries), done, line, delimiter);
        ghost var rest, atEnd := infile.Rest(), infile.eof;
        MoveFirst(done, line, Lines(rest));
        done, left := done + [line], Lines(rest);
        line := infile.GetLine(NEWLINE, line);
        if !atEnd {
          LinesStep(rest, line, infile.Rest(), infile.eof, infile.fail);
        }
      }
      assert done == all;
    }

    /** Splits one line and adds its entry, if it has one. */
    method AddEntry(line: string, delimiter: char)
      requires NEWLINE !in line
      modifies this
      ensures entries == AddLine(old(entries), line, delimiter)
    {
      var iss := new InputStream(line);
      var key, value := "", "";
      key := iss.GetLine(delimiter, key);
      if !iss.fail {
        ghost var rest := iss.Rest();
        assert line[..|key|] == key;
        IndexOfIs(line, delimiter, |key|);
        assert line == key + (if iss.eof then "" else [delimiter]) + rest;
        assert forall i :: 0 <= i < |rest| ==> rest[i] == line[|line| - |rest| + i];
        value := iss.GetLine(NEWLINE, value);
        if !iss.fail {
          assert value == rest == line[|key| + 1..] && key == line[..|key|];
          Add(key, value);
        }
      }
    }
  }
}
