/** What a map is after being written to a file and read back. */
module Persistence {
  import opened Text
  import opened ThreadSafeMap

  // ---- Any file ----

  /** Line i gives the key a value, and no later line does. */
  ghost predicate LastFor(lines: seq<string>, delimiter: char, key: string, i: int) {
    && 0 <= i < |lines| && Gives(lines[i], delimiter, key)
    && forall j :: i < j < |lines| ==> !Gives(lines[j], delimiter, key)
  }

  predicate Gives(line: string, delimiter: char, key: string) {
    Entry(line, delimiter).Some? && Entry(line, delimiter).value.0 == key
  }

  /** Some line gives the key a value. */
  ghost predicate Given(lines: seq<string>, delimiter: char, key: string) {
    exists i :: 0 <= i < |lines| && Gives(lines[i], delimiter, key)
  }

  /** The last line that gives the key a value gives it this one. */
  ghost predicate LastGives(lines: seq<string>, delimiter: char, key: string, value: string) {
    exists i :: LastFor(lines, delimiter, key, i) && value == Entry(lines[i], delimiter).value.1
  }

  lemma GivenSnoc(p: seq<string>, line: string, delimiter: char, key: string)
    ensures Given(p + [line], delimiter, key) <==> Given(p, delimiter, key) || Gives(line, delimiter, key)
  {
    var lines := p + [line];
    if i :| 0 <= i < |p| && Gives(p[i], delimiter, key) {
      assert Gives(lines[i], delimiter, key);
    }
    assert lines[|p|] == line;
  }

  lemma LastGivesSnoc(p: seq<string>, line: string, delimiter: char, key: string, value: string)
    requires if Gives(line, delimiter, key) then value == Entry(line, delimiter).value.1
             else LastGives(p, delimiter, key, value)
    ensures LastGives(p + [line], delimiter, key, value)
  {
    var lines := p + [line];
    if Gives(line, delimiter, key) {
      assert LastFor(lines, delimiter, key, |p|);
    } else {
      var i :| LastFor(p, delimiter, key, i) && value == Entry(p[i], delimiter).value.1;
      assert LastFor(lines, delimiter, key, i);
    }
  }

  /** After reading any file into any map, a key some line gives has the value of the last such line,
      and every other key is as before. */
  lemma {:induction false} LoadMeans(m: Entries, lines: seq<string>, delimiter: char, key: string)
    ensures var r := Load(m, lines, delimiter);
      if Given(lines, delimiter, key) then key in r && LastGives(lines, delimiter, key, r[key])
      else (key in r <==> key in m) && (key in r ==> r[key] == m[key])
  {
    if lines != [] {
      var k := |lines| - 1;
      var p, line := lines[..k], lines[k];
      assert lines == p + [line];
      LoadMeans(m, p, delimiter, key);
      GivenSnoc(p, line, delimiter, key);
      var r := AddLine(Load(m, p, delimiter), line, delimiter);
      if Given(lines, delimiter, key) {
        LastGivesSnoc(p, line, delimiter, key, r[key]);
      }
    }
  }

  /** A line carries an entry exactly when it holds the delimiter, with something after the first one. */
  lemma EntryIff(line: string, delimiter: char, key: string, value: string)
    ensures Entry(line, delimiter) == Some((key, value))
       <==> delimiter !in key && value != "" && line == key + [delimiter] + value
  {
    var i := IndexOf(line, delimiter);
    if delimiter !in key && value != "" && line == key + [delimiter] + value {
      assert line[..|key|] == key && line[|key| + 1..] == value;
      IndexOfIs(line, delimiter, |key|);
    } else if i + 1 < |line| {
      assert line == line[..i] + [delimiter] + line[i + 1..];
    }
  }

  lemma NoDelimiterNoEntry(line: string, delimiter: char)
    requires delimiter !in line
    ensures Entry(line, delimiter) == None
  {
    assert IndexOf(line, delimiter) == |line|;
  }

  /** Lines without the delimiter change nothing. */
  lemma {:induction false} LinesWithoutDelimiter(m: Entries, lines: seq<string>, delimiter: char)
    requires forall i :: 0 <= i < |lines| ==> delimiter !in lines[i]
    ensures Load(m, lines, delimiter) == m
  {
    if lines != [] {
      var k := |lines| - 1;
      LinesWithoutDelimiter(m, lines[..k], delimiter);
      NoDelimiterNoEntry(lines[k], delimiter);
    }
  }

  // ---- A file that was written ----

  /** An entry that a line can carry. */
  predicate Fits(key: string, value: string, delimiter: char) {
    delimiter !in key && NEWLINE !in key && NEWLINE !in value
  }

  predicate AllFit(m: Entries, delimiter: char) { forall key :: key in m ==> Fits(key, m[key], delimiter) }

  /** The entries that come back: those with a value. */
  function Kept(m: Entries): Entries { map key | key in m && m[key] != "" :: m[key] }

  function LinesOf(m: Entries, order: seq<string>, delimiter: char): seq<string>
    requires forall i :: 0 <= i < |order| ==> order[i] in m
  {
    seq(|order|, i requires 0 <= i < |order| => LineOf(order[i], m[order[i]], delimiter))
  }

  lemma FittingLine(key: string, value: string, delimiter: char)
    requires Fits(key, value, delimiter) && delimiter != NEWLINE
    ensures NEWLINE !in LineOf(key, value, delimiter)
    ensures Entry(LineOf(key, value, delimiter), delimiter) == if value == "" then None else Some((key, value))
  {
    var line := LineOf(key, value, delimiter);
    assert line[..|key|] == key && line[|key| + 1..] == value;
    IndexOfIs(line, delimiter, |key|);
  }

  lemma LinesCons(line: string, rest: string)
    requires NEWLINE !in line
    ensures Lines(line + [NEWLINE] + rest) == [line] + Lines(rest)
  {
    LinesStep(line + [NEWLINE] + rest, line, rest, false, false);
  }

  lemma LinesOfCons(m: Entries, order: seq<string>, delimiter: char)
    requires order != [] && forall i :: 0 <= i < |order| ==> order[i] in m
    ensures LinesOf(m, order, delimiter)
         == [LineOf(order[0], m[order[0]], delimiter)] + LinesOf(m, order[1..], delimiter)
  {
  }

  lemma {:induction false} DumpedLines(m: Entries, order: seq<string>, delimiter: char)
    requires (forall i :: 0 <= i < |order| ==> order[i] in m) && AllFit(m, delimiter) && delimiter != NEWLINE
    ensures Lines(Dump(m, order, delimiter)) == LinesOf(m, order, delimiter)
  {
    if order != [] {
      DumpedLines(m, order[1..], delimiter);
      FittingLine(order[0], m[order[0]], delimiter);
      LinesCons(LineOf(order[0], m[order[0]], delimiter), Dump(m, order[1..], delimiter));
      LinesOfCons(m, order, delimiter);
    }
  }

  /** The entries of the keys in order that have a value. */
  function KeptOf(m: Entries, order: seq<string>): Entries {
    map key | key in m && key in order && m[key] != "" :: m[key]
  }

  lemma KeptSnoc(m: Entries, order: seq<string>, key: string)
    requires key in m
    ensures KeptOf(m, order + [key]) == if m[key] == "" then KeptOf(m, order) else KeptOf(m, order)[key := m[key]]
  {
  }

  lemma LoadOne(m0: Entries, kept: Entries, key: string, value: string, delimiter: char)
    requires Fits(key, value, delimiter) && delimiter != NEWLINE
    ensures AddLine(m0 + kept, LineOf(key, value, delimiter), delimiter)
         == m0 + (if value == "" then kept else kept[key := value])
  {
    FittingLine(key, value, delimiter);
    assert (m0 + kept)[key := value] == m0 + kept[key := value];
  }

  lemma {:induction false} LoadDumped(m0: Entries, m: Entries, order: seq<string>, delimiter: char)
    requires (forall i :: 0 <= i < |order| ==> order[i] in m) && AllFit(m, delimiter) && delimiter != NEWLINE
    ensures Load(m0, LinesOf(m, order, delimiter), delimiter) == m0 + KeptOf(m, order)
  {
    if order == [] {
      assert KeptOf(m, order) == map[];
    } else {
      var p, key := order[..|order| - 1], order[|order| - 1];
      var line := LineOf(key, m[key], delimiter);
      LoadDumped(m0, m, p, delimiter);
      LinesOfSnoc(m, p, key, delimiter);
      LoadSnoc(m0, LinesOf(m, p, delimiter), line, delimiter);
      LoadOne(m0, KeptOf(m, p), key, m[key], delimiter);
      KeptSnoc(m, p, key);
      assert order == p + [key];
    }
  }

  lemma LinesOfSnoc(m: Entries, order: seq<string>, key: string, delimiter: char)
    requires key in m && forall i :: 0 <= i < |order| ==> order[i] in m
    ensures LinesOf(m, order + [key], delimiter) == LinesOf(m, order, delimiter) + [LineOf(key, m[key], delimiter)]
  {
  }

  /** Writing a map whose entries fit a line and reading the file into any map m0 gives m0 overridden
      by the entries that have a value; entries with an empty value are lost, and nothing is removed. */
  lemma RestoreInto(m0: Entries, m: Entries, file: string, delimiter: char)
    requires IsDumpOf(file, m, delimiter) && AllFit(m, delimiter) && delimiter != NEWLINE
    ensures Load(m0, Lines(file), delimiter) == m0 + Kept(m)
  {
    var order :| IsOrder(order, m.Keys) && file == Dump(m, order, delimiter);
    DumpedLines(m, order, delimiter);
    LoadDumped(m0, m, order, delimiter);
    assert KeptOf(m, order) == Kept(m);
  }

  // ---- Exactly which maps come back ----

  lemma {:induction false} LinesHaveNoNewline(file: string)
    ensures forall i :: 0 <= i < |Lines(file)| ==> NEWLINE !in Lines(file)[i]
    decreases |file|
  {
    if file != "" {
      var i := IndexOf(file, NEWLINE);
      if i < |file| {
        LinesHaveNoNewline(file[i + 1..]);
      } else {
        assert file[..i] == file;
      }
    }
  }

  lemma EntryFits(line: string, delimiter: char)
    requires NEWLINE !in line && Entry(line, delimiter).Some?
    ensures var (key, value) := Entry(line, delimiter).value;
      Fits(key, value, delimiter) && value != "" && delimiter != NEWLINE
  {
    var i := IndexOf(line, delimiter);
    assert line[i] in line;
    assert forall c :: c in line[i + 1..] ==> c in line;
  }

  /** Whatever is read fits a line and has a value. */
  lemma {:induction false} LoadedFits(lines: seq<string>, delimiter: char)
    requires forall i :: 0 <= i < |lines| ==> NEWLINE !in lines[i]
    ensures var r := Load(map[], lines, delimiter);
      AllFit(r, delimiter) && (forall key :: key in r ==> r[key] != "") && (r != map[] ==> delimiter != NEWLINE)
  {
    if lines != [] {
      var k := |lines| - 1;
      LoadedFits(lines[..k], delimiter);
      if Entry(lines[k], delimiter).Some? {
        EntryFits(lines[k], delimiter);
      }
    }
  }

  /** A map comes back unchanged from its own file exactly when it is empty, or the delimiter is not
      the line end, no key holds the delimiter or a line end, no value holds a line end, and no value
      is empty. */
  lemma RestoredIff(m: Entries, file: string, delimiter: char)
    requires IsDumpOf(file, m, delimiter)
    ensures Load(map[], Lines(file), delimiter) == m
       <==> m == map[] || (delimiter != NEWLINE && AllFit(m, delimiter) && forall key :: key in m ==> m[key] != "")
  {
    LinesHaveNoNewline(file);
    LoadedFits(Lines(file), delimiter);
    if delimiter != NEWLINE && AllFit(m, delimiter) && forall key :: key in m ==> m[key] != "" {
      RestoreInto(map[], m, file, delimiter);
      assert map[] + Kept(m) == m;
    }
  }
}
