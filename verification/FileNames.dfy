/** How the rolling appender names the files of one log family. */
module FileNames {
  import opened Text

  /** A log name, split at its last dot. */
  datatype Family = Family(stem: string, ext: string)

  /** The name of file number n: numbers of zero and below all name the live file. */
  function BuildFileName(f: Family, n: int): string {
    f.stem
    + (if n > 0 then "." + Decimal(n) else "")
    + (if f.ext != "" then "." + f.ext else "")
  }

  /** Different positive numbers, and zero, never share a name, whatever the stem and extension hold. */
  lemma BuildInjective(f: Family, m: nat, n: nat)
    requires BuildFileName(f, m) == BuildFileName(f, n)
    ensures m == n
  {
    var tail := if f.ext != "" then "." + f.ext else "";
    var a := if m > 0 then "." + Decimal(m) else "";
    var b := if n > 0 then "." + Decimal(n) else "";
    var name := BuildFileName(f, m);
    assert |name| == |f.stem| + |a| + |tail| == |f.stem| + |b| + |tail|;
    assert a == name[|f.stem|..|f.stem| + |a|] == b;
    if m > 0 {
      assert a[1..] == Decimal(m);
      assert b[1..] == Decimal(n);
      DecimalInjective(m, n);
    }
  }

  /** A rolled file's name has its number, in decimal, between stem and extension; the live file's name,
      which stands for all numbers below one, has none. */
  lemma NumberInName(f: Family, n: int)
    ensures var tail := if f.ext != "" then "." + f.ext else "";
      && (n > 0 ==> exists digits :: IsNumeral(digits, n) && BuildFileName(f, n) == f.stem + "." + digits + tail)
      && (n <= 0 ==> BuildFileName(f, n) == f.stem + tail)
  {
    if n > 0 {
      var tail := if f.ext != "" then "." + f.ext else "";
      DecimalIsNumeral(n);
      assert BuildFileName(f, n) == f.stem + ("." + Decimal(n)) + tail == f.stem + "." + Decimal(n) + tail;
    }
  }

  /** f is name, split at its last dot if it has one. */
  predicate IsSplit(name: string, f: Family) {
    && ('.' !in name ==> f == Family(name, ""))
    && ('.' in name ==> name == f.stem + "." + f.ext && '.' !in f.ext)
  }

  /** A name has one split only, so setting the same name again gives the same family. */
  lemma SplitUnique(name: string, f: Family, g: Family)
    requires IsSplit(name, f) && IsSplit(name, g)
    ensures f == g
  {
    if '.' in name {
      DotIsLast(name, f);
      DotIsLast(name, g);
      assert |f.stem| == |g.stem|;
      assert f.stem == name[..|f.stem|] && f.ext == name[|f.stem| + 1..];
      assert g.stem == name[..|g.stem|] && g.ext == name[|g.stem| + 1..];
    }
  }

  lemma DotIsLast(name: string, f: Family)
    requires IsSplit(name, f) && '.' in name
    ensures |f.stem| < |name| && name[|f.stem|] == '.'
    ensures forall i :: |f.stem| < i < |name| ==> name[i] != '.'
  {
    forall i | |f.stem| < i < |name| ensures name[i] != '.' {
      assert name[i] == f.ext[i - |f.stem| - 1];
    }
  }

  /** Finds the last dot from the right and splits there. */
  method SplitFileName(name: string) returns (f: Family)
    ensures IsSplit(name, f)
  {
    var dot := |name|;
    while dot > 0 && name[dot - 1] != '.'
      invariant 0 <= dot <= |name|
      invariant '.' !in name[dot..]
    {
      dot := dot - 1;
    }
    if dot > 0 {
      f := Family(name[..dot - 1], name[dot..]);
      assert name == name[..dot - 1] + [name[dot - 1]] + name[dot..];
    } else {
      assert name[0..] == name;
      f := Family(name, "");
    }
  }

  /** The live file carries the configured name exactly when that name does not end in a dot;
      a final dot is dropped. */
  lemma SplitThenBuild(name: string, f: Family)
    requires IsSplit(name, f)
    ensures BuildFileName(f, 0) == name <==> !(name != "" && name[|name| - 1] == '.')
    ensures name != "" && name[|name| - 1] == '.' ==> BuildFileName(f, 0) == name[..|name| - 1]
  {
    if '.' in name {
      if f.ext == "" {
        assert name[|name| - 1] == '.';
        assert BuildFileName(f, 0) == f.stem == name[..|name| - 1];
      } else {
        assert name[|name| - 1] == f.ext[|f.ext| - 1];
        assert BuildFileName(f, 0) == f.stem + ("." + f.ext) == name;
      }
    } else if name != "" {
      assert name[|name| - 1] in name;
    }
  }
}
