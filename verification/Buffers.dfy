/** The C library calls the server and client make on their fixed buffers. */
module Buffers {
  import opened Text
  import opened Wire

  /** strlen; the buffer must hold a terminator. */
  method Strlen(buffer: array<char>) returns (n: nat)
    requires NUL in buffer[..]
    ensures n == |CStr(buffer[..])| && n < buffer.Length
  {
    n := 0;
    assert exists i :: 0 <= i < buffer.Length && buffer[i] == NUL;
    while buffer[n] != NUL
      invariant n < buffer.Length && NUL !in buffer[..n]
      invariant exists i :: n <= i < buffer.Length && buffer[i] == NUL
      decreases buffer.Length - n
    {
      n := n + 1;
    }
    assert buffer[..][..n] == buffer[..n];
    IndexOfIs(buffer[..], NUL, n);
  }

  /** strncmp(buffer, keyword, strlen(keyword)) == 0. */
  method StartsWith(buffer: array<char>, keyword: string) returns (yes: bool)
    requires NUL in buffer[..] && NUL !in keyword
    ensures yes <==> keyword <= CStr(buffer[..])
  {
    var len := Strlen(buffer);
    ghost var msg := CStr(buffer[..]);
    var i := 0;
    while i < |keyword| && i < len && buffer[i] == keyword[i]
      invariant i <= |keyword| && i <= len
      invariant keyword[..i] == msg[..i]
    {
      assert msg[i] == buffer[i];
      i := i + 1;
    }
    yes := i == |keyword|;
    assert yes ==> keyword[..i] == keyword;
    assert i < |keyword| && i < len ==> msg[i] == buffer[i] != keyword[i];
  }

  /** memset to zero, then sprintf or strncpy of a text that leaves room for its terminator. */
  method Print(buffer: array<char>, text: string)
    requires |text| < buffer.Length
    modifies buffer
    ensures buffer[..] == Frame(text, buffer.Length)
  {
    for i := 0 to buffer.Length
      invariant forall j :: 0 <= j < i ==> buffer[j] == NUL
    {
      buffer[i] := NUL;
    }
    for i := 0 to |text|
      invariant forall j :: 0 <= j < i ==> buffer[j] == text[j]
      invariant forall j :: i <= j < buffer.Length ==> buffer[j] == NUL
    {
      buffer[i] := text[i];
    }
  }

  /** strncpy of the string that starts at an offset, in full, into a zeroed buffer with room for it. */
  method CopyTail(buffer: array<char>, from: nat, dst: array<char>)
    requires NUL in buffer[..] && from <= |CStr(buffer[..])| && buffer != dst
    requires |CStr(buffer[..])| - from < dst.Length
    modifies dst
    ensures dst[..] == Frame(CStr(old(buffer[..]))[from..], dst.Length)
  {
    var len := Strlen(buffer);
    ghost var tail := CStr(buffer[..])[from..];
    for i := 0 to dst.Length
      invariant forall j :: 0 <= j < i ==> dst[j] == if j < |tail| then tail[j] else NUL
    {
      dst[i] := if i < len - from then buffer[from + i] else NUL;
    }
  }

  /** Where the next word of the string lies. */
  method FindWord(buffer: array<char>, from: nat) returns (start: nat, next: nat)
    requires NUL in buffer[..] && from <= |CStr(buffer[..])|
    ensures from <= start <= next <= |CStr(buffer[..])| < buffer.Length
    ensures FirstWord(CStr(buffer[..])[from..]) == CStr(buffer[..])[start..next]
    ensures AfterWord(CStr(buffer[..])[from..]) == CStr(buffer[..])[next..]
  {
    var len := Strlen(buffer);
    ghost var msg := CStr(buffer[..]);
    assert forall i | 0 <= i < len :: msg[i] == buffer[i];
    start := from;
    while start < len && IsSpace(buffer[start])
      invariant from <= start <= len
      invariant forall i :: from <= i < start ==> IsSpace(msg[i])
    {
      start := start + 1;
    }
    next := start;
    while next < len && !IsSpace(buffer[next])
      invariant start <= next <= len
      invariant forall i :: start <= i < next ==> !IsSpace(msg[i])
    {
      next := next + 1;
    }
    WordSpan(msg, from, start, next);
  }

  lemma NoNulBefore(buffer: seq<char>, start: nat, next: nat)
    requires start <= next <= |CStr(buffer)|
    ensures buffer[start..next] == CStr(buffer)[start..next] && NUL !in buffer[start..next]
  {
    var word := buffer[start..next];
    forall i | 0 <= i < |word| ensures word[i] == CStr(buffer)[start + i] != NUL {
      assert CStr(buffer)[start + i] in CStr(buffer);
    }
  }

  /** Copies a stretch of the buffer and terminates it. */
  method CopyWord(buffer: array<char>, start: nat, next: nat, dst: array<char>)
    requires start <= next <= buffer.Length && next - start < dst.Length && buffer != dst
    requires NUL !in buffer[start..next]
    modifies dst
    ensures CStr(dst[..]) == old(buffer[start..next]) && NUL in dst[..]
  {
    ghost var word := buffer[start..next];
    for i := 0 to next - start
      invariant forall j :: 0 <= j < i ==> dst[j] == word[j]
    {
      dst[i] := buffer[start + i];
    }
    dst[next - start] := NUL;
    assert dst[..][..next - start] == word;
    assert dst[..][next - start] == NUL;
    IndexOfIs(dst[..], NUL, next - start);
  }

  /** One %s of sscanf: skips white space, then copies a word and terminates it. At the end of the
      string nothing is read and the target keeps its contents. */
  method ScanWord(buffer: array<char>, from: nat, dst: array<char>) returns (next: nat, ok: bool)
    requires NUL in buffer[..] && from <= |CStr(buffer[..])| && buffer != dst
    requires |FirstWord(CStr(buffer[..])[from..])| < dst.Length
    modifies dst
    ensures from <= next <= |CStr(old(buffer[..]))|
    ensures ok <==> FirstWord(CStr(old(buffer[..]))[from..]) != ""
    ensures ok ==> CStr(dst[..]) == FirstWord(CStr(old(buffer[..]))[from..]) && NUL in dst[..]
    ensures !ok ==> dst[..] == old(dst[..])
    ensures CStr(old(buffer[..]))[next..] == AfterWord(CStr(old(buffer[..]))[from..])
  {
    var start;
    start, next := FindWord(buffer, from);
    NoNulBefore(buffer[..], start, next);
    assert buffer[..][start..next] == buffer[start..next];
    ok := next > start;
    if ok {
      CopyWord(buffer, start, next, dst);
    }
  }

  /** The parsing of SIGNUP and LOGIN: two words into zeroed buffers. */
  method ParseTwoWords(buffer: array<char>, keyword: nat, first: array<char>, second: array<char>)
    requires NUL in buffer[..] && keyword <= |CStr(buffer[..])|
    requires buffer != first && buffer != second && first != second
    requires NUL in first[..] && CStr(first[..]) == "" && NUL in second[..] && CStr(second[..]) == ""
    requires |TwoWords(CStr(buffer[..]), keyword).0| < first.Length
    requires |TwoWords(CStr(buffer[..]), keyword).1| < second.Length
    modifies first, second
    ensures (CStr(first[..]), CStr(second[..])) == TwoWords(CStr(old(buffer[..])), keyword)
    ensures NUL in first[..] && NUL in second[..]
  {
    ghost var s := CStr(buffer[..])[keyword..];
    var next, ok := ScanWord(buffer, keyword, first);
    if ok {
      next, ok := ScanWord(buffer, next, second);
    } else {
      NoWordIff(s);
      NoWordIff("");
    }
  }

  /** The parsing of CALL by the server and of INVITE by the client: the first word, then everything
      at the offset computed from its length. */
  method ParseNamed(buffer: array<char>, keyword: nat, name: array<char>, sdp: array<char>)
    requires NUL in buffer[..] && keyword <= |CStr(buffer[..])|
    requires buffer != name && buffer != sdp && name != sdp
    requires NUL in name[..] && CStr(name[..]) == ""
    requires |FirstWord(CStr(buffer[..])[keyword..])| < name.Length && buffer.Length <= sdp.Length
    requires Named(CStr(buffer[..]), keyword).Some?
    modifies name, sdp
    ensures Some((CStr(name[..]), CStr(sdp[..]))) == Named(CStr(old(buffer[..])), keyword)
    ensures NUL in name[..] && NUL in sdp[..]
  {
    ghost var msg := CStr(buffer[..]);
    ghost var len' := keyword + 1 + |FirstWord(msg[keyword..])| + 1;
    ReadName(buffer, keyword, name);
    var nameLength := Strlen(name);
    var len := keyword + 1 + nameLength + 1;
    CopyTail(buffer, len, sdp);
    CStrOfFrame(msg[len'..], sdp.Length);
  }

  /** A word into a zeroed buffer. */
  method ReadName(buffer: array<char>, from: nat, name: array<char>)
    requires NUL in buffer[..] && from <= |CStr(buffer[..])| && buffer != name
    requires NUL in name[..] && CStr(name[..]) == ""
    requires |FirstWord(CStr(buffer[..])[from..])| < name.Length
    modifies name
    ensures CStr(name[..]) == FirstWord(CStr(old(buffer[..]))[from..]) && NUL in name[..]
  {
    var next, ok := ScanWord(buffer, from, name);
  }
}
