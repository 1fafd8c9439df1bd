/** The text messages of client and server: how they are printed into fixed buffers and parsed out of them. */
module Wire {
  import opened Text

  const BUFFER_SIZE: nat := 1024
  const NUL: char := '\0'

  /** What the C library's isspace accepts. */
  predicate IsSpace(c: char) {
    c == ' ' || '\t' <= c <= '\r'
  }

  lemma SpacesAre(c: char)
    ensures IsSpace(c) <==> c in [' ', '\t', '\n', 11 as char, 12 as char, '\r']
  {
  }

  predicate AllSpace(s: string) { forall i | 0 <= i < |s| :: IsSpace(s[i]) }

  predicate SpaceFree(s: string) { forall i | 0 <= i < |s| :: !IsSpace(s[i]) }

  /** The string a buffer holds: everything before its first NUL. */
  function CStr(buffer: seq<char>): string { buffer[..IndexOf(buffer, NUL)] }

  /** A text in a buffer of the given size, the rest zero. */
  function Frame(text: string, size: nat): seq<char>
    requires |text| <= size
  {
    text + seq(size - |text|, _ => NUL)
  }

  /** A text survives its buffer exactly when it holds no NUL. */
  lemma CStrOfFrame(text: string, size: nat)
    requires |text| < size
    ensures CStr(Frame(text, size)) == text <==> NUL !in text
    ensures NUL in Frame(text, size)
  {
    var f := Frame(text, size);
    assert f[|text|] == NUL;
    if NUL !in text {
      assert f[..|text|] == text;
      IndexOfIs(f, NUL, |text|);
    }
  }

  // ---- Words ----

  /** How many white-space characters a text starts with. */
  function SpaceLen(s: string): (n: nat)
    ensures n <= |s| && AllSpace(s[..n]) && (n < |s| ==> !IsSpace(s[n]))
  {
    if s == "" || !IsSpace(s[0]) then 0 else 1 + SpaceLen(s[1..])
  }

  /** How many other characters it starts with. */
  function WordLen(s: string): (n: nat)
    ensures n <= |s| && SpaceFree(s[..n]) && (n < |s| ==> IsSpace(s[n]))
  {
    if s == "" || IsSpace(s[0]) then 0 else 1 + WordLen(s[1..])
  }

  /** What the next %s of sscanf reads, and what it leaves. */
  function FirstWord(s: string): string {
    var r := s[SpaceLen(s)..];
    r[..WordLen(r)]
  }

  function AfterWord(s: string): string {
    var r := s[SpaceLen(s)..];
    r[WordLen(r)..]
  }

  lemma SpaceLenIs(s: string, n: nat)
    requires n <= |s| && AllSpace(s[..n]) && (n < |s| ==> !IsSpace(s[n]))
    ensures SpaceLen(s) == n
  {
    var m := SpaceLen(s);
    assert forall i | 0 <= i < n :: IsSpace(s[..n][i]) && s[..n][i] == s[i];
    assert forall i | 0 <= i < m :: IsSpace(s[..m][i]) && s[..m][i] == s[i];
  }

  lemma {:induction false} WordLenIs(s: string, n: nat)
    requires n <= |s| && SpaceFree(s[..n]) && (n < |s| ==> IsSpace(s[n]))
    ensures WordLen(s) == n
  {
    var m := WordLen(s);
    assert forall i | 0 <= i < n :: !IsSpace(s[..n][i]) && s[..n][i] == s[i];
    assert forall i | 0 <= i < m :: !IsSpace(s[..m][i]) && s[..m][i] == s[i];
  }

  /** A word between white space is read whole. */
  lemma WordIsRead(spaces: string, word: string, rest: string)
    requires AllSpace(spaces) && SpaceFree(word) && word != "" && (rest != "" ==> IsSpace(rest[0]))
    ensures FirstWord(spaces + word + rest) == word && AfterWord(spaces + word + rest) == rest
  {
    var s := spaces + word + rest;
    assert s[..|spaces|] == spaces;
    SpaceLenIs(s, |spaces|);
    var r := word + rest;
    assert s[|spaces|..] == r;
    assert r[..|word|] == word && r[|word|..] == rest;
    WordLenIs(r, |word|);
  }

  /** Nothing is read exactly when only white space is left. */
  lemma NoWordIff(s: string)
    ensures FirstWord(s) == "" <==> AllSpace(s)
    ensures AllSpace(s) ==> AfterWord(s) == ""
    ensures SpaceFree(FirstWord(s))
  {
    if AllSpace(s) {
      SpaceLenIs(s, |s|);
      assert s[..|s|] == s;
    }
  }

  /** Where the next word lies in a message, and what follows it. */
  lemma WordSpan(msg: string, from: nat, start: nat, next: nat)
    requires from <= start <= next <= |msg|
    requires AllSpace(msg[from..start]) && (start < |msg| ==> !IsSpace(msg[start]))
    requires SpaceFree(msg[start..next]) && (next < |msg| ==> IsSpace(msg[next]))
    ensures FirstWord(msg[from..]) == msg[start..next] && AfterWord(msg[from..]) == msg[next..]
  {
    var s, r := msg[from..], msg[start..];
    assert s[..start - from] == msg[from..start];
    SpaceLenIs(s, start - from);
    assert s[start - from..] == r;
    assert r[..next - start] == msg[start..next];
    WordLenIs(r, next - start);
    assert r[next - start..] == msg[next..];
  }

  // ---- Messages with two words: SIGNUP and LOGIN ----

  function TwoWordText(keyword: string, a: string, b: string): string { keyword + " " + a + " " + b }

  /** The same text, seen as a keyword and what follows it. */
  lemma TwoWordTail(keyword: string, a: string, b: string)
    ensures TwoWordText(keyword, a, b) == keyword + (" " + a + " " + b)
  {
  }

  /** sscanf(buffer, "KEYWORD %s %s", ...) into zeroed buffers. */
  function TwoWords(msg: string, keyword: nat): (string, string)
    requires keyword <= |msg|
  {
    var s := msg[keyword..];
    (FirstWord(s), FirstWord(AfterWord(s)))
  }

  lemma SecondWordAfter(a: string, b: string)
    requires SpaceFree(a) && a != ""
    ensures var s := " " + a + (" " + b);
      FirstWord(s) == a && (FirstWord(AfterWord(s)) == b <==> SpaceFree(b))
  {
    WordIsRead(" ", a, " " + b);
    NoWordIff(" " + b);
    if SpaceFree(b) && b != "" {
      WordIsRead(" ", b, "");
      assert " " + b + "" == " " + b;
    } else if b == "" {
      assert AllSpace(" " + b);
    }
  }

  lemma NoFirstWord(b: string)
    ensures var s := "  " + b;
      (FirstWord(s) == "" && FirstWord(AfterWord(s)) == b) <==> b == ""
  {
    var s := "  " + b;
    NoWordIff(s);
    NoWordIff("");
    assert b == "" ==> AllSpace(s);
  }

  /** Name and password arrive as sent exactly when neither holds white space, and there is no
      password without a name. */
  lemma TwoWordsRoundTrip(keyword: string, a: string, b: string)
    ensures TwoWords(TwoWordText(keyword, a, b), |keyword|) == (a, b)
       <==> SpaceFree(a) && SpaceFree(b) && (a == "" ==> b == "")
  {
    var s := TwoWordText(keyword, a, b)[|keyword|..];
    NamedTail(keyword, a, b);
    NoWordIff(s);
    if a == "" {
      assert s == "  " + b;
      NoFirstWord(b);
    } else if SpaceFree(a) {
      SecondWordAfter(a, b);
    }
  }

  // ---- Messages with a name and a session description: CALL and INVITE ----

  function NamedText(keyword: string, name: string, sdp: string): string { keyword + " " + name + " " + sdp }

  /** The name is the first word; the description is whatever follows at the offset computed from the
      name's length. None when that offset lies past the end, where the source subtracts below zero. */
  function Named(msg: string, keyword: nat): Option<(string, string)>
    requires keyword <= |msg|
  {
    var name := FirstWord(msg[keyword..]);
    var len := keyword + 1 + |name| + 1;
    if len <= |msg| then Some((name, msg[len..])) else None
  }

  lemma NamedTail(keyword: string, name: string, sdp: string)
    ensures NamedText(keyword, name, sdp)[|keyword|..] == " " + name + (" " + sdp)
    ensures NamedText(keyword, name, sdp)[|keyword| + 1 + |name| + 1..] == sdp
  {
  }

  lemma BlankIff(sdp: string)
    ensures AllSpace("  " + sdp) <==> AllSpace(sdp)
  {
    var s := "  " + sdp;
    assert forall i | 0 <= i < |sdp| :: s[i + 2] == sdp[i];
  }

  /** Name and description arrive as sent exactly when the name has no white space in it and, if it
      is empty, the description is blank as well. */
  lemma NamedRoundTrip(keyword: string, name: string, sdp: string)
    ensures Named(NamedText(keyword, name, sdp), |keyword|) == Some((name, sdp))
       <==> SpaceFree(name) && (name == "" ==> AllSpace(sdp))
  {
    var s := NamedText(keyword, name, sdp)[|keyword|..];
    NamedTail(keyword, name, sdp);
    NoWordIff(s);
    if name == "" {
      assert s == "  " + sdp;
      BlankIff(sdp);
    } else if SpaceFree(name) {
      WordIsRead(" ", name, " " + sdp);
    }
  }

  // ---- ACCEPT ----

  function AcceptText(sdp: string): string { "ACCEPT " + sdp }

  function Accepted(msg: string): Option<string> {
    if |msg| >= 7 then Some(msg[7..]) else None
  }

  lemma AcceptRoundTrip(sdp: string)
    ensures Accepted(AcceptText(sdp)) == Some(sdp) && FirstWord(AcceptText(sdp)) == "ACCEPT"
  {
    assert AcceptText(sdp)[7..] == sdp;
    assert AcceptText(sdp) == "" + "ACCEPT" + (" " + sdp);
    WordIsRead("", "ACCEPT", " " + sdp);
  }

  // ---- Dispatch ----

  datatype Keyword = Client | SignUp | Login | Call | LogOut | Exit

  function KeywordText(k: Keyword): string {
    match k
    case Client => "CLIENT"
    case SignUp => "SIGNUP"
    case Login => "LOGIN"
    case Call => "CALL"
    case LogOut => "LOGOUT"
    case Exit => "EXIT"
  }

  /** The first handler whose keyword the message starts with. */
  function Dispatch(order: seq<Keyword>, msg: string): Option<Keyword> {
    if order == [] then None
    else if KeywordText(order[0]) <= msg then Some(order[0])
    else Dispatch(order[1..], msg)
  }

  /** No message starts with two keywords. */
  lemma KeywordsExclude(k: Keyword, l: Keyword, msg: string)
    requires KeywordText(k) <= msg && KeywordText(l) <= msg
    ensures k == l
  {
    assert msg[0] == KeywordText(k)[0] == KeywordText(l)[0];
    assert msg[1] == KeywordText(k)[1] == KeywordText(l)[1];
    assert msg[3] == KeywordText(k)[3] == KeywordText(l)[3];
  }

  /** A message reaches the handler of its keyword whatever the order of the chain. */
  lemma {:induction false} DispatchInAnyOrder(order: seq<Keyword>, msg: string, k: Keyword)
    requires k in order
    ensures KeywordText(k) <= msg <==> Dispatch(order, msg) == Some(k)
  {
    if KeywordText(order[0]) <= msg {
      if KeywordText(k) <= msg { KeywordsExclude(order[0], k, msg); }
    } else if k in order[1..] {
      DispatchInAnyOrder(order[1..], msg, k);
    } else {
      NotDispatched(order[1..], msg, k);
    }
  }

  /** A handler that is found is one whose keyword the message starts with. */
  lemma {:induction false} DispatchFinds(order: seq<Keyword>, msg: string)
    ensures Dispatch(order, msg).Some? ==>
      Dispatch(order, msg).value in order && KeywordText(Dispatch(order, msg).value) <= msg
  {
    if order != [] { DispatchFinds(order[1..], msg); }
  }

  lemma {:induction false} NotDispatched(order: seq<Keyword>, msg: string, k: Keyword)
    requires k !in order
    ensures Dispatch(order, msg) != Some(k)
  {
    if order != [] { NotDispatched(order[1..], msg, k); }
  }
}
