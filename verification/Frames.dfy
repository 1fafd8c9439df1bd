/** Messages as they cross a byte stream in fixed frames, and a call's description from end to end. */
module Frames {
  import opened Text
  import opened Wire

  /** What a reader of full frames makes of a stream: the string in each 1024 bytes; a last, shorter
      frame gives what is there. */
  function ReadFrames(stream: seq<char>): seq<string>
    decreases |stream|
  {
    if stream == [] then []
    else if |stream| <= BUFFER_SIZE then [CStr(stream)]
    else [CStr(stream[..BUFFER_SIZE])] + ReadFrames(stream[BUFFER_SIZE..])
  }

  /** The stream of messages sent one after the other, each padded to a full buffer. */
  function SendFrames(msgs: seq<string>): seq<char>
    requires forall i :: 0 <= i < |msgs| ==> |msgs[i]| < BUFFER_SIZE
  {
    if msgs == [] then [] else Frame(msgs[0], BUFFER_SIZE) + SendFrames(msgs[1..])
  }

  lemma {:induction false} FramesRoundTrip(msgs: seq<string>)
    requires forall i :: 0 <= i < |msgs| ==> |msgs[i]| < BUFFER_SIZE
    ensures ReadFrames(SendFrames(msgs)) == msgs <==> forall i :: 0 <= i < |msgs| ==> NUL !in msgs[i]
    ensures |SendFrames(msgs)| == 1024 * |msgs|
  {
    if msgs != [] {
      var f, rest := Frame(msgs[0], BUFFER_SIZE), SendFrames(msgs[1..]);
      FramesRoundTrip(msgs[1..]);
      CStrOfFrame(msgs[0], BUFFER_SIZE);
      assert (f + rest)[..BUFFER_SIZE] == f && (f + rest)[BUFFER_SIZE..] == rest;
      assert rest == [] ==> f + rest == f && msgs[1..] == [];
      assert ReadFrames(f + rest) == [CStr(f)] + ReadFrames(rest);
      assert msgs == [msgs[0]] + msgs[1..];
      assert ([CStr(f)] + ReadFrames(rest))[1..] == ReadFrames(rest);
      assert forall i :: 1 <= i < |msgs| ==> msgs[1..][i - 1] == msgs[i];
    }
  }

  /** A CALL as the client sends it and the server's handler reads it. */
  function ReadCall(name: string, sdp: string): Option<(string, string)>
    requires |NamedText("CALL", name, sdp)| < BUFFER_SIZE
  {
    var msg := CStr(Frame(NamedText("CALL", name, sdp), BUFFER_SIZE));
    if "CALL" <= msg then Named(msg, 4) else None
  }

  /** An INVITE as the server sends it: from a buffer of twice the frame size. */
  function InviteStream(name: string, sdp: string): seq<char>
    requires |NamedText("INVITE", name, sdp)| < BUFFER_SIZE
  {
    Frame(NamedText("INVITE", name, sdp), 2 * BUFFER_SIZE)
  }

  /** The INVITE takes two frames: the client reads the message and then an empty string, which is
      the string that makes its listener stop. */
  lemma InviteIsTwoFrames(name: string, sdp: string)
    requires |NamedText("INVITE", name, sdp)| < BUFFER_SIZE && NUL !in name && NUL !in sdp
    ensures ReadFrames(InviteStream(name, sdp)) == [NamedText("INVITE", name, sdp), ""]
    ensures |InviteStream(name, sdp)| == 2048
  {
    var text := NamedText("INVITE", name, sdp);
    var stream := InviteStream(name, sdp);
    assert NUL !in text;
    assert stream[..BUFFER_SIZE] == Frame(text, BUFFER_SIZE);
    CStrOfFrame(text, BUFFER_SIZE);
    assert stream[BUFFER_SIZE..] == Frame("", BUFFER_SIZE);
    CStrOfFrame("", BUFFER_SIZE);
    assert ReadFrames(stream[BUFFER_SIZE..]) == [""];
  }

  /** A caller's description crosses CALL and INVITE unchanged when it and the name fit one INVITE
      frame: the server reads what the client printed, and the callee reads what the server printed.
      The name the callee is shown is the one that was called, its own, not the caller's. */
  lemma CallEndToEnd(name: string, sdp: string)
    requires NUL !in name && NUL !in sdp && name != "" && SpaceFree(name)
    requires |NamedText("INVITE", name, sdp)| < BUFFER_SIZE
    ensures ReadCall(name, sdp) == Some((name, sdp))
    ensures var frames := ReadFrames(InviteStream(name, sdp));
      |frames| == 2 && "INVITE" <= frames[0] && Named(frames[0], 6) == Some((name, sdp))
  {
    var call := NamedText("CALL", name, sdp);
    assert NUL !in call && call[..4] == "CALL";
    CStrOfFrame(call, BUFFER_SIZE);
    NamedRoundTrip("CALL", name, sdp);
    InviteIsTwoFrames(name, sdp);
    assert NamedText("INVITE", name, sdp)[..6] == "INVITE";
    NamedRoundTrip("INVITE", name, sdp);
  }

  /** The answer crosses both hops unchanged: the server forwards the buffer it read. */
  lemma AcceptEndToEnd(sdp: string)
    requires NUL !in sdp && |AcceptText(sdp)| < BUFFER_SIZE
    ensures var atServer := CStr(Frame(AcceptText(sdp), BUFFER_SIZE));
      && "ACCEPT" <= FirstWord(atServer)
      && Accepted(CStr(Frame(atServer, BUFFER_SIZE))) == Some(sdp)
  {
    assert NUL !in AcceptText(sdp);
    CStrOfFrame(AcceptText(sdp), BUFFER_SIZE);
    AcceptRoundTrip(sdp);
  }
}
