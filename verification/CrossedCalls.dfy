/** Two clients that call each other at the same time: both answer, both answers are passed on, and
    neither is heard. */
module CrossedCalls {
  import opened Accounts
  import opened Relay
  import opened RelayEnds
  import opened RelayCalls

  function Line(sdp: string, toClient: seq<Push>, toServer: seq<string>, listening: bool, asked: nat, done: nat,
      passed: nat): Channel {
    Channel(toClient, toServer, listening, sdp, asked, done, passed, 0, 0, [])
  }

  /** Clients a and b on channels 0 and 1, with their threads at these places. */
  function Both(a: string, b: string, isLogin: bool, atA: Pc, atB: Pc, lineA: Channel, lineB: Channel,
      forwards: seq<Forwarded>): State {
    State(map[a := User(a, "", isLogin, 0), b := User(b, "", isLogin, 1)],
          [Thread(0, a, atA), Thread(1, b, atB)], [lineA, lineB], forwards)
  }

  function Fresh(sdp: string): Channel { Line(sdp, [Hello], [], true, 0, 0, 0) }

  /** A client's channel with an INVITE on its way; after its listener has answered that; and after it
      has stopped. */
  function Ringing(name: string, from: string, sdp: string): Channel {
    Line(sdp, [Hello, Invite(name, from), Blank], [], true, 1, 0, 0)
  }

  function Answered(sdp: string): Channel { Line(sdp, [Blank], [sdp], true, 1, 1, 0) }

  function Stopped(sdp: string, toServer: seq<string>, passed: nat): Channel {
    Line(sdp, [], toServer, false, 1, 1, passed)
  }

  function Greeted(name: string, from: string, sdp: string): Channel {
    Line(sdp, [Invite(name, from), Blank], [], true, 1, 0, 0)
  }

  /** What the listener makes of its greeting, the INVITE and its blank half. */
  lemma Listens(name: string, from: string, sdp: string)
    ensures Fresh(sdp).SendInvite(true, name, from) == Ringing(name, from, sdp)
    ensures Ringing(name, from, sdp).Listen() == Greeted(name, from, sdp)
    ensures Greeted(name, from, sdp).Listen() == Answered(sdp)
    ensures Answered(sdp).Listen() == Stopped(sdp, [sdp], 0)
    ensures Stopped(sdp, [sdp], 0).Receive() == Stopped(sdp, [], 0)
  {
    assert [Invite(name, from)] + [Blank] == [Invite(name, from), Blank];
    assert [Hello] + [Invite(name, from), Blank] == [Hello, Invite(name, from), Blank];
    assert [Hello, Invite(name, from), Blank][1..] == [Invite(name, from), Blank];
    assert [Invite(name, from), Blank][1..] == [Blank];
    assert [] + [sdp] == [sdp];
    assert [sdp][1..] == [];
  }

  function Connected(x: string): State {
    State(map[], [Thread(0, "", Idle), Thread(-1, "", Idle)], [Fresh(x)], [])
  }

  lemma Connecting(x: string)
    ensures Leads(true, INITIAL, [Accept, Accept, Connect(0, x)], Connected(x))
  {
    LeadsThree(true, INITIAL, Accept, Accept, Connect(0, x));
  }

  lemma SigningUp(a: string, b: string, x: string, y: string)
    requires a != b
    ensures Leads(true, Connected(x), [Connect(1, y), SignUp(0, a, ""), SignUp(1, b, "")],
                  Both(a, b, false, Idle, Idle, Fresh(x), Fresh(y), []))
  {
    LeadsThree(true, Connected(x), Connect(1, y), SignUp(0, a, ""), SignUp(1, b, ""));
  }

  lemma LoggingIn(a: string, b: string, x: string, y: string)
    requires a != b
    ensures Leads(true, Both(a, b, false, Idle, Idle, Fresh(x), Fresh(y), []),
                  [LogIn(0, a, ""), LogIn(1, b, ""), Call(0, b, x)],
                  Both(a, b, true, SawLogin(b, x), Idle, Fresh(x), Fresh(y), []))
  {
    var s := Both(a, b, false, Idle, Idle, Fresh(x), Fresh(y), []);
    var s' := s.(users := map[a := User(a, "", true, 0), b := User(b, "", false, 1)]);
    assert Next(true, s, LogIn(0, a, "")) == s';
    assert Next(true, s', LogIn(1, b, "")) == Both(a, b, true, Idle, Idle, Fresh(x), Fresh(y), []);
    LeadsThree(true, s, LogIn(0, a, ""), LogIn(1, b, ""), Call(0, b, x));
  }

  lemma LookingUp(a: string, b: string, x: string, y: string)
    requires a != b
    ensures Leads(true, Both(a, b, true, SawLogin(b, x), Idle, Fresh(x), Fresh(y), []),
                  [Call(1, a, y), CheckUser(0), CheckUser(1)],
                  Both(a, b, true, SawUser(b, x), SawUser(a, y), Fresh(x), Fresh(y), []))
  {
    LeadsThree(true, Both(a, b, true, SawLogin(b, x), Idle, Fresh(x), Fresh(y), []),
               Call(1, a, y), CheckUser(0), CheckUser(1));
  }

  lemma Ring(a: string, b: string, x: string, y: string)
    requires a != b
    ensures Leads(true, Both(a, b, true, SawUser(b, x), SawUser(a, y), Fresh(x), Fresh(y), []),
                  [FetchUser(0), FetchUser(1), SendInvite(0)],
                  Both(a, b, true, Waiting(1), Inviting(0, a, y), Fresh(x), Ringing(b, x, y), []))
  {
    Listens(b, x, y);
    LeadsThree(true, Both(a, b, true, SawUser(b, x), SawUser(a, y), Fresh(x), Fresh(y), []),
               FetchUser(0), FetchUser(1), SendInvite(0));
  }

  lemma FirstAnswers(a: string, b: string, x: string, y: string)
    requires a != b
    ensures Leads(true, Both(a, b, true, Waiting(1), Inviting(0, a, y), Fresh(x), Ringing(b, x, y), []),
                  [SendInvite(1), Listen(0), Listen(0)],
                  Both(a, b, true, Waiting(1), Waiting(0), Answered(x), Ringing(b, x, y), []))
  {
    Listens(a, y, x);
    var s := Both(a, b, true, Waiting(1), Inviting(0, a, y), Fresh(x), Ringing(b, x, y), []);
    var s1 := Both(a, b, true, Waiting(1), Waiting(0), Ringing(a, y, x), Ringing(b, x, y), []);
    var s2 := Both(a, b, true, Waiting(1), Waiting(0), Greeted(a, y, x), Ringing(b, x, y), []);
    assert Next(true, s, SendInvite(1)) == s1;
    assert Next(true, s1, Listen(0)) == s2;
    LeadsThree(true, s, SendInvite(1), Listen(0), Listen(0));
  }

  lemma SecondAnswers(a: string, b: string, x: string, y: string)
    requires a != b
    ensures Leads(true, Both(a, b, true, Waiting(1), Waiting(0), Answered(x), Ringing(b, x, y), []),
                  [Listen(0), Listen(1), Listen(1)],
                  Both(a, b, true, Waiting(1), Waiting(0), Stopped(x, [x], 0), Answered(y), []))
  {
    Listens(a, y, x);
    Listens(b, x, y);
    var s := Both(a, b, true, Waiting(1), Waiting(0), Answered(x), Ringing(b, x, y), []);
    var s1 := Both(a, b, true, Waiting(1), Waiting(0), Stopped(x, [x], 0), Ringing(b, x, y), []);
    var s2 := Both(a, b, true, Waiting(1), Waiting(0), Stopped(x, [x], 0), Greeted(b, x, y), []);
    assert Next(true, s, Listen(0)) == s1;
    assert Next(true, s1, Listen(1)) == s2;
    LeadsThree(true, s, Listen(0), Listen(1), Listen(1));
  }

  lemma BothReceived(a: string, b: string, x: string, y: string)
    requires a != b
    ensures Leads(true, Both(a, b, true, Waiting(1), Waiting(0), Stopped(x, [x], 0), Answered(y), []),
                  [Listen(1), Receive(0), Receive(1)],
                  Both(a, b, true, Answering(1, y), Answering(0, x), Stopped(x, [], 0), Stopped(y, [], 0), []))
  {
    Listens(a, y, x);
    Listens(b, x, y);
    var s := Both(a, b, true, Waiting(1), Waiting(0), Stopped(x, [x], 0), Answered(y), []);
    var s1 := Both(a, b, true, Waiting(1), Waiting(0), Stopped(x, [x], 0), Stopped(y, [y], 0), []);
    var s2 := Both(a, b, true, Answering(1, y), Waiting(0), Stopped(x, [x], 0), Stopped(y, [], 0), []);
    assert Next(true, s, Listen(1)) == s1;
    assert Next(true, s1, Receive(0)) == s2;
    LeadsThree(true, s, Listen(1), Receive(0), Receive(1));
  }

  /** Where it ends: each answer was passed on, to a listener that had stopped. */
  function Unheard(a: string, b: string, x: string, y: string): State {
    Both(a, b, true, Idle, Idle, Stopped(x, [], 1), Stopped(y, [], 1), [Forwarded(0, 1, y), Forwarded(1, 0, x)])
  }

  lemma BothPassedOn(a: string, b: string, x: string, y: string)
    requires a != b
    ensures Leads(true,
                  Both(a, b, true, Answering(1, y), Answering(0, x), Stopped(x, [], 0), Stopped(y, [], 0), []),
                  [Forward(0)] + [Forward(1)], Unheard(a, b, x, y))
  {
    var s := Both(a, b, true, Answering(1, y), Answering(0, x), Stopped(x, [], 0), Stopped(y, [], 0), []);
    var m := Both(a, b, true, Idle, Answering(0, x), Stopped(x, [], 0), Stopped(y, [], 1), [Forwarded(0, 1, y)]);
    assert Next(true, s, Forward(0)) == m;
    LeadsOne(true, s, Forward(0));
    assert Next(true, m, Forward(1)) == Unheard(a, b, x, y);
    LeadsOne(true, m, Forward(1));
    LeadsOn(true, s, [Forward(0)], m, [Forward(1)], Unheard(a, b, x, y));
  }

  // ---- The whole schedule ----

  /** From nothing to both calls in progress. */
  function Dialling(a: string, b: string, x: string, y: string): seq<Step> {
    [Accept, Accept, Connect(0, x)]
    + [Connect(1, y), SignUp(0, a, ""), SignUp(1, b, "")]
    + [LogIn(0, a, ""), LogIn(1, b, ""), Call(0, b, x)]
    + [Call(1, a, y), CheckUser(0), CheckUser(1)]
  }

  /** From there to both answers passed on. */
  function RingingSteps(): seq<Step> {
    [FetchUser(0), FetchUser(1), SendInvite(0)]
    + [SendInvite(1), Listen(0), Listen(0)]
    + [Listen(0), Listen(1), Listen(1)]
    + [Listen(1), Receive(0), Receive(1)]
    + ([Forward(0)] + [Forward(1)])
  }

  lemma DiallingLeads(a: string, b: string, x: string, y: string)
    requires a != b
    ensures Leads(true, INITIAL, Dialling(a, b, x, y),
                  Both(a, b, true, SawUser(b, x), SawUser(a, y), Fresh(x), Fresh(y), []))
  {
    Connecting(x);
    SigningUp(a, b, x, y);
    LoggingIn(a, b, x, y);
    LookingUp(a, b, x, y);
    var one, two := [Accept, Accept, Connect(0, x)], [Connect(1, y), SignUp(0, a, ""), SignUp(1, b, "")];
    var three, four := [LogIn(0, a, ""), LogIn(1, b, ""), Call(0, b, x)], [Call(1, a, y), CheckUser(0), CheckUser(1)];
    var s2 := Both(a, b, false, Idle, Idle, Fresh(x), Fresh(y), []);
    var s3 := Both(a, b, true, SawLogin(b, x), Idle, Fresh(x), Fresh(y), []);
    LeadsOn(true, INITIAL, one, Connected(x), two, s2);
    LeadsOn(true, INITIAL, one + two, s2, three, s3);
    LeadsOn(true, INITIAL, one + two + three, s3, four,
            Both(a, b, true, SawUser(b, x), SawUser(a, y), Fresh(x), Fresh(y), []));
  }

  lemma AnsweringLeads(a: string, b: string, x: string, y: string)
    requires a != b
    ensures Leads(true, Both(a, b, true, SawUser(b, x), SawUser(a, y), Fresh(x), Fresh(y), []), RingingSteps(),
                  Unheard(a, b, x, y))
  {
    Ring(a, b, x, y);
    FirstAnswers(a, b, x, y);
    SecondAnswers(a, b, x, y);
    BothReceived(a, b, x, y);
    BothPassedOn(a, b, x, y);
    var one, two := [FetchUser(0), FetchUser(1), SendInvite(0)], [SendInvite(1), Listen(0), Listen(0)];
    var three, four := [Listen(0), Listen(1), Listen(1)], [Listen(1), Receive(0), Receive(1)];
    var s := Both(a, b, true, SawUser(b, x), SawUser(a, y), Fresh(x), Fresh(y), []);
    var s1 := Both(a, b, true, Waiting(1), Inviting(0, a, y), Fresh(x), Ringing(b, x, y), []);
    var s2 := Both(a, b, true, Waiting(1), Waiting(0), Answered(x), Ringing(b, x, y), []);
    var s3 := Both(a, b, true, Waiting(1), Waiting(0), Stopped(x, [x], 0), Answered(y), []);
    var s4 := Both(a, b, true, Answering(1, y), Answering(0, x), Stopped(x, [], 0), Stopped(y, [], 0), []);
    LeadsOn(true, s, one, s1, two, s2);
    LeadsOn(true, s, one + two, s2, three, s3);
    LeadsOn(true, s, one + two + three, s3, four, s4);
    LeadsOn(true, s, one + two + three + four, s4, [Forward(0)] + [Forward(1)], Unheard(a, b, x, y));
  }

  /** With two-frame INVITEs two clients that call each other both answer, and the server passes both
      answers on, with no crash and nothing lost; but each listener stopped at the blank half of the
      INVITE it was sent, so neither client hears the answer to its call. */
  lemma CrossedCallsAreNotHeard(a: string, b: string, x: string, y: string)
    requires a != b
    ensures Leads(true, INITIAL, Dialling(a, b, x, y) + RingingSteps(), Unheard(a, b, x, y))
    ensures Stuck(Unheard(a, b, x, y))
    ensures var s := Unheard(a, b, x, y);
      && |s.channels| == 2 && s.forwards == [Forwarded(0, 1, y), Forwarded(1, 0, x)]
      && forall fd :: 0 <= fd < 2 ==>
           var c := s.channels[fd];
           c.invited == c.answered == c.forwarded == 1 && c.lost == c.hungUp == 0 && c.heard == []
  {
    DiallingLeads(a, b, x, y);
    AnsweringLeads(a, b, x, y);
    var s := Both(a, b, true, SawUser(b, x), SawUser(a, y), Fresh(x), Fresh(y), []);
    LeadsOn(true, INITIAL, Dialling(a, b, x, y), s, RingingSteps(), Unheard(a, b, x, y));
    NothingLeftToDo(a, b, x, y);
  }

  lemma NothingLeftToDo(a: string, b: string, x: string, y: string)
    ensures Stuck(Unheard(a, b, x, y))
  {
    var s := Unheard(a, b, x, y);
    forall step | IsProgress(step) ensures !Enabled(s, step) {
      assert forall t: nat :: t < |s.threads| ==> s.threads[t].pc == Idle;
      assert forall fd: nat :: fd < |s.channels| ==> !s.channels[fd].listening;
    }
  }
}
