/** The three look-ups of a call against everything else that happens to the callee's account. */
module RelayCalls {
  import opened Accounts
  import opened Relay
  import opened RelaySafety
  import opened RelayRuns

  // ---- What the look-ups saw ----

  /** Step k is the last CALL that thread u took up, and this is what it asked for. */
  ghost predicate LastCall(steps: seq<Step>, u: nat, k: nat, callee: string, sdp: string) {
    && k < |steps| && steps[k] == Call(u, callee, sdp)
    && forall i :: k < i < |steps| ==> !(steps[i].Call? && steps[i].t == u)
  }

  /** The thread is between the look-ups of this call, or about to send its INVITE. */
  predicate Calling(s: State, u: nat, callee: string, sdp: string) {
    && u < |s.threads|
    && var pc := s.threads[u].pc;
    && (pc.SawLogin? || pc.SawUser? || pc.Inviting?)
    && pc.callee == callee && pc.sdp == sdp
  }

  lemma CallingStep(strict: bool, s: State, step: Step, u: nat, callee: string, sdp: string)
    requires Enabled(s, step) && Calling(Next(strict, s, step), u, callee, sdp)
    ensures if step.Call? && step.t == u then step.callee == callee && step.sdp == sdp && IsLogin(s.users, callee)
            else Calling(s, u, callee, sdp)
  {
  }

  /** Step k was the last CALL that thread u took up, and the callee was logged in then. */
  ghost predicate TookUp(strict: bool, steps: seq<Step>, u: nat, k: nat, callee: string, sdp: string) {
    && LastCall(steps, u, k, callee, sdp)
    && CanRun(strict, INITIAL, steps[..k]) && IsLogin(After(strict, INITIAL, steps[..k]).users, callee)
  }

  lemma TookUpBefore(strict: bool, p: seq<Step>, step: Step, u: nat, k: nat, callee: string, sdp: string)
    requires TookUp(strict, p, u, k, callee, sdp) && !(step.Call? && step.t == u)
    ensures TookUp(strict, p + [step], u, k, callee, sdp)
  {
    assert (p + [step])[..k] == p[..k];
  }

  /** A thread that is calling took up its CALL at some step. */
  lemma {:induction false} CallWasSeen(strict: bool, steps: seq<Step>, u: nat, callee: string, sdp: string)
      returns (k: nat)
    requires CanRun(strict, INITIAL, steps) && Calling(After(strict, INITIAL, steps), u, callee, sdp)
    ensures TookUp(strict, steps, u, k, callee, sdp)
  {
    assert steps != [];
    var n := |steps| - 1;
    var p, step := steps[..n], steps[n];
    CallingStep(strict, After(strict, INITIAL, p), step, u, callee, sdp);
    if step.Call? && step.t == u {
      k := n;
    } else {
      k := CallWasSeen(strict, p, u, callee, sdp);
      TookUpBefore(strict, p, step, u, k, callee, sdp);
      assert steps == p + [step];
    }
  }

  lemma {:induction false} StoreOpsGrow(steps: seq<Step>, k: nat)
    requires k <= |steps|
    ensures StoreOps(steps[..k]) <= StoreOps(steps)
  {
    if k == |steps| {
      assert steps[..k] == steps;
    } else {
      var n := |steps| - 1;
      assert steps[..n][..k] == steps[..k];
      StoreOpsGrow(steps[..n], k);
    }
  }

  /** The look-ups of a call are separate steps, so it may invite a callee who has logged out since.
      Exactly then: among the requests made after the CALL some SIGNUP or LOGOUT touched the callee and
      no LOGIN with the password it then had came after the last of them. */
  lemma {:induction false} InvitedLoggedOutIff(strict: bool, steps: seq<Step>, u: nat) returns (k: nat)
    requires CanRun(strict, INITIAL, steps) && Enabled(After(strict, INITIAL, steps), SendInvite(u))
    ensures var s, ops := After(strict, INITIAL, steps), StoreOps(steps);
      var callee := s.threads[u].pc.callee;
      && LastCall(steps, u, k, callee, s.threads[u].pc.sdp)
      && StoreOps(steps[..k]) <= ops
      && callee in s.users
      && (!IsLogin(s.users, callee)
          <==> exists i :: LoggedOutBy(ops, |StoreOps(steps[..k])|, callee, s.users[callee].password, i))
  {
    var pc := After(strict, INITIAL, steps).threads[u].pc;
    k := CallWasSeen(strict, steps, u, pc.callee, pc.sdp);
    var callee, ops, from := pc.callee, StoreOps(steps), StoreOps(steps[..k]);
    StoreOpsGrow(steps, k);
    assert ops[..|from|] == from;
    TableIsHistory(strict, steps);
    TableIsHistory(strict, steps[..k]);
    LogInLasts(ops, |from|, callee);
  }

  // ---- It happens ----

  /** The schedule can be followed from s and leads to s'. */
  predicate Leads(strict: bool, s: State, steps: seq<Step>, s': State) {
    CanRun(strict, s, steps) && After(strict, s, steps) == s'
  }

  lemma LeadsOne(strict: bool, s: State, step: Step)
    requires Enabled(s, step)
    ensures Leads(strict, s, [step], Next(strict, s, step))
  {
    assert [step][..0] == [];
  }

  lemma LeadsSnoc(strict: bool, s: State, a: seq<Step>, m: State, step: Step)
    requires Leads(strict, s, a, m) && Enabled(m, step)
    ensures Leads(strict, s, a + [step], Next(strict, m, step))
  {
    assert (a + [step])[..|a|] == a;
  }

  lemma {:induction false} LeadsOn(strict: bool, s: State, a: seq<Step>, m: State, b: seq<Step>, s': State)
    requires Leads(strict, s, a, m) && Leads(strict, m, b, s')
    ensures Leads(strict, s, a + b, s')
  {
    if b == [] {
      assert a + b == a;
    } else {
      var k := |b| - 1;
      var before := After(strict, m, b[..k]);
      LeadsOn(strict, s, a, m, b[..k], before);
      LeadsSnoc(strict, s, a + b[..k], before, b[k]);
      assert a + b[..k] + [b[k]] == a + b;
    }
  }

  lemma LeadsThree(strict: bool, s: State, a: Step, b: Step, c: Step)
    requires Enabled(s, a)
    requires Enabled(Next(strict, s, a), b)
    requires Enabled(Next(strict, Next(strict, s, a), b), c)
    ensures Leads(strict, s, [a, b, c], Next(strict, Next(strict, Next(strict, s, a), b), c))
  {
    var s1 := Next(strict, s, a);
    var s2 := Next(strict, s1, b);
    LeadsOne(strict, s, a);
    LeadsOne(strict, s1, b);
    LeadsOne(strict, s2, c);
    LeadsOn(strict, s, [a], s1, [b], s2);
    LeadsOn(strict, s, [a] + [b], s2, [c], Next(strict, s2, c));
    assert [a] + [b] + [c] == [a, b, c];
  }

  function Greeted(): Channel { Channel([Hello], [], true, "", 0, 0, 0, 0, 0, []) }

  function WithCallee(name: string, password: string, isLogin: bool, calleeName: string, caller: Pc): State {
    State(map[name := User(name, password, isLogin, 0)],
          [Thread(0, calleeName, Idle), Thread(-1, "", caller)], [Greeted()], [])
  }

  lemma CalleeConnects(strict: bool)
    ensures Leads(strict, INITIAL, [Accept, Accept, Connect(0, "")],
                  State(map[], [Thread(0, "", Idle), Thread(-1, "", Idle)], [Greeted()], []))
  {
    LeadsThree(strict, INITIAL, Accept, Accept, Connect(0, ""));
  }

  lemma CalleeIsCalled(strict: bool, name: string, password: string, sdp: string)
    ensures Leads(strict, State(map[], [Thread(0, "", Idle), Thread(-1, "", Idle)], [Greeted()], []),
                  [SignUp(0, name, password), LogIn(0, name, password), Call(1, name, sdp)],
                  WithCallee(name, password, true, name, SawLogin(name, sdp)))
  {
    var s := State(map[], [Thread(0, "", Idle), Thread(-1, "", Idle)], [Greeted()], []);
    assert Next(strict, s, SignUp(0, name, password)) == WithCallee(name, password, false, name, Idle);
    assert Next(strict, WithCallee(name, password, false, name, Idle), LogIn(0, name, password))
        == WithCallee(name, password, true, name, Idle);
    LeadsThree(strict, s, SignUp(0, name, password), LogIn(0, name, password), Call(1, name, sdp));
  }

  lemma CalleeLogsOut(strict: bool, name: string, password: string, sdp: string)
    ensures Leads(strict, WithCallee(name, password, true, name, SawLogin(name, sdp)),
                  [Step.LogOut(0, -1), CheckUser(1), FetchUser(1)],
                  WithCallee(name, password, false, name, Inviting(0, name, sdp)))
  {
    var s := WithCallee(name, password, true, name, SawLogin(name, sdp));
    assert Next(strict, s, Step.LogOut(0, -1)) == WithCallee(name, password, false, name, SawLogin(name, sdp));
    assert Next(strict, WithCallee(name, password, false, name, SawLogin(name, sdp)), CheckUser(1))
        == WithCallee(name, password, false, name, SawUser(name, sdp));
    LeadsThree(strict, s, Step.LogOut(0, -1), CheckUser(1), FetchUser(1));
  }

  /** A callee signs up and logs in; a caller asks for it; the callee logs out before the second look-up.
      The caller still sends it the INVITE and waits for its answer. */
  lemma CallOutlivesLogOut(strict: bool, name: string, password: string, sdp: string)
    ensures var steps := [Accept, Accept, Connect(0, "")]
                         + [SignUp(0, name, password), LogIn(0, name, password), Call(1, name, sdp)]
                         + [Step.LogOut(0, -1), CheckUser(1), FetchUser(1)];
      && CanRun(strict, INITIAL, steps)
      && var s := After(strict, INITIAL, steps);
      && name in s.users && !IsLogin(s.users, name) && Enabled(s, SendInvite(1))
      && var s' := Next(strict, s, SendInvite(1));
      && s'.threads[1].pc == Waiting(0) && |s'.channels| == 1 && Invite(name, sdp) in s'.channels[0].toClient
  {
    CalleeConnects(strict);
    CalleeIsCalled(strict, name, password, sdp);
    CalleeLogsOut(strict, name, password, sdp);
    var a := [Accept, Accept, Connect(0, "")];
    var b := [SignUp(0, name, password), LogIn(0, name, password), Call(1, name, sdp)];
    var c := [Step.LogOut(0, -1), CheckUser(1), FetchUser(1)];
    var m := WithCallee(name, password, true, name, SawLogin(name, sdp));
    var s := WithCallee(name, password, false, name, Inviting(0, name, sdp));
    LeadsOn(strict, INITIAL, a, State(map[], [Thread(0, "", Idle), Thread(-1, "", Idle)], [Greeted()], []), b, m);
    LeadsOn(strict, INITIAL, a + b, m, c, s);
    InviteArrives(strict, s);
  }

  lemma InviteArrives(strict: bool, s: State)
    requires |s.threads| == 2 && s.threads[1].pc.Inviting? && s.threads[1].pc.to == 0 && s.channels == [Greeted()]
    ensures var pc, s' := s.threads[1].pc, Next(strict, s, SendInvite(1));
      s'.threads[1].pc == Waiting(0) && |s'.channels| == 1 && Invite(pc.callee, pc.sdp) in s'.channels[0].toClient
  {
    var pc := s.threads[1].pc;
    var c := Greeted().SendInvite(strict, pc.callee, pc.sdp);
    assert c.toClient[1] == Invite(pc.callee, pc.sdp);
  }
}
