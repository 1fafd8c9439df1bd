/** The callback cell that keeps the last call it could not deliver and replays it. */
module StoredCallback {
  import opened Text

  /** A function a cell may hold. */
  type Handler = int

  /** What a cell holds, and the calls its functions have received so far, in order. */
  datatype Cell<T> = Cell(callback: Option<Handler>, stored: Option<T>, delivered: seq<(Handler, T)>)

  /** What can be done to a cell. Set is the assignment the base class defines, reached through `set`;
      Assign is the assignment the language generates for the stored variant, from a temporary that
      holds the function: it assigns the base part first and then copies the temporary's stored call,
      of which there is none. */
  datatype Op<T> =
    | Call(arg: T)
    | Set(func: Option<Handler>)
    | Assign(func: Option<Handler>)

  function AfterSet<T>(c: Cell<T>, func: Option<Handler>): Cell<T> {
    if func.Some? && c.stored.Some?
    then Cell(func, None, c.delivered + [(func.value, c.stored.value)])
    else c.(callback := func)
  }

  function Apply<T>(c: Cell<T>, op: Op<T>): Cell<T> {
    match op
    case Call(arg) =>
      if c.callback.Some? then c.(delivered := c.delivered + [(c.callback.value, arg)]) else c.(stored := Some(arg))
    case Set(func) => AfterSet(c, func)
    case Assign(func) => AfterSet(c, func).(stored := None)
  }

  class SynchronizedStoredCallback<T> {
    var callback: Option<Handler>
    var stored: Option<T>
    var delivered: seq<(Handler, T)>   // what the functions have been called with

    function State(): Cell<T>
      reads this
    {
      Cell(callback, stored, delivered)
    }

    constructor (func: Option<Handler>)
      ensures State() == Cell(func, None, [])
    {
      callback, stored, delivered := func, None, [];
    }

    method Invoke(func: Handler, arg: T)
      modifies this`delivered
      ensures State() == old(State()).(delivered := old(delivered) + [(func, arg)])
    {
      delivered := delivered + [(func, arg)];
    }

    /** The base class's call: false, and no effect, when no function is set. */
    method BaseCall(arg: T) returns (done: bool)
      modifies this`delivered
      ensures done == callback.Some?
      ensures State() == if done then Apply(old(State()), Op.Call(arg)) else old(State())
    {
      if callback == None {
        return false;
      }
      Invoke(callback.value, arg);
      done := true;
    }

    method Call(arg: T) returns (done: bool)
      modifies this`delivered, this`stored
      ensures done && State() == Apply(old(State()), Op.Call(arg))
    {
      var called := BaseCall(arg);
      if !called {
        stored := Some(arg);
      }
      done := true;
    }

    method Set(func: Option<Handler>)
      modifies this
      ensures State() == Apply(old(State()), Op.Set(func))
    {
      callback := func;
      if func.Some? && stored.Some? {
        Invoke(func.value, stored.value);
        stored := None;
      }
    }

    method Assign(func: Option<Handler>)
      modifies this
      ensures State() == Apply(old(State()), Op.Assign(func))
    {
      var temporary := new SynchronizedStoredCallback<T>(func);
      Set(temporary.callback);
      stored := temporary.stored;
    }
  }

  // ---- Every trace ----

  function Replay<T>(ops: seq<Op<T>>): Cell<T> {
    if ops == [] then Cell(None, None, []) else Apply(Replay(ops[..|ops| - 1]), ops[|ops| - 1])
  }

  datatype Fate = Delivered(to: Handler) | Overwritten | Discarded | Stored

  /** The function of the last assignment in a trace. */
  function LastSet<T>(ops: seq<Op<T>>): Option<Handler> {
    if ops == [] then None
    else match ops[|ops| - 1]
      case Call(_) => LastSet(ops[..|ops| - 1])
      case Set(func) => func
      case Assign(func) => func
  }

  /** What the next operation does to a call that is waiting to be replayed. */
  function NextFate<T>(op: Op<T>): Fate {
    match op
    case Call(_) => Overwritten
    case Set(func) => if func.Some? then Delivered(func.value) else Stored
    case Assign(func) => if func.Some? then Delivered(func.value) else Discarded
  }

  /** What becomes of the call made at position i, told from the trace alone: delivered at once to the
      function last set, if one is, otherwise whatever the first later operation that settles it does. */
  function FateOf<T>(ops: seq<Op<T>>, i: nat): Fate
    requires i < |ops|
    decreases |ops|
  {
    if i == |ops| - 1 then (if LastSet(ops[..i]).Some? then Delivered(LastSet(ops[..i]).value) else Stored)
    else
      var before := FateOf(ops[..|ops| - 1], i);
      if before == Stored then NextFate(ops[|ops| - 1]) else before
  }

  /** The delivered among the first n calls, in the order made, each with the function that received it. */
  function Deliveries<T>(ops: seq<Op<T>>, n: nat): seq<(Handler, T)>
    requires n <= |ops|
  {
    if n == 0 then []
    else if ops[n - 1].Call? && FateOf(ops, n - 1).Delivered?
    then Deliveries(ops, n - 1) + [(FateOf(ops, n - 1).to, ops[n - 1].arg)]
    else Deliveries(ops, n - 1)
  }

  /** Position i holds the one call that waits. */
  ghost predicate Waits<T(!new)>(ops: seq<Op<T>>, i: nat) {
    && i < |ops| && ops[i].Call? && FateOf(ops, i) == Stored
    && forall j :: i < j < |ops| ==> !ops[j].Call?
  }

  /** The accounts of a cell after a trace. */
  ghost predicate Accounted<T(!new)>(ops: seq<Op<T>>) {
    var c := Replay(ops);
    && c.callback == LastSet(ops)
    && (c.callback.Some? ==> c.stored == None)
    && c.delivered == Deliveries(ops, |ops|)
    && (forall i :: 0 <= i < |ops| && ops[i].Call? && FateOf(ops, i) == Stored ==>
          Waits(ops, i) && c.stored == Some(ops[i].arg))
    && (c.stored.Some? ==> exists i :: 0 <= i < |ops| && ops[i].Call? && FateOf(ops, i) == Stored)
  }

  lemma PrefixOfSnoc<T>(p: seq<Op<T>>, op: Op<T>)
    ensures (p + [op])[..|p|] == p
  {
  }

  lemma FateSnoc<T>(p: seq<Op<T>>, op: Op<T>, i: nat)
    requires i <= |p|
    ensures i < |p| ==> FateOf(p + [op], i) == if FateOf(p, i) == Stored then NextFate(op) else FateOf(p, i)
    ensures i == |p| ==> FateOf(p + [op], i) == if LastSet(p).Some? then Delivered(LastSet(p).value) else Stored
  {
    PrefixOfSnoc(p, op);
  }

  /** An operation that replays none of the first n operations' calls leaves what was delivered of them. */
  lemma {:induction false} SameDeliveries<T>(p: seq<Op<T>>, op: Op<T>, n: nat)
    requires n <= |p|
    requires forall i :: 0 <= i < n && p[i].Call? && FateOf(p, i) == Stored ==> !NextFate(op).Delivered?
    ensures Deliveries(p + [op], n) == Deliveries(p, n)
  {
    if n > 0 {
      SameDeliveries(p, op, n - 1);
      FateSnoc(p, op, n - 1);
    }
  }

  /** One that replays the call at position s adds exactly that call, at the end, for the function it sets. */
  lemma {:induction false} ReplayedDelivery<T(!new)>(p: seq<Op<T>>, op: Op<T>, s: nat, n: nat)
    requires s < n <= |p| && Waits(p, s) && NextFate(op).Delivered?
    requires forall i :: 0 <= i < |p| && p[i].Call? && FateOf(p, i) == Stored ==> Waits(p, i)
    ensures Deliveries(p + [op], n) == Deliveries(p, n) + [(NextFate(op).to, p[s].arg)]
  {
    FateSnoc(p, op, n - 1);
    if n == s + 1 {
      assert forall i :: 0 <= i < s && p[i].Call? && FateOf(p, i) == Stored ==> Waits(p, i) && !p[s].Call?;
      SameDeliveries(p, op, s);
    } else {
      ReplayedDelivery(p, op, s, n - 1);
    }
  }

  lemma CallAccounted<T(!new)>(p: seq<Op<T>>, arg: T)
    requires Accounted(p)
    ensures Accounted(p + [Call(arg)])
  {
    var op := Op.Call(arg);
    var ops, c := p + [op], Replay(p);
    PrefixOfSnoc(p, op);
    forall i | 0 <= i <= |p|
      ensures i < |p| ==> FateOf(ops, i) == if FateOf(p, i) == Stored then NextFate(op) else FateOf(p, i)
      ensures i == |p| ==> FateOf(ops, i) == if LastSet(p).Some? then Delivered(LastSet(p).value) else Stored {
      FateSnoc(p, op, i);
    }
    SameDeliveries(p, op, |p|);
    assert ops[|p|] == op;
  }

  lemma AssignmentAccounted<T(!new)>(p: seq<Op<T>>, op: Op<T>)
    requires Accounted(p) && !op.Call?
    ensures Accounted(p + [op])
  {
    var ops, c := p + [op], Replay(p);
    PrefixOfSnoc(p, op);
    forall i | 0 <= i < |p|
      ensures FateOf(ops, i) == if FateOf(p, i) == Stored then NextFate(op) else FateOf(p, i) {
      FateSnoc(p, op, i);
    }
    if op.func.Some? && c.stored.Some? {
      var s :| 0 <= s < |p| && p[s].Call? && FateOf(p, s) == Stored;
      ReplayedDelivery(p, op, s, |p|);
    } else {
      SameDeliveries(p, op, |p|);
    }
    assert ops[|p|] == op;
    assert forall i :: 0 <= i < |p| ==> ops[i] == p[i];
    forall i | 0 <= i < |ops| && ops[i].Call? && FateOf(ops, i) == Stored
      ensures Waits(ops, i) && Replay(ops).stored == Some(ops[i].arg) {
      assert Waits(p, i);
    }
  }

  /** After any trace of calls and assignments: the cell's function is the one last assigned, and
      with a function it holds no stored call; the calls delivered are, in order and once each, those
      whose fate is delivery, each with its argument to the function last assigned before it or to the one
      whose assignment replayed it; and the stored call is the one that still waits. Every call thus is
      delivered, overwritten by a later missed call, discarded by an assignment, or still stored. */
  lemma {:induction false} EveryCallAccounted<T(!new)>(ops: seq<Op<T>>)
    ensures Accounted(ops)
  {
    if ops != [] {
      var p, op := ops[..|ops| - 1], ops[|ops| - 1];
      EveryCallAccounted(p);
      assert ops == p + [op];
      if op.Call? {
        CallAccounted(p, op.arg);
      } else {
        AssignmentAccounted(p, op);
      }
    }
  }

  /** No function is set when call i is made, and from then until position j the cell is only cleared
      through `set`. */
  predicate WaitsUntil<T(==)>(ops: seq<Op<T>>, i: nat, j: nat)
    requires i < j <= |ops|
  {
    LastSet(ops[..i]) == None && forall k :: i < k < j ==> ops[k] == Set(None)
  }

  /** A call still waits exactly when it was missed and nothing but clearing through `set` came since. */
  lemma {:induction false} StoredIff<T(!new)>(ops: seq<Op<T>>, i: nat)
    requires i < |ops|
    ensures FateOf(ops, i) == Stored <==> WaitsUntil(ops, i, |ops|)
  {
    if i < |ops| - 1 {
      var p := ops[..|ops| - 1];
      StoredIff(p, i);
      assert p[..i] == ops[..i];
    }
  }

  /** Function h is in place exactly when some assignment set it and none came later. */
  lemma {:induction false} LastSetIff<T(!new)>(ops: seq<Op<T>>, h: Handler)
    ensures LastSet(ops) == Some(h)
       <==> exists j :: 0 <= j < |ops| && SetLast(ops, h, j)
  {
    if ops != [] {
      var n := |ops| - 1;
      var p := ops[..n];
      LastSetIff(p, h);
      forall j | 0 <= j < n ensures SetLast(ops, h, j) <==> SetLast(p, h, j) && ops[n].Call? {
        assert forall k :: j <= k < n ==> p[k] == ops[k];
      }
      assert SetLast(ops, h, n) <==> ops[n] == Set(Some(h)) || ops[n] == Assign(Some(h));
    }
  }

  /** Operation j is the last assignment, and sets h. */
  ghost predicate SetLast<T(!new)>(ops: seq<Op<T>>, h: Handler, j: nat)
    requires j < |ops|
  {
    (ops[j] == Set(Some(h)) || ops[j] == Assign(Some(h))) && forall k :: j < k < |ops| ==> ops[k].Call?
  }

  /** Call i is delivered to h exactly when h was in place, or when it was missed and the first thing
      after it, other than clearing through `set`, is an assignment of h. */
  lemma {:induction false} DeliveredIff<T(!new)>(ops: seq<Op<T>>, i: nat, h: Handler)
    requires i < |ops|
    ensures FateOf(ops, i) == Delivered(h)
       <==> LastSet(ops[..i]) == Some(h)
            || exists j :: i < j < |ops| && WaitsUntil(ops, i, j)
                           && (ops[j] == Set(Some(h)) || ops[j] == Assign(Some(h)))
  {
    if i < |ops| - 1 {
      var n := |ops| - 1;
      var p := ops[..n];
      DeliveredIff(p, i, h);
      StoredIff(p, i);
      assert p[..i] == ops[..i];
      forall j | i < j <= n ensures WaitsUntil(p, i, j) <==> WaitsUntil(ops, i, j) {
        assert forall k :: i < k < j ==> p[k] == ops[k];
      }
      assert forall j :: i < j < n ==> p[j] == ops[j];
    }
  }

  /** Call i is lost to an assignment exactly when it was missed and the first thing after it, other
      than clearing through `set`, is an assignment that clears: a cell cleared twice drops its call. */
  lemma {:induction false} DiscardedIff<T(!new)>(ops: seq<Op<T>>, i: nat)
    requires i < |ops|
    ensures FateOf(ops, i) == Discarded
       <==> exists j :: i < j < |ops| && ops[j] == Assign(None) && WaitsUntil(ops, i, j)
  {
    if i < |ops| - 1 {
      var n := |ops| - 1;
      var p := ops[..n];
      DiscardedIff(p, i);
      StoredIff(p, i);
      assert p[..i] == ops[..i];
      forall j | i < j <= n ensures WaitsUntil(p, i, j) <==> WaitsUntil(ops, i, j) {
        assert forall k :: i < k < j ==> p[k] == ops[k];
      }
      assert forall j :: i < j < n ==> p[j] == ops[j];
    }
  }

  /** The smallest such trace: a call nobody takes, then a second clearing of the cell. */
  lemma ClearingTwiceLosesACall<T>(arg: T)
    ensures Replay([Call(arg)]).stored == Some(arg)
    ensures Replay([Call(arg), Set(None)]).stored == Some(arg)
    ensures Replay([Call(arg), Assign(None)]) == Cell(None, None, [])
  {
    var one := [Op.Call(arg)];
    assert one[..0] == [];
    assert [Op.Call(arg), Op.Set(None)][..1] == one;
    assert [Op.Call(arg), Op.Assign(None)][..1] == one;
  }
}
