/** Every run of an RPC connection can be brought to an orderly close. */
module ServerClose {
  import opened Options
  import opened ServerRuns

  lemma RunSnoc(timed: bool, es: seq<Event>, e: Event)
    requires Run(timed, es).Some? && Enabled(timed, Run(timed, es).value, e)
    ensures Run(timed, es + [e]) == Some(Next(timed, Run(timed, es).value, e))
  {
    assert (es + [e])[..|es|] == es;
  }

  function Steps(h: Handler): nat {
    match h.main
    case Selecting => if h.worker == Working then 7 else 6
    case TimedOut => 3
    case Writing => 2
    case AwaitingSent => if h.worker == Responding then 5 else if h.worker == Replying then 4 else 3
    case Leaving => 1
    case Left => 0
  }

  /** How far a handler is from leaving, and whether it may have to wait for the lock. */
  function Toll(s: State, id: nat): nat {
    (if id in s.handlers then 2 * Steps(s.handlers[id]) else 0) + if s.sending == Free then 0 else 1
  }

  /** A step that brings the handler nearer to leaving. */
  predicate Helps(timed: bool, s: State, e: Event, id: nat) {
    && Enabled(timed, s, e) && !e.Accept?
    && var s' := Next(timed, s, e);
       id in s'.handlers && s'.loop == s.loop && Toll(s', id) < Toll(s, id)
  }

  lemma OwnHelps(timed: bool, s: State, e: Event, id: nat)
    requires Enabled(timed, s, e) && id in s.handlers
    requires e == Leave(id) || e == Called(id) || e == Sent(id)
             || (e == Return(id, true) && s.handlers[id].main == Selecting)
    ensures Helps(timed, s, e, id)
  {
  }

  lemma HeadHelps(timed: bool, s: State, e: Event, id: nat)
    requires Enabled(timed, s, e) && id in s.handlers
    requires e == TimeoutHead(id) || (e == ReplyHead(id) && s.handlers[id].main == AwaitingSent)
    ensures Helps(timed, s, e, id)
  {
  }

  lemma BodyHelps(timed: bool, s: State, e: Event, id: nat)
    requires Enabled(timed, s, e) && id in s.handlers && s.sending != Free
    requires e.TimeoutBody? || (e.ReplyBody? && s.handlers[e.id].main == AwaitingSent)
    ensures Helps(timed, s, e, id)
  {
  }

  /** While the loop drains, a handler that has not left, or the holder of the lock it waits for, can take a step
      towards its leaving. */
  lemma TowardsLeaving(timed: bool, s: State, id: nat) returns (e: Event)
    requires Inv(s) && s.loop == Draining && id in s.handlers && s.handlers[id].main != Left
    ensures Helps(timed, s, e, id)
  {
    hide Written, BadOk, Helps;
    var h := s.handlers[id];
    assert HandlerOk(s, id);
    assert id in Busy(s) && 0 < s.wg;
    if h.main == Leaving {
      e := Leave(id);
      OwnHelps(timed, s, e, id);
    } else if h.main == Selecting {
      e := if h.worker == Working then Return(id, true) else Called(id);
      OwnHelps(timed, s, e, id);
    } else if h.main == AwaitingSent && h.worker == OffersSent {
      e := Sent(id);
      OwnHelps(timed, s, e, id);
    } else if s.sending == Free {
      e := if h.main == TimedOut then TimeoutHead(id) else ReplyHead(id);
      HeadHelps(timed, s, e, id);
    } else {
      e := HolderEnds(timed, s);
      BodyHelps(timed, s, e, id);
    }
  }

  lemma HolderEnds(timed: bool, s: State) returns (e: Event)
    requires Inv(s) && s.loop == Draining && s.sending != Free
    ensures Enabled(timed, s, e)
    ensures e.TimeoutBody? || (e.ReplyBody? && s.handlers[e.id].main == AwaitingSent)
  {
    hide Written, BadOk, Busy;
    match s.sending
    case ByMain(o) => { assert HandlerOk(s, o); return TimeoutBody(o); }
    case ByWorker(o) => { assert HandlerOk(s, o); return ReplyBody(o); }
  }

  lemma BusyShrinks(timed: bool, s: State, e: Event)
    requires Enabled(timed, s, e) && !e.Accept?
    ensures Busy(Next(timed, s, e)) <= Busy(s)
  {
    hide Next, Enabled, IsBusy;
    forall id | id in Busy(Next(timed, s, e)) ensures id in Busy(s) {
      BusyChange(timed, s, e, id);
      BusyIs(s);
      BusyIs(Next(timed, s, e));
    }
  }

  lemma {:induction false} OneLeaves(timed: bool, es: seq<Event>, id: nat) returns (more: seq<Event>)
    requires Run(timed, es).Some? && Run(timed, es).value.loop == Draining && id in Run(timed, es).value.handlers
    ensures Run(timed, es + more).Some? && Run(timed, es + more).value.loop == Draining
    ensures Busy(Run(timed, es + more).value) <= Busy(Run(timed, es).value) - {id}
    decreases Toll(Run(timed, es).value, id)
  {
    hide Run, Next, Enabled, Inv, Toll;
    var s := Run(timed, es).value;
    if s.handlers[id].main == Left {
      BusyIs(s);
      assert es + [] == es;
      return [];
    }
    RunInv(timed, es);
    var e := TowardsLeaving(timed, s, id);
    RunSnoc(timed, es, e);
    BusyShrinks(timed, s, e);
    var rest := OneLeaves(timed, es + [e], id);
    more := [e] + rest;
    assert es + more == es + [e] + rest;
  }

  lemma {:induction false} AllLeave(timed: bool, es: seq<Event>) returns (more: seq<Event>)
    requires Run(timed, es).Some? && Run(timed, es).value.loop == Draining
    ensures Run(timed, es + more).Some? && Run(timed, es + more).value.loop == Draining
    ensures Busy(Run(timed, es + more).value) == {}
    decreases |Busy(Run(timed, es).value)|
  {
    hide Run, Next, Enabled, Inv, Toll;
    var s := Run(timed, es).value;
    if Busy(s) == {} {
      assert es + [] == es;
      return [];
    }
    var id :| id in Busy(s);
    BusyIs(s);
    var first := OneLeaves(timed, es, id);
    Smaller(Busy(Run(timed, es + first).value), Busy(s), id);
    var rest := AllLeave(timed, es + first);
    more := first + rest;
    assert es + more == es + first + rest;
  }

  lemma Smaller(a: set<nat>, b: set<nat>, x: nat)
    requires a <= b - {x} && x in b
    ensures |a| < |b|
  {
    var rest := b - {x} - a;
    assert b == a + rest + {x} && a !! rest;
    assert |b| == |a| + |rest| + 1;
  }

  /** How far the loop is from reading the next request. */
  function Wait(s: State): nat {
    if !s.loop.Rejecting? then 0
    else if s.sending == Free then 2
    else if s.sending.ByLoop? then 1
    else 3
  }

  lemma TowardsReading(timed: bool, s: State) returns (e: Event)
    requires Inv(s) && s.loop.Rejecting?
    ensures Enabled(timed, s, e)
    ensures var s' := Next(timed, s, e); Wait(s') < Wait(s) && (s'.loop.Rejecting? || s'.loop == Reading)
  {
    hide Written, BadOk;
    match s.sending
    case Free => return RejectHead;
    case ByLoop(o) => return RejectBody;
    case ByMain(o) => { assert HandlerOk(s, o); return TimeoutBody(o); }
    case ByWorker(o) => { assert HandlerOk(s, o); return ReplyBody(o); }
  }

  lemma {:induction false} LoopReads(timed: bool, es: seq<Event>) returns (more: seq<Event>)
    requires Run(timed, es).Some? && (Run(timed, es).value.loop.Rejecting? || Run(timed, es).value.loop == Reading)
    ensures Run(timed, es + more).Some? && Run(timed, es + more).value.loop == Reading
    decreases Wait(Run(timed, es).value)
  {
    hide Run, Next, Enabled, Inv, Wait;
    var s := Run(timed, es).value;
    if s.loop == Reading {
      assert es + [] == es;
      return [];
    }
    RunInv(timed, es);
    var e := TowardsReading(timed, s);
    RunSnoc(timed, es, e);
    var rest := LoopReads(timed, es + [e]);
    more := [e] + rest;
    assert es + more == es + [e] + rest;
  }

  lemma HangUpDrains(timed: bool, s: State)
    requires s.loop == Reading
    ensures Enabled(timed, s, HangUp) && Next(timed, s, HangUp).loop == Draining
  {
  }

  lemma CloseCloses(timed: bool, s: State)
    requires Inv(s) && s.loop == Draining && Busy(s) == {}
    ensures Enabled(timed, s, Close) && Next(timed, s, Close).loop == Closed
  {
  }

  /** From every reachable state some interleaving closes the connection, and then every request has its
      response: no order of events leaves a handler, the loop or the lock stuck. */
  lemma CanClose(timed: bool, es: seq<Event>) returns (more: seq<Event>)
    requires Run(timed, es).Some?
    ensures Run(timed, es + more).Some? && Run(timed, es + more).value.loop == Closed
  {
    hide Run, Next, Enabled, Inv;
    if Run(timed, es).value.loop == Closed {
      assert es + [] == es;
      return [];
    }
    var a := [];
    if Run(timed, es).value.loop != Draining {
      var first := LoopReads(timed, es);
      HangUpDrains(timed, Run(timed, es + first).value);
      RunSnoc(timed, es + first, HangUp);
      a := first + [HangUp];
      assert es + a == es + first + [HangUp];
    } else {
      assert es + a == es;
    }
    var b := AllLeave(timed, es + a);
    RunInv(timed, es + a + b);
    CloseCloses(timed, Run(timed, es + a + b).value);
    RunSnoc(timed, es + a + b, Close);
    more := a + b + [Close];
    assert es + more == es + a + b + [Close];
  }

  /** Without a time limit no timer fires, so every request is answered with what its method returned. */
  lemma {:induction false} NoLimitNoTimeout(es: seq<Event>, id: nat)
    requires Run(false, es).Some?
    ensures Timer(id) !in es
    decreases |es|
  {
    if es != [] {
      NoLimitNoTimeout(es[..|es| - 1], id);
      assert es == es[..|es| - 1] + [es[|es| - 1]];
    }
  }

  // ---------- both answers can come about ----------

  /** The select has gone to the method. */
  predicate InTime(s: State, id: nat) { id in s.handlers && !s.handlers[id].late && s.handlers[id].main != Selecting }

  lemma InTimeKept(timed: bool, s: State, e: Event, id: nat)
    requires Enabled(timed, s, e) && InTime(s, id)
    ensures InTime(Next(timed, s, e), id)
  {
  }

  lemma {:induction false} StaysInTime(timed: bool, es: seq<Event>, more: seq<Event>, id: nat)
    requires Run(timed, es).Some? && InTime(Run(timed, es).value, id) && Run(timed, es + more).Some?
    ensures InTime(Run(timed, es + more).value, id)
    decreases |more|
  {
    hide Next, Enabled, InTime;
    if more == [] {
      assert es + more == es;
    } else {
      var init, e := more[..|more| - 1], more[|more| - 1];
      assert (es + more)[..|es + more| - 1] == es + init;
      StaysInTime(timed, es, init, id);
      InTimeKept(timed, Run(timed, es + init).value, e, id);
    }
  }

  /** With a time limit, a request that still waits for its method can end with the timeout response. */
  lemma CanTimeOut(es: seq<Event>, id: nat) returns (more: seq<Event>)
    requires Run(true, es).Some? && MainAt(Run(true, es).value, id, Selecting)
    ensures Run(true, es + more).Some? && Run(true, es + more).value.loop == Closed
    ensures Written(Run(true, es + more).value.log, id) == [Head(id, TimeoutError), Body(id, false)]
  {
    hide Run, Written;
    RunSnoc(true, es, Timer(id));
    var rest := CanClose(true, es + [Timer(id)]);
    more := [Timer(id)] + rest;
    assert es + more == es + [Timer(id)] + rest;
    RunTracked(true, es + more, id);
    ClosedAfterAll(true, es + more, id);
  }

  lemma CallReturns(timed: bool, es: seq<Event>, id: nat, ok: bool)
    requires Run(timed, es).Some?
    requires MainAt(Run(timed, es).value, id, Selecting) && WorkerAt(Run(timed, es).value, id, Working)
    ensures Run(timed, es + [Return(id, ok), Called(id)]).Some?
    ensures InTime(Run(timed, es + [Return(id, ok), Called(id)]).value, id)
  {
    hide Run, HandlerOk;
    RunInv(timed, es);
    SelectingInTime(Run(timed, es).value, id);
    RunSnoc(timed, es, Return(id, ok));
    RunSnoc(timed, es + [Return(id, ok)], Called(id));
    assert es + [Return(id, ok)] + [Called(id)] == es + [Return(id, ok), Called(id)];
  }

  lemma SelectingInTime(s: State, id: nat)
    requires MainAt(s, id, Selecting) && HandlerOk(s, id)
    ensures !s.handlers[id].late
  {
  }

  /** A request whose method is still at work can end with whatever the method comes to return. */
  lemma CanAnswer(timed: bool, es: seq<Event>, id: nat, ok: bool) returns (more: seq<Event>)
    requires Run(timed, es).Some?
    requires MainAt(Run(timed, es).value, id, Selecting) && WorkerAt(Run(timed, es).value, id, Working)
    ensures Run(timed, es + more).Some? && Run(timed, es + more).value.loop == Closed
    ensures Written(Run(timed, es + more).value.log, id) == [Head(id, if ok then NoError else CallFailed), Body(id, ok)]
  {
    hide Run, Written;
    CallReturns(timed, es, id, ok);
    var es' := es + [Return(id, ok), Called(id)];
    var rest := CanClose(timed, es');
    StaysInTime(timed, es', rest, id);
    more := [Return(id, ok), Called(id)] + rest;
    assert es + more == es' + rest;
    assert (es' + rest)[|es|] == Return(id, ok);
    RunTracked(timed, es + more, id);
    ClosedAfterAll(timed, es + more, id);
  }
}
