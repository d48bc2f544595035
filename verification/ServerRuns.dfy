/** Every interleaving of the goroutines that serve one RPC connection. */
module ServerRuns {
  import opened Options

  /** What `req.h.Error` holds. */
  datatype Note = NoError | CallFailed | TimeoutError | BadRequest

  /** A response goes out as a header and a body, under the `sending` lock. */
  datatype Piece = Head(id: nat, note: Note) | Body(id: nat, reply: bool)

  /** The goroutine of `handleRequest`. */
  datatype Main = Selecting | TimedOut | Writing | AwaitingSent | Leaving | Left

  /** The goroutine it starts; `called` and `sent` are unbuffered. */
  datatype Worker = Working | OffersCalled | Responding | Replying | OffersSent | Exited

  datatype Handler = Handler(main: Main, worker: Worker, note: Note, ok: bool, late: bool)

  datatype Owner = Free | ByMain(id: nat) | ByWorker(id: nat) | ByLoop(id: nat)

  datatype Loop = Reading | Rejecting(id: nat) | Draining | Closed

  datatype State = State(handlers: map<nat, Handler>, bad: set<nat>, loop: Loop, sending: Owner, log: seq<Piece>, wg: nat)

  const INIT := State(map[], {}, Reading, Free, [], 0)

  datatype Event =
    | Accept(id: nat)
    | Refuse(id: nat)
    | HangUp
    | RejectHead
    | RejectBody
    | Return(id: nat, ok: bool)
    | Timer(id: nat)
    | Called(id: nat)
    | TimeoutHead(id: nat)
    | TimeoutBody(id: nat)
    | ReplyHead(id: nat)
    | ReplyBody(id: nat)
    | Sent(id: nat)
    | Leave(id: nat)
    | Close

  predicate MainAt(s: State, id: nat, p: Main) { id in s.handlers && s.handlers[id].main == p }

  predicate WorkerAt(s: State, id: nat, p: Worker) { id in s.handlers && s.handlers[id].worker == p }

  /** `timed` says that the connection asked for a handling time limit. */
  predicate Enabled(timed: bool, s: State, e: Event) {
    match e
    case Accept(id) => s.loop == Reading && id !in s.handlers && id !in s.bad
    case Refuse(id) => s.loop == Reading && id !in s.handlers && id !in s.bad
    case HangUp => s.loop == Reading
    case RejectHead => s.loop.Rejecting? && s.sending == Free
    case RejectBody => s.loop.Rejecting? && s.sending == ByLoop(s.loop.id)
    case Return(id, _) => WorkerAt(s, id, Working)
    case Timer(id) => timed && MainAt(s, id, Selecting)
    case Called(id) => MainAt(s, id, Selecting) && WorkerAt(s, id, OffersCalled)
    case TimeoutHead(id) => MainAt(s, id, TimedOut) && s.sending == Free
    case TimeoutBody(id) => MainAt(s, id, Writing)
    case ReplyHead(id) => WorkerAt(s, id, Responding) && s.sending == Free
    case ReplyBody(id) => WorkerAt(s, id, Replying)
    case Sent(id) => MainAt(s, id, AwaitingSent) && WorkerAt(s, id, OffersSent)
    case Leave(id) => MainAt(s, id, Leaving) && 0 < s.wg
    case Close => s.loop == Draining && s.wg == 0
  }

  function Set(s: State, id: nat, h: Handler): State { s.(handlers := s.handlers[id := h]) }

  function Next(timed: bool, s: State, e: Event): State
    requires Enabled(timed, s, e)
  {
    match e
    case Accept(id) => Set(s, id, Handler(Selecting, Working, NoError, false, false)).(wg := s.wg + 1)
    case Refuse(id) => s.(bad := s.bad + {id}, loop := Rejecting(id))
    case HangUp => s.(loop := Draining)
    case RejectHead => s.(sending := ByLoop(s.loop.id), log := s.log + [Head(s.loop.id, BadRequest)])
    case RejectBody => s.(loop := Reading, sending := Free, log := s.log + [Body(s.loop.id, false)])
    case Return(id, ok) => Set(s, id, s.handlers[id].(worker := OffersCalled, ok := ok))
    case Timer(id) => Set(s, id, s.handlers[id].(main := TimedOut, note := TimeoutError, late := true))
    case Called(id) =>
      var h := s.handlers[id];
      Set(s, id, h.(main := AwaitingSent, worker := Responding, note := if h.ok then h.note else CallFailed))
    case TimeoutHead(id) =>
      Set(s, id, s.handlers[id].(main := Writing))
        .(sending := ByMain(id), log := s.log + [Head(id, s.handlers[id].note)])
    case TimeoutBody(id) =>
      Set(s, id, s.handlers[id].(main := Leaving)).(sending := Free, log := s.log + [Body(id, false)])
    case ReplyHead(id) =>
      Set(s, id, s.handlers[id].(worker := Replying))
        .(sending := ByWorker(id), log := s.log + [Head(id, s.handlers[id].note)])
    case ReplyBody(id) =>
      Set(s, id, s.handlers[id].(worker := OffersSent))
        .(sending := Free, log := s.log + [Body(id, s.handlers[id].ok)])
    case Sent(id) => Set(s, id, s.handlers[id].(main := Leaving, worker := Exited))
    case Leave(id) => Set(s, id, s.handlers[id].(main := Left)).(wg := s.wg - 1)
    case Close => s.(loop := Closed)
  }

  function Run(timed: bool, es: seq<Event>): Option<State>
    decreases |es|
  {
    if es == [] then Some(INIT)
    else
      var p, e := Run(timed, es[..|es| - 1]), es[|es| - 1];
      if p.Some? && Enabled(timed, p.value, e) then Some(Next(timed, p.value, e)) else None
  }

  /** What was written for one request. */
  function Written(log: seq<Piece>, id: nat): seq<Piece> {
    if log == [] then []
    else
      var last := log[|log| - 1];
      Written(log[..|log| - 1], id) + if last.id == id then [last] else []
  }

  lemma WrittenSnoc(log: seq<Piece>, p: Piece, id: nat)
    ensures Written(log + [p], id) == Written(log, id) + if p.id == id then [p] else []
  {
    assert (log + [p])[..|log|] == log;
  }

  function Answer(id: nat, note: Note, reply: bool): seq<Piece> { [Head(id, note), Body(id, reply)] }

  /** The response a handler owes. */
  function Response(id: nat, h: Handler): seq<Piece> {
    if h.late then Answer(id, TimeoutError, false)
    else if h.ok then Answer(id, NoError, true)
    else Answer(id, CallFailed, false)
  }

  /** Which states the two goroutines of one handler can be in together, and what they have written. */
  predicate HandlerOk(s: State, id: nat)
    requires id in s.handlers
  {
    var h := s.handlers[id];
    var w := Written(s.log, id);
    && (s.sending == ByMain(id) <==> h.main == Writing)
    && (s.sending == ByWorker(id) <==> h.worker == Replying)
    && if h.late then
         && (h.worker == Working || h.worker == OffersCalled)
         && h.note == TimeoutError
         && match h.main
            case TimedOut => w == []
            case Writing => w == [Head(id, TimeoutError)]
            case Leaving => w == Response(id, h)
            case Left => w == Response(id, h)
            case _ => false
       else
         match h.worker
         case Working => h.main == Selecting && w == [] && h.note == NoError
         case OffersCalled => h.main == Selecting && w == [] && h.note == NoError
         case Responding => h.main == AwaitingSent && w == [] && h.note == Response(id, h)[0].note
         case Replying => h.main == AwaitingSent && w == [Response(id, h)[0]] && h.note == Response(id, h)[0].note
         case OffersSent => h.main == AwaitingSent && w == Response(id, h)
         case Exited => (h.main == Leaving || h.main == Left) && w == Response(id, h)
  }

  /** The rejected requests are answered by the loop itself. */
  predicate BadOk(s: State, id: nat)
  {
    Written(s.log, id) ==
      if s.loop != Rejecting(id) then Answer(id, BadRequest, false)
      else if s.sending == ByLoop(id) then [Head(id, BadRequest)]
      else []
  }

  predicate IsBusy(s: State, id: nat) { id in s.handlers && s.handlers[id].main != Left }

  function Busy(s: State): set<nat> { set id | id in s.handlers && IsBusy(s, id) }

  /** Whoever holds the lock is known. */
  predicate OwnerOk(s: State) {
    match s.sending
    case Free => true
    case ByMain(id) => id in s.handlers
    case ByWorker(id) => id in s.handlers
    case ByLoop(id) => s.loop == Rejecting(id)
  }

  ghost predicate Inv(s: State) {
    && OwnerOk(s)
    && s.wg == |Busy(s)|
    && (s.loop.Rejecting? ==> s.loop.id in s.bad)
    && (s.loop == Closed ==> s.wg == 0)
    && s.handlers.Keys !! s.bad
    && (forall id :: id in s.handlers ==> HandlerOk(s, id))
    && (forall id :: id in s.bad ==> BadOk(s, id))
    && (forall id :: id !in s.handlers && id !in s.bad ==> Written(s.log, id) == [])
  }

  /** The request an event is about. */
  function Subject(s: State, e: Event): Option<nat> {
    match e
    case HangUp => None
    case Close => None
    case RejectHead => if s.loop.Rejecting? then Some(s.loop.id) else None
    case RejectBody => if s.loop.Rejecting? then Some(s.loop.id) else None
    case Refuse(id) => Some(id)
    case _ => Some(e.id)
  }

  /** An event writes at most one piece, and only for its own request. */
  lemma WritesOne(timed: bool, s: State, e: Event, id: nat)
    requires Enabled(timed, s, e)
    ensures var log := Next(timed, s, e).log;
      if log == s.log then true
      else
        var p := log[|log| - 1];
        && log == s.log + [p] && Some(p.id) == Subject(s, e)
        && Written(log, id) == Written(s.log, id) + if p.id == id then [p] else []
  {
    hide Written;
    var log := Next(timed, s, e).log;
    if log != s.log {
      WrittenSnoc(s.log, log[|log| - 1], id);
    }
  }

  lemma OtherKept(timed: bool, s: State, e: Event, id: nat)
    requires OwnerOk(s) && Enabled(timed, s, e) && id in s.handlers && Subject(s, e) != Some(id) && HandlerOk(s, id)
    requires s.sending.ByMain? && s.sending.id in s.handlers ==> HandlerOk(s, s.sending.id)
    requires s.sending.ByWorker? && s.sending.id in s.handlers ==> HandlerOk(s, s.sending.id)
    requires Subject(s, e).Some? && Subject(s, e).value in s.handlers ==> HandlerOk(s, Subject(s, e).value)
    ensures HandlerOk(Next(timed, s, e), id)
  {
    WritesOne(timed, s, e, id);
    hide Written;
  }

  lemma OwnerMoves(timed: bool, s: State, e: Event)
    requires Inv(s) && Enabled(timed, s, e)
    ensures e.TimeoutBody? ==> s.sending == ByMain(e.id)
    ensures e.ReplyBody? ==> s.sending == ByWorker(e.id)
  {
    if e.TimeoutBody? || e.ReplyBody? {
      assert HandlerOk(s, e.id);
    }
  }

  predicate TimerSide(e: Event) { e.Timer? || e.TimeoutHead? || e.TimeoutBody? || e.Leave? }

  lemma OwnKeptTimer(timed: bool, s: State, e: Event, id: nat)
    requires TimerSide(e) && Enabled(timed, s, e) && e.id == id && HandlerOk(s, id)
    ensures HandlerOk(Next(timed, s, e), id)
  {
    hide Written;
    WritesOne(timed, s, e, id);
  }

  lemma OwnKeptWorker(timed: bool, s: State, e: Event, id: nat)
    requires !TimerSide(e) && Enabled(timed, s, e) && Subject(s, e) == Some(id) && id in Next(timed, s, e).handlers
    requires OwnerOk(s)
    requires id in s.handlers ==> HandlerOk(s, id)
    requires id !in s.handlers ==> Written(s.log, id) == []
    requires s.loop.Rejecting? ==> s.loop.id !in s.handlers
    ensures HandlerOk(Next(timed, s, e), id)
  {
    hide Written;
    WritesOne(timed, s, e, id);
  }

  /** Every step of a request keeps it in order. */
  lemma OwnKept(timed: bool, s: State, e: Event, id: nat)
    requires Enabled(timed, s, e) && Subject(s, e) == Some(id) && id in Next(timed, s, e).handlers && OwnerOk(s)
    requires id in s.handlers ==> HandlerOk(s, id)
    requires id !in s.handlers ==> Written(s.log, id) == []
    requires s.loop.Rejecting? ==> s.loop.id !in s.handlers
    ensures HandlerOk(Next(timed, s, e), id)
  {
    hide HandlerOk, Written, Next;
    if TimerSide(e) {
      TimerOwn(timed, s, e);
      OwnKeptTimer(timed, s, e, id);
    } else {
      OwnKeptWorker(timed, s, e, id);
    }
  }

  lemma TimerOwn(timed: bool, s: State, e: Event)
    requires Enabled(timed, s, e) && TimerSide(e)
    ensures e.id in s.handlers && Subject(s, e) == Some(e.id)
  {
  }

  lemma BadOther(timed: bool, s: State, e: Event, id: nat)
    requires OwnerOk(s) && Enabled(timed, s, e) && BadOk(s, id) && Subject(s, e) != Some(id)
    requires e.TimeoutBody? ==> s.sending == ByMain(e.id)
    requires e.ReplyBody? ==> s.sending == ByWorker(e.id)
    ensures BadOk(Next(timed, s, e), id)
  {
    hide Written;
    WritesOne(timed, s, e, id);
  }

  lemma BadOwn(timed: bool, s: State, e: Event, id: nat)
    requires OwnerOk(s) && Enabled(timed, s, e) && id !in s.handlers && Subject(s, e) == Some(id)
    requires id in s.bad ==> BadOk(s, id)
    requires id !in s.bad ==> Written(s.log, id) == []
    requires id in Next(timed, s, e).bad
    ensures BadOk(Next(timed, s, e), id)
  {
    hide Written;
    WritesOne(timed, s, e, id);
  }

  lemma BadKept(timed: bool, s: State, e: Event, id: nat)
    requires Inv(s) && Enabled(timed, s, e) && id in Next(timed, s, e).bad
    ensures BadOk(Next(timed, s, e), id)
  {
    hide BadOk, Busy, Written;
    if Subject(s, e) == Some(id) {
      BadOwn(timed, s, e, id);
    } else {
      OwnerMoves(timed, s, e);
      BadOther(timed, s, e, id);
    }
  }

  lemma NewKept(timed: bool, s: State, e: Event, id: nat)
    requires Inv(s) && Enabled(timed, s, e) && id !in Next(timed, s, e).bad && id !in Next(timed, s, e).handlers
    ensures Written(Next(timed, s, e).log, id) == []
  {
    hide Busy;
    WritesOne(timed, s, e, id);
    hide Written;
  }

  lemma BusyIs(s: State)
    ensures forall id :: id in Busy(s) <==> IsBusy(s, id)
  {
  }

  lemma BusyChange(timed: bool, s: State, e: Event, id: nat)
    requires Enabled(timed, s, e)
    ensures IsBusy(Next(timed, s, e), id) <==>
      e == Accept(id) || (IsBusy(s, id) && e != Leave(id))
  {
  }

  lemma WaitGroupChange(timed: bool, s: State, e: Event)
    requires Enabled(timed, s, e)
    ensures Next(timed, s, e).wg == if e.Accept? then s.wg + 1 else if e.Leave? then s.wg - 1 else s.wg
    ensures (e.Accept? ==> !IsBusy(s, e.id)) && (e.Leave? ==> IsBusy(s, e.id))
  {
  }

  /** The wait group counts the handlers that have not left. */
  lemma BusyKept(timed: bool, s: State, e: Event)
    requires Enabled(timed, s, e) && s.wg == |Busy(s)|
    ensures var s' := Next(timed, s, e); s'.wg == |Busy(s')|
  {
    hide Next, Enabled, IsBusy, Busy;
    var s' := Next(timed, s, e);
    BusyIs(s);
    BusyIs(s');
    forall id ensures IsBusy(s', id) <==> e == Accept(id) || (IsBusy(s, id) && e != Leave(id)) {
      BusyChange(timed, s, e, id);
    }
    WaitGroupChange(timed, s, e);
    if e.Accept? {
      assert Busy(s') == Busy(s) + {e.id};
    } else if e.Leave? {
      assert Busy(s') == Busy(s) - {e.id};
    } else {
      assert Busy(s') == Busy(s);
    }
  }

  lemma InvKept(timed: bool, s: State, e: Event)
    requires Inv(s) && Enabled(timed, s, e)
    ensures Inv(Next(timed, s, e))
  {
    hide Written, BadOk, HandlerOk, Busy;
    var s' := Next(timed, s, e);
    BusyKept(timed, s, e);
    forall id | id in s'.handlers ensures HandlerOk(s', id) {
      if Subject(s, e) == Some(id) {
        OwnKept(timed, s, e, id);
      } else {
        OtherKept(timed, s, e, id);
      }
    }
    forall id | id in s'.bad ensures BadOk(s', id) {
      BadKept(timed, s, e, id);
    }
    forall id | id !in s'.handlers && id !in s'.bad ensures Written(s'.log, id) == [] {
      NewKept(timed, s, e, id);
    }
  }

  /** Every interleaving keeps the connection in order. */
  lemma {:induction false} RunInv(timed: bool, es: seq<Event>)
    requires Run(timed, es).Some?
    ensures Inv(Run(timed, es).value)
    decreases |es|
  {
    if es != [] {
      RunInv(timed, es[..|es| - 1]);
      InvKept(timed, Run(timed, es[..|es| - 1]).value, es[|es| - 1]);
    }
  }

  // ---------- what a handler's state says about the run ----------

  /** `Return(id, ok)` happened. */
  predicate Returned(es: seq<Event>, id: nat, ok: bool) { Return(id, ok) in es }

  /** The answers to the questions a run leaves open: was the request accepted or refused, did its timer
      fire, and what did its method return. */
  ghost predicate Tracked(es: seq<Event>, s: State, id: nat) {
    && (id in s.handlers <==> Accept(id) in es)
    && (id in s.bad <==> Refuse(id) in es)
    && (id in s.handlers ==>
          var h := s.handlers[id];
          && (h.late <==> Timer(id) in es)
          && if h.worker == Working then !Returned(es, id, true) && !Returned(es, id, false)
             else Returned(es, id, h.ok) && !Returned(es, id, !h.ok))
    && (id !in s.handlers ==> Timer(id) !in es && !Returned(es, id, true) && !Returned(es, id, false))
  }

  lemma TrackedKept(timed: bool, es: seq<Event>, s: State, e: Event, id: nat)
    requires Enabled(timed, s, e) && Tracked(es, s, id)
    ensures Tracked(es + [e], Next(timed, s, e), id)
  {
  }

  lemma {:induction false} RunTracked(timed: bool, es: seq<Event>, id: nat)
    requires Run(timed, es).Some?
    ensures Tracked(es, Run(timed, es).value, id)
    decreases |es|
  {
    hide Tracked, Next, Enabled;
    if es == [] {
      TrackedNone(id);
    } else {
      var init, e := es[..|es| - 1], es[|es| - 1];
      RunTracked(timed, init, id);
      TrackedKept(timed, init, Run(timed, init).value, e, id);
      assert init + [e] == es;
    }
  }

  lemma TrackedNone(id: nat)
    ensures Tracked([], INIT, id)
  {
  }

  /** A method returns at most once for each request. */
  lemma {:induction false} ReturnsOnce(timed: bool, es: seq<Event>, i: nat, j: nat, id: nat)
    requires Run(timed, es).Some? && i < j < |es|
    ensures !(es[i].Return? && es[j].Return? && es[i].id == id && es[j].id == id)
    decreases |es|
  {
    hide Next, Tracked;
    var n := |es| - 1;
    var init := es[..n];
    if j < n {
      ReturnsOnce(timed, init, i, j, id);
    } else if es[i].Return? && es[i].id == id {
      RunTracked(timed, init, id);
      assert init[i] == es[i] && Return(id, es[i].ok) in init;
      ReturnedNotWorking(init, Run(timed, init).value, id, es[i].ok);
    }
  }

  lemma ReturnedNotWorking(es: seq<Event>, s: State, id: nat, ok: bool)
    requires Tracked(es, s, id) && Return(id, ok) in es
    ensures !WorkerAt(s, id, Working)
  {
  }

  /** The response to an accepted request, by what happened in the run: the timeout if its timer fired,
      otherwise what its method returned. */
  ghost predicate Answered(es: seq<Event>, id: nat, w: seq<Piece>) {
    if Timer(id) in es then w == [Head(id, TimeoutError), Body(id, false)]
    else if Return(id, true) in es then w == [Head(id, NoError), Body(id, true)] && Return(id, false) !in es
    else w == [Head(id, CallFailed), Body(id, false)] && Return(id, false) in es
  }

  lemma HandlerAnswered(es: seq<Event>, s: State, id: nat)
    requires MainAt(s, id, Left) && HandlerOk(s, id) && Tracked(es, s, id)
    ensures Answered(es, id, Written(s.log, id))
  {
    hide Written;
  }

  /** When `handleRequest` has returned, exactly one response was written: the timeout if and only if
      the timer won, otherwise what the method returned. */
  lemma AnsweredOnce(timed: bool, es: seq<Event>, id: nat)
    requires Run(timed, es).Some? && MainAt(Run(timed, es).value, id, Left)
    ensures Accept(id) in es && Answered(es, id, Written(Run(timed, es).value.log, id))
  {
    hide Written, Run, Answered;
    RunInv(timed, es);
    RunTracked(timed, es, id);
    assert HandlerOk(Run(timed, es).value, id);
    HandlerAnswered(es, Run(timed, es).value, id);
  }

  lemma OnlyReturns(timed: bool, s: State, e: Event, id: nat)
    requires Enabled(timed, s, e) && MainAt(s, id, Left) && HandlerOk(s, id) && Subject(s, e) == Some(id)
    requires id !in s.bad && (s.loop.Rejecting? ==> s.loop.id in s.bad)
    ensures e.Return? && s.handlers[id].late
  {
    hide Written;
  }

  /** And none follows, nor does it change who won. */
  lemma NothingFollows(timed: bool, es: seq<Event>, e: Event, id: nat)
    requires Run(timed, es).Some? && Enabled(timed, Run(timed, es).value, e)
    requires MainAt(Run(timed, es).value, id, Left)
    ensures var s, s' := Run(timed, es).value, Next(timed, Run(timed, es).value, e);
      && MainAt(s', id, Left) && s'.handlers[id].late == s.handlers[id].late
      && Written(s'.log, id) == Written(s.log, id)
  {
    hide Written, Run, Busy, BadOk, HandlerOk;
    RunInv(timed, es);
    var s := Run(timed, es).value;
    WritesOne(timed, s, e, id);
    if Subject(s, e) == Some(id) {
      OnlyReturns(timed, s, e, id);
    }
  }

  /** However a run goes on after a handler has returned, its one response stays the only one. */
  lemma {:induction false} NeverAgain(timed: bool, es: seq<Event>, n: nat, id: nat)
    requires Run(timed, es).Some? && n <= |es| && Run(timed, es[..n]).Some?
    requires MainAt(Run(timed, es[..n]).value, id, Left)
    ensures var s, s' := Run(timed, es[..n]).value, Run(timed, es).value;
      && MainAt(s', id, Left) && s'.handlers[id].late == s.handlers[id].late
      && Written(s'.log, id) == Written(s.log, id)
    decreases |es|
  {
    hide Written, Next, Enabled;
    if n < |es| {
      var p := es[..|es| - 1];
      assert p[..n] == es[..n];
      NeverAgain(timed, p, n, id);
      NothingFollows(timed, p, es[|es| - 1], id);
    } else {
      assert es[..n] == es;
    }
  }

  /** A worker that came too late never gets past offering its result; any other one has finished. */
  lemma LateWorkerStuck(timed: bool, es: seq<Event>, id: nat)
    requires Run(timed, es).Some? && MainAt(Run(timed, es).value, id, Left)
    ensures var h := Run(timed, es).value.handlers[id];
      if h.late then h.worker == Working || h.worker == OffersCalled else h.worker == Exited
  {
    RunInv(timed, es);
    assert HandlerOk(Run(timed, es).value, id);
  }

  lemma NoneBusy(s: State)
    requires |Busy(s)| == 0
    ensures forall id :: id in s.handlers ==> s.handlers[id].main == Left
  {
    forall id | id in s.handlers ensures s.handlers[id].main == Left {
      assert id !in Busy(s);
    }
  }

  /** The codec is closed only after every accepted or refused request has its one response. */
  lemma ClosedAfterAll(timed: bool, es: seq<Event>, id: nat)
    requires Run(timed, es).Some? && Run(timed, es).value.loop == Closed
    ensures var w := Written(Run(timed, es).value.log, id);
      && (Accept(id) in es ==> Answered(es, id, w))
      && (Refuse(id) in es ==> w == [Head(id, BadRequest), Body(id, false)])
      && (Accept(id) !in es && Refuse(id) !in es ==> w == [])
  {
    hide Answered, Written;
    RunInv(timed, es);
    RunTracked(timed, es, id);
    var s := Run(timed, es).value;
    NoneBusy(s);
    if id in s.handlers {
      AnsweredOnce(timed, es, id);
    } else if id in s.bad {
      assert BadOk(s, id);
    }
  }

  /** Nothing is written on a closed connection. */
  lemma ClosedIsSilent(timed: bool, es: seq<Event>, e: Event)
    requires Run(timed, es).Some? && Run(timed, es).value.loop == Closed
    requires Enabled(timed, Run(timed, es).value, e)
    ensures Next(timed, Run(timed, es).value, e).log == Run(timed, es).value.log
  {
    RunInv(timed, es);
    var s := Run(timed, es).value;
    NoneBusy(s);
    hide Run, Busy, Written;
  }

  lemma StaysClosed(timed: bool, s: State, e: Event)
    requires Enabled(timed, s, e) && s.loop == Closed
    ensures Next(timed, s, e).loop == Closed
  {
  }

  /** However a run goes on after the codec was closed, the loop stays closed and the wire silent. */
  lemma {:induction false} ClosedForever(timed: bool, es: seq<Event>, n: nat)
    requires Run(timed, es).Some? && n <= |es| && Run(timed, es[..n]).Some?
    requires Run(timed, es[..n]).value.loop == Closed
    ensures Run(timed, es).value.loop == Closed && Run(timed, es).value.log == Run(timed, es[..n]).value.log
    decreases |es|
  {
    hide Next, Enabled;
    if n < |es| {
      var p, e := es[..|es| - 1], es[|es| - 1];
      assert p[..n] == es[..n];
      ClosedForever(timed, p, n);
      ClosedIsSilent(timed, p, e);
      StaysClosed(timed, Run(timed, p).value, e);
    } else {
      assert es[..n] == es;
    }
  }

  /** Whole responses, one after the other. */
  predicate Paired(log: seq<Piece>) {
    if log == [] then true
    else |log| >= 2 && log[0].Head? && log[1].Body? && log[0].id == log[1].id && Paired(log[2..])
  }

  predicate Unbroken(s: State) {
    if s.sending == Free then Paired(s.log)
    else
      && s.log != [] && s.log[|s.log| - 1].Head? && s.log[|s.log| - 1].id == s.sending.id
      && Paired(s.log[..|s.log| - 1])
  }

  lemma {:induction false} PairedMore(log: seq<Piece>, h: Piece, b: Piece)
    requires Paired(log) && h.Head? && b.Body? && h.id == b.id
    ensures Paired(log + [h, b])
    decreases |log|
  {
    if log == [] {
      assert ([h, b])[2..] == [];
      assert log + [h, b] == [h, b];
    } else {
      PairedMore(log[2..], h, b);
      assert (log + [h, b])[2..] == log[2..] + [h, b];
    }
  }

  /** Responses never interleave: what is on the wire is whole responses and at most one that is under way. */
  lemma {:induction false} RunUnbroken(timed: bool, es: seq<Event>)
    requires Run(timed, es).Some?
    ensures Unbroken(Run(timed, es).value)
    decreases |es|
  {
    if es != [] {
      var p, e := Run(timed, es[..|es| - 1]).value, es[|es| - 1];
      RunUnbroken(timed, es[..|es| - 1]);
      RunInv(timed, es[..|es| - 1]);
      UnbrokenKept(timed, p, e);
    }
  }

  predicate HeadEvent(e: Event) { e.TimeoutHead? || e.ReplyHead? || e.RejectHead? }

  predicate BodyEvent(e: Event) { e.TimeoutBody? || e.ReplyBody? || e.RejectBody? }

  lemma LogChange(timed: bool, s: State, e: Event)
    requires Enabled(timed, s, e)
    requires e.TimeoutBody? ==> s.sending == ByMain(e.id)
    requires e.ReplyBody? ==> s.sending == ByWorker(e.id)
    ensures var s' := Next(timed, s, e);
      if HeadEvent(e) then
        s.sending == Free && s'.sending != Free && exists n :: s'.log == s.log + [Head(s'.sending.id, n)]
      else if BodyEvent(e) then
        s'.sending == Free && s.sending != Free && exists r :: s'.log == s.log + [Body(s.sending.id, r)]
      else s'.log == s.log && s'.sending == s.sending
  {
    var s' := Next(timed, s, e);
    if HeadEvent(e) {
      assert s'.log == s.log + [Head(s'.sending.id, s'.log[|s.log|].note)];
    } else if BodyEvent(e) {
      assert s'.log == s.log + [Body(s.sending.id, s'.log[|s.log|].reply)];
    }
  }

  lemma UnbrokenKept(timed: bool, s: State, e: Event)
    requires Inv(s) && Unbroken(s) && Enabled(timed, s, e)
    ensures Unbroken(Next(timed, s, e))
  {
    hide Inv, Next, Enabled, Paired;
    OwnerMoves(timed, s, e);
    LogChange(timed, s, e);
    var s' := Next(timed, s, e);
    var n := |s.log|;
    if BodyEvent(e) {
      PairedMore(s.log[..n - 1], s.log[n - 1], s'.log[n]);
      assert s'.log == s.log[..n - 1] + [s.log[n - 1], s'.log[n]];
    } else if HeadEvent(e) {
      assert s'.log[..n] == s.log;
    }
  }

  /** A handler that has not left can always move, unless it waits for the lock, whose holder can move. */
  lemma NobodyStuck(timed: bool, es: seq<Event>, id: nat) returns (e: Event)
    requires Run(timed, es).Some? && id in Run(timed, es).value.handlers
    requires Run(timed, es).value.handlers[id].main != Left
    ensures var s := Run(timed, es).value;
      && Enabled(timed, s, e)
      && (Subject(s, e) == Some(id) || (s.sending != Free && Subject(s, e) == Some(s.sending.id)))
  {
    RunInv(timed, es);
    var s := Run(timed, es).value;
    var h := s.handlers[id];
    assert HandlerOk(s, id);
    assert id in Busy(s);
    if h.main == Leaving {
      return Leave(id);
    }
    if h.main == Selecting {
      return if h.worker == Working then Return(id, true) else Called(id);
    }
    if h.main == AwaitingSent && h.worker == OffersSent {
      return Sent(id);
    }
    match s.sending
    case Free => return if h.main == TimedOut then TimeoutHead(id) else ReplyHead(id);
    case ByMain(o) => { assert HandlerOk(s, o); return TimeoutBody(o); }
    case ByWorker(o) => { assert HandlerOk(s, o); return ReplyBody(o); }
    case ByLoop(o) => return RejectBody;
  }
}
