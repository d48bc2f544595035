/** Every interleaving of the goroutines that share one RPC client. */
module ClientRuns {
  import opened Options
  import opened CallTable

  /** How a call was completed; `q` is the number in the header of the reply. */
  datatype Outcome =
    | Refused
    | WriteError
    | Answered(q: nat)
    | ServerError(q: nat)
    | BodyError(q: nat)
    | Terminated

  /** Where `send` stands with a call. From `Locked` to `Found` the goroutine holds `sending`. */
  datatype Phase =
    | Waiting
    | Locked
    | Rejected
    | Writing
    | Failed
    | Found(call: nat)
    | Returned

  datatype CallState = CallState(phase: Phase, number: nat, fired: seq<Outcome>, dropped: bool)

  datatype Owner = Free | Sender(call: nat) | Terminator

  datatype Receiver =
    | Idle
    | Got(q: nat, failed: bool)
    | Holding(q: nat, failed: bool, call: Option<nat>)
    | Broken
    | Terminating
    | Finished

  datatype State = State(table: Table<nat>, calls: map<nat, CallState>, sending: Owner, receiver: Receiver)

  const INIT := State(EMPTY, map[], Free, Idle)

  datatype Event =
    | Go(c: nat)
    | Lock(c: nat)
    | Register(c: nat)
    | Refuse(c: nat)
    | Write(c: nat, ok: bool)
    | Unregister(c: nat)
    | Fail(c: nat)
    | Cancel(c: nat)
    | Close
    | Header(q: nat, failed: bool)
    | HeaderError
    | Take
    | Body(ok: bool)
    | LockLast
    | Terminate

  predicate At(s: State, c: nat, p: Phase) { c in s.calls && s.calls[c].phase == p }

  predicate Enabled(s: State, e: Event) {
    match e
    case Go(c) => c !in s.calls
    case Lock(c) => At(s, c, Waiting) && s.sending == Free
    case Register(c) => At(s, c, Locked)
    case Refuse(c) => At(s, c, Rejected)
    case Write(c, _) => At(s, c, Writing)
    case Unregister(c) => At(s, c, Failed)
    case Fail(c) => c in s.calls && s.calls[c].phase.Found? && s.calls[c].phase.call in s.calls
    case Cancel(c) => At(s, c, Returned)
    case Close => true
    case Header(_, _) => s.receiver == Idle
    case HeaderError => s.receiver == Idle
    case Take => s.receiver.Got?
    case Body(_) => s.receiver.Holding? && (s.receiver.call.Some? ==> s.receiver.call.value in s.calls)
    case LockLast => s.receiver == Broken && s.sending == Free
    case Terminate => s.receiver == Terminating
  }

  function Fire(k: CallState, o: Outcome): CallState { k.(fired := k.fired + [o]) }

  /** `send` gives up the lock and returns. */
  function Return(s: State, c: nat): State
    requires c in s.calls
  {
    s.(calls := s.calls[c := s.calls[c].(phase := Returned)], sending := Free)
  }

  function FireCall(s: State, c: nat, o: Outcome): State
    requires c in s.calls
  {
    s.(calls := s.calls[c := Fire(s.calls[c], o)])
  }

  function Reply(q: nat, failed: bool, ok: bool): Outcome {
    if failed then ServerError(q) else if ok then Answered(q) else BodyError(q)
  }

  predicate IsPending(s: State, c: nat)
    requires c in s.calls
  {
    s.calls[c].number in s.table.pending
  }

  function Next(s: State, e: Event): State
    requires Enabled(s, e)
  {
    match e
    case Go(c) => s.(calls := s.calls[c := CallState(Waiting, 0, [], false)])
    case Lock(c) => s.(calls := s.calls[c := s.calls[c].(phase := Locked)], sending := Sender(c))
    case Register(c) =>
      var (t, q) := CallTable.Register(s.table, c);
      var k := if q.Some? then s.calls[c].(phase := Writing, number := q.value) else s.calls[c].(phase := Rejected);
      s.(table := t, calls := s.calls[c := k])
    case Refuse(c) => Return(FireCall(s, c, Refused), c)
    case Write(c, ok) => if ok then Return(s, c) else s.(calls := s.calls[c := s.calls[c].(phase := Failed)])
    case Unregister(c) =>
      var (t, d) := Remove(s.table, s.calls[c].number);
      if d == None then Return(s.(table := t), c)
      else s.(table := t, calls := s.calls[c := s.calls[c].(phase := Found(d.value))])
    case Fail(c) => Return(FireCall(s, s.calls[c].phase.call, WriteError), c)
    case Cancel(c) =>
      var (t, d) := Remove(s.table, s.calls[c].number);
      s.(table := t, calls := s.calls[c := s.calls[c].(dropped := s.calls[c].dropped || d.Some?)])
    case Close => s.(table := s.table.(closing := true))
    case Header(q, failed) => s.(receiver := Got(q, failed))
    case HeaderError => s.(receiver := Broken)
    case Take =>
      var (t, d) := Remove(s.table, s.receiver.q);
      s.(table := t, receiver := Holding(s.receiver.q, s.receiver.failed, d))
    case Body(ok) =>
      var r := s.receiver;
      var s' := s.(receiver := if ok then Idle else Broken);
      if r.call == None then s' else FireCall(s', r.call.value, Reply(r.q, r.failed, ok))
    case LockLast => s.(sending := Terminator, receiver := Terminating)
    case Terminate =>
      s.(table := s.table.(shutdown := true),
         calls := map c | c in s.calls :: if IsPending(s, c) then Fire(s.calls[c], Terminated) else s.calls[c],
         sending := Free, receiver := Finished)
  }

  /** The state that a run of events ends in, if every one of them can happen when its turn comes. */
  function Run(es: seq<Event>): Option<State>
    decreases |es|
  {
    if es == [] then Some(INIT)
    else
      var p, e := Run(es[..|es| - 1]), es[|es| - 1];
      if p.Some? && Enabled(p.value, e) then Some(Next(p.value, e)) else None
  }

  ghost predicate TableOk(s: State) {
    && Numbered(s.table)
    && (forall q :: q in s.table.pending ==>
          s.table.pending[q] in s.calls && s.calls[s.table.pending[q]].number == q)
    && (forall c :: c in s.calls ==> s.calls[c].number < s.table.next)
    && (forall c :: c in s.calls && s.calls[c].number in s.table.pending ==>
          s.table.pending[s.calls[c].number] == c)
  }

  /** No two calls get the same number. */
  ghost predicate Unique(s: State) {
    forall c, d :: c in s.calls && d in s.calls && c != d && s.calls[c].number == s.calls[d].number ==>
      s.calls[c].number == 0
  }

  ghost predicate SameNumbers(s: State, s': State) {
    s'.calls.Keys == s.calls.Keys && forall c :: c in s.calls ==> s'.calls[c].number == s.calls[c].number
  }

  predicate Sends(p: Phase) { p != Waiting && p != Returned }

  ghost predicate LockOk(s: State) {
    && (forall c :: c in s.calls ==> (Sends(s.calls[c].phase) <==> s.sending == Sender(c)))
    && (s.sending.Sender? ==> s.sending.call in s.calls)
    && (s.sending == Terminator <==> s.receiver == Terminating)
    && (s.receiver == Finished ==> s.table.shutdown)
    && (s.receiver.Holding? && s.receiver.call.Some? ==>
          s.receiver.call.value in s.calls && 0 < s.calls[s.receiver.call.value].number == s.receiver.q)
  }

  predicate Receives(s: State, c: nat) { s.receiver.Holding? && s.receiver.call == Some(c) }

  /** A completion that names a number names the call's own. */
  predicate Own(o: Outcome, number: nat) {
    match o
    case Answered(q) => q == number
    case ServerError(q) => q == number
    case BodyError(q) => q == number
    case _ => true
  }

  /** A call that has a number is in exactly one place: the table, the receive loop, its own `send`, or done. */
  predicate CallOk(s: State, c: nat)
    requires c in s.calls
  {
    var k := s.calls[c];
    if k.number == 0 then
      !k.dropped &&
      if k.phase == Returned then k.fired == [Refused]
      else k.fired == [] && (k.phase == Waiting || k.phase == Locked || k.phase == Rejected)
    else
      && k.phase != Waiting && k.phase != Locked && k.phase != Rejected
      && (s.receiver == Finished ==> k.phase == Returned)
      && (k.phase.Found? ==> k.phase.call == c && k.fired == [] && !IsPending(s, c) && !Receives(s, c))
      && (k.dropped ==> k.phase == Returned && !IsPending(s, c))
      && (forall o :: o in k.fired ==> Own(o, k.number))
      && if IsPending(s, c) then
           !Receives(s, c) && k.fired == if s.receiver == Finished then [Terminated] else []
         else if Receives(s, c) || k.phase.Found? then
           k.fired == [] && !k.dropped
         else
           |k.fired| <= 1 && (k.fired == [] ==> k.dropped)
  }

  ghost predicate Sound(s: State) {
    TableOk(s) && LockOk(s) && forall c :: c in s.calls ==> CallOk(s, c)
  }

  predicate Numbers(e: Event) { e.Go? || e.Register? }

  lemma NumbersKept(s: State, e: Event)
    requires Enabled(s, e) && !Numbers(e)
    ensures var s' := Next(s, e);
      && SameNumbers(s, s') && s'.table.next == s.table.next
      && (forall q :: q in s'.table.pending ==> q in s.table.pending && s'.table.pending[q] == s.table.pending[q])
  {
  }

  lemma TableSame(s: State, s': State)
    requires TableOk(s) && SameNumbers(s, s') && s'.table.next == s.table.next
    requires forall q :: q in s'.table.pending ==> q in s.table.pending && s'.table.pending[q] == s.table.pending[q]
    ensures TableOk(s')
  {
  }

  lemma TableKept(s: State, e: Event)
    requires TableOk(s) && LockOk(s) && Enabled(s, e)
    requires e.Register? ==> s.calls[e.c].number == 0
    ensures TableOk(Next(s, e))
  {
    if !Numbers(e) {
      hide LockOk, TableOk, Next;
      NumbersKept(s, e);
      TableSame(s, Next(s, e));
    }
  }

  lemma UniqueKept(s: State, e: Event)
    requires Unique(s) && TableOk(s) && LockOk(s) && Enabled(s, e)
    ensures Unique(Next(s, e))
  {
    hide LockOk;
    if !Numbers(e) {
      hide TableOk, Next;
      NumbersKept(s, e);
    }
  }

  predicate SendEvent(e: Event) { e.Register? || e.Refuse? || e.Write? || e.Unregister? || e.Fail? }

  lemma LockKeptSend(s: State, e: Event)
    requires LockOk(s) && Enabled(s, e) && SendEvent(e) && CallOk(s, e.c)
    ensures LockOk(Next(s, e))
  {
  }

  lemma LockKept(s: State, e: Event)
    requires Sound(s) && Enabled(s, e)
    ensures LockOk(Next(s, e))
  {
    if SendEvent(e) {
      LockKeptSend(s, e);
    }
  }

  /** What happens elsewhere does not concern a call. */
  lemma CallSame(s: State, s': State, c: nat)
    requires c in s.calls && c in s'.calls && s'.calls[c] == s.calls[c] && CallOk(s, c)
    requires IsPending(s', c) == IsPending(s, c) && Receives(s', c) == Receives(s, c)
    requires s'.receiver == Finished <==> s.receiver == Finished
    ensures CallOk(s', c)
  {
  }

  lemma OthersKept(s: State, e: Event, c: nat)
    requires Sound(s) && Enabled(s, e) && (SendEvent(e) || e.Cancel?) && c in s.calls && c != e.c
    ensures CallOk(Next(s, e), c)
  {
    hide LockOk;
    assert CallOk(s, e.c);
    assert CallOk(s, c);
    hide CallOk;
    CallSame(s, Next(s, e), c);
  }

  lemma CallKeptRegister(s: State, e: Event)
    requires TableOk(s) && LockOk(s) && Enabled(s, e) && e.Register? && CallOk(s, e.c)
    ensures CallOk(Next(s, e), e.c)
  {
  }

  lemma CallKeptUnregister(s: State, e: Event)
    requires TableOk(s) && LockOk(s) && Enabled(s, e) && e.Unregister? && CallOk(s, e.c)
    ensures CallOk(Next(s, e), e.c)
  {
  }

  lemma CallKeptReturn(s: State, e: Event)
    requires TableOk(s) && LockOk(s) && Enabled(s, e) && (e.Refuse? || e.Write? || e.Fail? || e.Cancel?)
    requires CallOk(s, e.c)
    ensures CallOk(Next(s, e), e.c)
  {
  }

  /** The steps of `send` and a cancellation. */
  lemma CallKeptSend(s: State, e: Event)
    requires Sound(s) && Enabled(s, e) && (SendEvent(e) || e.Cancel?)
    ensures e.c in Next(s, e).calls && CallOk(Next(s, e), e.c)
  {
    ActorStays(s, e);
    hide CallOk, LockOk, TableOk, Next;
    if e.Register? {
      CallKeptRegister(s, e);
    } else if e.Unregister? {
      CallKeptUnregister(s, e);
    } else {
      CallKeptReturn(s, e);
    }
  }

  lemma ActorStays(s: State, e: Event)
    requires Enabled(s, e) && (SendEvent(e) || e.Cancel?)
    ensures e.c in s.calls && e.c in Next(s, e).calls
  {
  }

  predicate Quiet(e: Event) { e.Go? || e.Lock? || e.Close? || e.Header? || e.HeaderError? || e.LockLast? }

  lemma CallKeptQuiet(s: State, e: Event, c: nat)
    requires LockOk(s) && Enabled(s, e) && Quiet(e) && c in Next(s, e).calls
    requires Numbered(s.table) && (c in s.calls ==> CallOk(s, c))
    ensures CallOk(Next(s, e), c)
  {
  }

  lemma CallKeptTake(s: State, e: Event, c: nat)
    requires TableOk(s) && LockOk(s) && Enabled(s, e) && e.Take? && c in s.calls && CallOk(s, c)
    ensures CallOk(Next(s, e), c)
  {
  }

  lemma CallKeptBody(s: State, e: Event, c: nat)
    requires LockOk(s) && Enabled(s, e) && e.Body? && c in s.calls && CallOk(s, c)
    ensures c in Next(s, e).calls && CallOk(Next(s, e), c)
  {
  }

  lemma CallKeptTerminate(s: State, e: Event, c: nat)
    requires Numbered(s.table) && LockOk(s) && Enabled(s, e) && e.Terminate? && c in s.calls && CallOk(s, c)
    ensures c in Next(s, e).calls && CallOk(Next(s, e), c)
  {
  }

  /** The steps of the receive loop and of `terminateCalls`, and those that touch no call in flight. */
  lemma CallKeptRest(s: State, e: Event, c: nat)
    requires Sound(s) && Enabled(s, e) && !SendEvent(e) && !e.Cancel? && c in Next(s, e).calls
    ensures CallOk(Next(s, e), c)
  {
    hide CallOk, LockOk;
    KeysGrow(s, e, c);
    hide Next;
    if Quiet(e) {
      CallKeptQuiet(s, e, c);
    } else if e.Take? {
      CallKeptTake(s, e, c);
    } else if e.Body? {
      CallKeptBody(s, e, c);
    } else {
      CallKeptTerminate(s, e, c);
    }
  }

  lemma KeysGrow(s: State, e: Event, c: nat)
    requires Enabled(s, e) && !SendEvent(e) && !e.Cancel? && c in Next(s, e).calls
    ensures c in s.calls || (e.Go? && e.c == c)
  {
  }

  lemma SoundKept(s: State, e: Event)
    requires Sound(s) && Enabled(s, e)
    ensures Sound(Next(s, e))
  {
    assert e.Register? ==> CallOk(s, e.c);
    TableKept(s, e);
    LockKept(s, e);
    forall c | c in Next(s, e).calls ensures CallOk(Next(s, e), c) {
      CallKept(s, e, c);
    }
    hide Next, TableOk, LockOk, CallOk;
  }

  lemma CallKept(s: State, e: Event, c: nat)
    requires Sound(s) && Enabled(s, e) && c in Next(s, e).calls
    ensures CallOk(Next(s, e), c)
  {
    hide TableOk, LockOk, CallOk, IsPending;
    if !SendEvent(e) && !e.Cancel? {
      hide Next;
      CallKeptRest(s, e, c);
    } else if c == e.c {
      hide Next;
      CallKeptSend(s, e);
    } else {
      hide TableOk, LockOk, CallOk;
      CallsStay(s, e);
      hide Next;
      OthersKept(s, e, c);
    }
  }

  lemma CallsStay(s: State, e: Event)
    requires Sound(s) && Enabled(s, e) && (SendEvent(e) || e.Cancel?)
    ensures Next(s, e).calls.Keys == s.calls.Keys
  {
  }

  /** Every interleaving keeps the client in order. */
  lemma {:induction false} RunSound(es: seq<Event>)
    requires Run(es).Some?
    ensures Sound(Run(es).value) && Unique(Run(es).value)
    decreases |es|
  {
    if es != [] {
      RunSound(es[..|es| - 1]);
      var s, e := Run(es[..|es| - 1]).value, es[|es| - 1];
      SoundKept(s, e);
      UniqueKept(s, e);
    }
  }

  /** No call is completed twice, and a reply completes only the call with its number. */
  lemma AtMostOnce(es: seq<Event>, c: nat)
    requires Run(es).Some? && c in Run(es).value.calls
    ensures var k := Run(es).value.calls[c];
      |k.fired| <= 1 && forall o :: o in k.fired ==> Own(o, k.number)
  {
    RunSound(es);
    assert CallOk(Run(es).value, c);
  }

  predicate Names(o: Outcome, q: nat) { o == Answered(q) || o == ServerError(q) || o == BodyError(q) }

  lemma Delivered(es: seq<Event>, c: nat, o: Outcome, q: nat)
    requires Run(es).Some? && c in Run(es).value.calls && o in Run(es).value.calls[c].fired && Names(o, q)
    ensures var k := Run(es).value.calls[c]; 0 < q == k.number && k.fired == [o]
  {
    hide Run, TableOk, LockOk, Unique;
    RunSound(es);
    DeliveredIn(Run(es).value, c, o, q);
  }

  lemma DeliveredIn(s: State, c: nat, o: Outcome, q: nat)
    requires c in s.calls && CallOk(s, c) && o in s.calls[c].fired && Names(o, q)
    ensures 0 < q == s.calls[c].number && s.calls[c].fired == [o]
  {
  }

  /** Replies with one number complete at most one call. */
  lemma OneCallPerReply(es: seq<Event>, c: nat, d: nat, o: Outcome, o': Outcome, q: nat)
    requires Run(es).Some? && c in Run(es).value.calls && d in Run(es).value.calls
    requires o in Run(es).value.calls[c].fired && o' in Run(es).value.calls[d].fired && Names(o, q) && Names(o', q)
    ensures c == d && o == o'
  {
    Delivered(es, c, o, q);
    Delivered(es, d, o', q);
    RunSound(es);
    hide Run, Sound;
  }

  /** Once the receive loop has terminated the calls, every call whose `send` has returned was completed
      exactly once, unless its own context took it out of the table first. */
  lemma AllCompleted(es: seq<Event>, c: nat)
    requires Run(es).Some? && Run(es).value.receiver == Finished
    requires At(Run(es).value, c, Returned)
    ensures var k := Run(es).value.calls[c]; |k.fired| == 1 || (k.fired == [] && k.dropped && Cancel(c) in es)
  {
    RunSound(es);
    assert CallOk(Run(es).value, c);
    Provenance(es, c);
  }

  /** The events that account for a completion. */
  ghost predicate Accounted(es: seq<Event>, c: nat, o: Outcome) {
    match o
    case Refused => Refuse(c) in es
    case WriteError => Write(c, false) in es
    case Answered(q) => Header(q, false) in es && Body(true) in es
    case ServerError(q) => Header(q, true) in es
    case BodyError(q) => Header(q, false) in es && Body(false) in es
    case Terminated => Terminate in es
  }

  ghost predicate Explained(es: seq<Event>, s: State) {
    && (s.receiver.Got? || s.receiver.Holding? ==> Header(s.receiver.q, s.receiver.failed) in es)
    && forall c :: c in s.calls ==> ExplainedCall(es, c, s.calls[c])
  }

  ghost predicate ExplainedCall(es: seq<Event>, c: nat, k: CallState) {
    && (k.phase == Failed || k.phase.Found? ==> Write(c, false) in es)
    && (k.dropped ==> Cancel(c) in es)
    && forall o :: o in k.fired ==> Accounted(es, c, o)
  }

  lemma ExplainedMore(es: seq<Event>, e: Event, c: nat, k: CallState)
    requires ExplainedCall(es, c, k)
    ensures ExplainedCall(es + [e], c, k)
  {
    forall o | o in k.fired ensures Accounted(es + [e], c, o) {
      assert Accounted(es, c, o);
    }
  }

  /** What an event changes about a call. */
  lemma CallChanges(s: State, e: Event, c: nat)
    requires Sound(s) && Enabled(s, e) && c in Next(s, e).calls
    ensures var k' := Next(s, e).calls[c];
      if c !in s.calls then e == Go(c) && k'.fired == [] && !k'.dropped && k'.phase == Waiting
      else
        var k := s.calls[c];
        && (k'.dropped ==> k.dropped || e == Cancel(c))
        && (k'.phase == Failed || k'.phase.Found? ==> k.phase == Failed || k.phase.Found? || e == Write(c, false))
        && (k'.fired == k.fired
            || (e == Refuse(c) && k'.fired == k.fired + [Refused])
            || (e.Terminate? && k'.fired == k.fired + [Terminated])
            || (e.Fail? && k.phase.Found? && k'.fired == k.fired + [WriteError])
            || (e.Body? && s.receiver.Holding?
                && k'.fired == k.fired + [Reply(s.receiver.q, s.receiver.failed, e.ok)]))
  {
    hide TableOk, LockOk;
    if e.Fail? {
      assert CallOk(s, e.c);
    }
  }

  lemma ExplainedStep(es: seq<Event>, s: State, e: Event, c: nat)
    requires Sound(s) && Explained(es, s) && Enabled(s, e) && c in Next(s, e).calls
    ensures ExplainedCall(es + [e], c, Next(s, e).calls[c])
  {
    hide Next, Sound, Enabled;
    CallChanges(s, e, c);
    if c in s.calls {
      ExplainedMore(es, e, c, s.calls[c]);
    }
  }

  lemma ReceiverExplained(es: seq<Event>, s: State, e: Event)
    requires Explained(es, s) && Enabled(s, e)
    ensures var r := Next(s, e).receiver; r.Got? || r.Holding? ==> Header(r.q, r.failed) in es + [e]
  {
  }

  lemma ExplainedKept(es: seq<Event>, s: State, e: Event)
    requires Sound(s) && Explained(es, s) && Enabled(s, e)
    ensures Explained(es + [e], Next(s, e))
  {
    ReceiverExplained(es, s, e);
    forall c | c in Next(s, e).calls ensures ExplainedCall(es + [e], c, Next(s, e).calls[c]) {
      ExplainedStep(es, s, e, c);
    }
    hide Next, Sound, Enabled, ExplainedCall;
  }

  /** Whatever completes a call was really received, refused, failed or terminated; only its own
      context drops it. */
  lemma {:induction false} Provenance(es: seq<Event>, c: nat)
    requires Run(es).Some? && c in Run(es).value.calls
    ensures ExplainedCall(es, c, Run(es).value.calls[c])
  {
    RunExplained(es);
  }

  lemma {:induction false} RunExplained(es: seq<Event>)
    requires Run(es).Some?
    ensures Explained(es, Run(es).value)
    decreases |es|
  {
    if es != [] {
      var es', e := es[..|es| - 1], es[|es| - 1];
      RunExplained(es');
      RunSound(es');
      ExplainedKept(es', Run(es').value, e);
      assert es' + [e] == es;
    }
  }

  /** After `Close` or shutdown no call enters the table any more. */
  lemma ClosedForGood(s: State, e: Event)
    requires Sound(s) && Enabled(s, e) && !Open(s.table)
    ensures var t := Next(s, e).table;
      && !Open(t) && t.next == s.table.next
      && forall q :: q in t.pending ==> q in s.table.pending && t.pending[q] == s.table.pending[q]
  {
  }

  lemma RunSnoc(es: seq<Event>, e: Event)
    requires Run(es).Some? && Enabled(Run(es).value, e)
    ensures Run(es + [e]) == Some(Next(Run(es).value, e))
  {
    assert (es + [e])[..|es|] == es;
  }

  /** How many steps the holder of `sending` is away from giving it up. */
  function ToGo(s: State): nat {
    match s.sending
    case Free => 0
    case Terminator => 1
    case Sender(c) =>
      if c !in s.calls then 0
      else match s.calls[c].phase
           case Locked => 4
           case Writing => 3
           case Failed => 2
           case _ => 1
  }

  /** The holder of `sending` always has a step of its own, and the steps run out. */
  lemma HolderMoves(s: State) returns (e: Event)
    requires Sound(s) && s.sending != Free
    ensures Enabled(s, e) && ToGo(Next(s, e)) < ToGo(s)
    ensures e == Terminate || (SendEvent(e) && s.sending == Sender(e.c))
  {
    if s.sending == Terminator {
      return Terminate;
    }
    var c := s.sending.call;
    assert CallOk(s, c);
    match s.calls[c].phase
    case Locked => e := Register(c);
    case Rejected => e := Refuse(c);
    case Writing => e := Write(c, true);
    case Failed => e := Unregister(c);
    case Found(_) => e := Fail(c);
  }

  /** From every state some interleaving frees the lock: nobody keeps it waiting for somebody else. */
  lemma {:induction false} LockReleased(es: seq<Event>) returns (more: seq<Event>)
    requires Run(es).Some?
    ensures Run(es + more).Some? && Run(es + more).value.sending == Free
    decreases ToGo(Run(es).value)
  {
    hide Run, Sound, Unique, Next, Enabled, ToGo;
    RunSound(es);
    var s := Run(es).value;
    if s.sending == Free {
      assert es + [] == es;
      return [];
    }
    var e := HolderMoves(s);
    RunSnoc(es, e);
    var rest := LockReleased(es + [e]);
    more := [e] + rest;
    assert es + more == es + [e] + rest;
  }
}
