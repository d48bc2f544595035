/** What becomes of a call: the outcome that each turn of events leads to, on whatever run it comes. */
module ClientOutcomes {
  import opened Options
  import opened CallTable
  import opened ClientRuns

  lemma {:induction false} RunPrefix(a: seq<Event>, b: seq<Event>)
    requires Run(a + b).Some?
    ensures Run(a).Some?
    decreases |b|
  {
    hide Next, Enabled;
    if b == [] {
      assert a + b == a;
    } else {
      assert (a + b)[..|a + b| - 1] == a + b[..|b| - 1];
      RunPrefix(a, b[..|b| - 1]);
    }
  }

  lemma RunLast(es: seq<Event>, e: Event)
    requires Run(es + [e]).Some?
    ensures Run(es).Some? && Enabled(Run(es).value, e) && Run(es + [e]) == Some(Next(Run(es).value, e))
  {
    assert (es + [e])[..|es|] == es;
  }

  lemma RunTwo(es: seq<Event>, e: Event, f: Event)
    requires Run(es).Some? && Enabled(Run(es).value, e) && Enabled(Next(Run(es).value, e), f)
    ensures Run(es + [e, f]) == Some(Next(Next(Run(es).value, e), f))
  {
    hide Next, Enabled, Run;
    RunSnoc(es, e);
    RunSnoc(es + [e], f);
    assert es + [e] + [f] == es + [e, f];
  }

  lemma RunThree(es: seq<Event>, e: Event, f: Event, g: Event)
    requires Run(es).Some? && Enabled(Run(es).value, e) && Enabled(Next(Run(es).value, e), f)
    requires Enabled(Next(Next(Run(es).value, e), f), g)
    ensures Run(es + [e, f, g]) == Some(Next(Next(Next(Run(es).value, e), f), g))
  {
    hide Next, Enabled, Run;
    RunTwo(es, e, f);
    RunSnoc(es + [e, f], g);
    assert es + [e, f] + [g] == es + [e, f, g];
  }

  /** The call has been completed exactly once, and so. */
  predicate Settled(s: State, c: nat, o: Outcome) { c in s.calls && s.calls[c].fired == [o] }

  // ---------- replies ----------

  lemma IdleFired(s: State, c: nat)
    requires c in s.calls && CallOk(s, c) && (IsPending(s, c) || Receives(s, c)) && s.receiver != Finished
    requires s.calls[c].number != 0
    ensures s.calls[c].fired == []
  {
  }

  lemma PendingFired(s: State, c: nat, q: nat)
    requires Sound(s) && q in s.table.pending && s.table.pending[q] == c && s.receiver != Finished
    ensures c in s.calls && s.calls[c].number == q != 0 && s.calls[c].fired == []
  {
    hide LockOk, CallOk;
    assert CallOk(s, c);
    IdleFired(s, c);
  }

  /** A reply for a pending call can always be received, and completes it: with the error the server sent,
      or else with the answer if the body can be read, or else with the error of reading it. A reply for no
      pending call completes none. The loop goes on if and only if the body can be read. */
  lemma ReplyCompletes(es: seq<Event>, q: nat, failed: bool, ok: bool)
    requires Run(es).Some? && Run(es).value.receiver == Idle
    ensures Run(es + [Header(q, failed), Take, Body(ok)]).Some?
    ensures var s, s' := Run(es).value, Run(es + [Header(q, failed), Take, Body(ok)]).value;
      && q !in s'.table.pending
      && s'.receiver == (if ok then Idle else Broken)
      && (q in s.table.pending ==>
            Settled(s', s.table.pending[q], if failed then ServerError(q) else if ok then Answered(q) else BodyError(q)))
      && (q !in s.table.pending ==> s'.calls == s.calls && s'.table == s.table)
      && (forall c :: c in s.calls && !(q in s.table.pending && s.table.pending[q] == c) ==>
            c in s'.calls && s'.calls[c] == s.calls[c])
      && (forall p :: p in s.table.pending && p != q ==>
            p in s'.table.pending && s'.table.pending[p] == s.table.pending[p])
  {
    hide Sound, Unique, Run;
    RunSound(es);
    var s := Run(es).value;
    if q in s.table.pending {
      PendingFired(s, s.table.pending[q], q);
    } else {
      assert s.table.pending - {q} == s.table.pending;
    }
    RunThree(es, Header(q, failed), Take, Body(ok));
  }

  lemma HeldKept(s: State, e: Event, r: Receiver)
    requires Enabled(s, e) && s.receiver == r && r.Holding? && !e.Body?
    ensures Next(s, e).receiver == r
  {
  }

  lemma {:induction false} HeldUntilBody(es: seq<Event>, between: seq<Event>, r: Receiver)
    requires Run(es + between).Some? && (forall i :: 0 <= i < |between| ==> !between[i].Body?) && r.Holding?
    requires Run(es).Some? && Run(es).value.receiver == r
    ensures Run(es + between).value.receiver == r
    decreases |between|
  {
    hide Next, Enabled, Run;
    if between == [] {
      assert es + between == es;
    } else {
      var init, e := between[..|between| - 1], between[|between| - 1];
      assert es + between == es + init + [e];
      RunLast(es + init, e);
      HeldUntilBody(es, init, r);
      HeldKept(Run(es + init).value, e, r);
    }
  }

  /** And whatever other goroutines do between the three steps, once a reply has met its pending call. */
  lemma TakenCompletes(es: seq<Event>, between: seq<Event>, c: nat, q: nat, failed: bool, ok: bool)
    requires Run(es).Some? && Run(es).value.receiver == Got(q, failed)
    requires q in Run(es).value.table.pending && Run(es).value.table.pending[q] == c
    requires Run(es + [Take] + between + [Body(ok)]).Some?
    requires forall i :: 0 <= i < |between| ==> !between[i].Body?
    ensures Settled(Run(es + [Take] + between + [Body(ok)]).value, c,
                    if failed then ServerError(q) else if ok then Answered(q) else BodyError(q))
  {
    hide Next, Enabled, Sound, Unique, Run, Settled;
    var r := Holding(q, failed, Some(c));
    RunLast(es + [Take] + between, Body(ok));
    RunPrefix(es + [Take], between);
    RunLast(es, Take);
    TakeHolds(Run(es).value, c);
    HeldUntilBody(es + [Take], between, r);
    RunSound(es + [Take] + between);
    BodyCompletes(Run(es + [Take] + between).value, c, ok);
  }

  lemma TakeHolds(s: State, c: nat)
    requires s.receiver.Got? && s.receiver.q in s.table.pending && s.table.pending[s.receiver.q] == c
    ensures Enabled(s, Take) && Next(s, Take).receiver == Holding(s.receiver.q, s.receiver.failed, Some(c))
  {
  }

  lemma BodyCompletes(s: State, c: nat, ok: bool)
    requires Sound(s) && s.receiver.Holding? && s.receiver.call == Some(c) && Enabled(s, Body(ok))
    ensures Settled(Next(s, Body(ok)), c,
      if s.receiver.failed then ServerError(s.receiver.q)
      else if ok then Answered(s.receiver.q)
      else BodyError(s.receiver.q))
  {
    assert CallOk(s, c);
    hide TableOk, CallOk;
    IdleFired(s, c);
  }

  // ---------- sending ----------

  /** On an open client a new call can be sent whenever the lock is free: it is filed under the next number
      and its `send` returns without completing it. On a closed one it is refused, and the table stays. */
  lemma SendFiles(es: seq<Event>, c: nat)
    requires Run(es).Some? && Run(es).value.sending == Free && c !in Run(es).value.calls
    ensures Run(es + [Go(c), Lock(c), Register(c)]).Some?
    ensures var s := Run(es).value;
      var last := if s.table.closing || s.table.shutdown then Refuse(c) else Write(c, true);
      && Run(es + [Go(c), Lock(c), Register(c)] + [last]).Some?
      && var s' := Run(es + [Go(c), Lock(c), Register(c)] + [last]).value;
         && s'.sending == Free && s'.receiver == s.receiver && At(s', c, Returned)
         && if s.table.closing || s.table.shutdown then Settled(s', c, Refused) && s'.table == s.table
            else
              && s'.calls[c].fired == [] && s'.calls[c].number == s.table.next
              && s'.table.pending == s.table.pending[s.table.next := c]
              && s'.table.next == s.table.next + 1
  {
    hide Run;
    var s := Run(es).value;
    RunThree(es, Go(c), Lock(c), Register(c));
    RunSnoc(es + [Go(c), Lock(c), Register(c)], if Open(s.table) then Write(c, true) else Refuse(c));
  }

  /** When the request cannot be written and nothing has taken the call out of the table, the steps of its own
      `send` complete it with the error; if its reply got there first, they leave it alone. */
  lemma WriteErrorCompletes(es: seq<Event>, c: nat)
    requires Run(es).Some? && At(Run(es).value, c, Writing)
    ensures Run(es + [Write(c, false), Unregister(c)]).Some?
    ensures var s := Run(es).value;
      if s.calls[c].number in s.table.pending then
        && Run(es + [Write(c, false), Unregister(c), Fail(c)]).Some?
        && var s' := Run(es + [Write(c, false), Unregister(c), Fail(c)]).value;
           Settled(s', c, WriteError) && At(s', c, Returned) && s'.sending == Free
           && s'.table.pending == s.table.pending - {s.calls[c].number}
      else
        var s' := Run(es + [Write(c, false), Unregister(c)]).value;
        s'.calls[c].fired == s.calls[c].fired && At(s', c, Returned) && s'.sending == Free
        && s'.table.pending == s.table.pending
  {
    hide Run, Sound, Unique;
    RunSound(es);
    var s := Run(es).value;
    WritingState(s, c);
    RunTwo(es, Write(c, false), Unregister(c));
    if IsPending(s, c) {
      RunThree(es, Write(c, false), Unregister(c), Fail(c));
    } else {
      assert s.table.pending - {s.calls[c].number} == s.table.pending;
    }
  }

  lemma WritingState(s: State, c: nat)
    requires Sound(s) && At(s, c, Writing)
    ensures s.calls[c].number != 0
    ensures IsPending(s, c) ==> s.table.pending[s.calls[c].number] == c && s.calls[c].fired == []
  {
    assert CallOk(s, c);
  }

  // ---------- failed writes, cancellations and the end, in every interleaving ----------

  /** Only replies have completed it so far. */
  predicate OnlyReplies(s: State, c: nat)
    requires c in s.calls
  {
    forall o :: o in s.calls[c].fired ==> Names(o, s.calls[c].number)
  }

  predicate Sending(p: Phase) { p == Writing || p == Failed || p.Found? }

  /** Its `send` is over and took it out of the table, unless a reply had done so before. */
  predicate Out(s: State, c: nat)
    requires c in s.calls
  {
    && s.calls[c].phase == Returned && s.calls[c].number != 0 && !s.calls[c].dropped && !IsPending(s, c)
    && forall o :: o in s.calls[c].fired ==> o == WriteError || Names(o, s.calls[c].number)
  }

  /** What a failed write means for a call. */
  ghost predicate WriteTracked(es: seq<Event>, s: State, c: nat) {
    && (c in s.calls && Sending(s.calls[c].phase) ==> OnlyReplies(s, c))
    && (Write(c, false) in es ==>
          c in s.calls && (s.calls[c].phase == Failed || s.calls[c].phase.Found? || Out(s, c)))
  }

  lemma WriteTrackedOwn(es: seq<Event>, s: State, e: Event, c: nat)
    requires TableOk(s) && LockOk(s) && Enabled(s, e) && (SendEvent(e) || e.Cancel?) && e.c == c && CallOk(s, c)
    requires WriteTracked(es, s, c)
    ensures WriteTracked(es + [e], Next(s, e), c)
  {
  }

  lemma WriteTrackedOther(es: seq<Event>, s: State, e: Event, c: nat)
    requires TableOk(s) && LockOk(s) && Enabled(s, e) && (SendEvent(e) || e.Cancel?) && e.c != c && CallOk(s, e.c)
    requires WriteTracked(es, s, c)
    requires c in s.calls ==> CallOk(s, c)
    ensures WriteTracked(es + [e], Next(s, e), c)
  {
  }

  lemma WriteTrackedRest(es: seq<Event>, s: State, e: Event, c: nat)
    requires LockOk(s) && Enabled(s, e) && !SendEvent(e) && !e.Cancel?
    requires WriteTracked(es, s, c)
    requires c in s.calls ==> CallOk(s, c)
    ensures WriteTracked(es + [e], Next(s, e), c)
  {
  }

  lemma {:induction false} RunWriteTracked(es: seq<Event>, c: nat)
    requires Run(es).Some?
    ensures WriteTracked(es, Run(es).value, c)
    decreases |es|
  {
    hide Next, WriteTracked, TableOk, LockOk, CallOk;
    if es == [] {
      WriteTrackedNone(c);
    } else {
      var init, e := es[..|es| - 1], es[|es| - 1];
      var s := Run(init).value;
      RunWriteTracked(init, c);
      RunSound(init);
      if !SendEvent(e) && !e.Cancel? {
        WriteTrackedRest(init, s, e, c);
      } else if e.c == c {
        WriteTrackedOwn(init, s, e, c);
      } else {
        WriteTrackedOther(init, s, e, c);
      }
      assert init + [e] == es;
    }
  }

  lemma WriteTrackedNone(c: nat)
    ensures WriteTracked([], INIT, c)
  {
  }

  /** In every interleaving, once `send` has returned from a write that failed, the call is out of the table,
      nothing can drop it, and it was completed with the write error or by its reply, unless the receive loop
      holds it and is about to complete it. */
  lemma FailedWriteSettles(es: seq<Event>, c: nat)
    requires Run(es).Some? && Write(c, false) in es && At(Run(es).value, c, Returned)
    ensures var s := Run(es).value; var q := s.calls[c].number;
      && q !in s.table.pending && !s.calls[c].dropped
      && (Receives(s, c)
          || Settled(s, c, WriteError)
          || Settled(s, c, Answered(q)) || Settled(s, c, ServerError(q)) || Settled(s, c, BodyError(q)))
  {
    hide Run, TableOk, LockOk, Unique;
    RunSound(es);
    RunWriteTracked(es, c);
    if !Receives(Run(es).value, c) {
      OutSettled(Run(es).value, c);
    }
  }

  lemma OutSettled(s: State, c: nat)
    requires c in s.calls && CallOk(s, c) && Out(s, c) && !Receives(s, c)
    ensures var q := s.calls[c].number;
      Settled(s, c, WriteError) || Settled(s, c, Answered(q)) || Settled(s, c, ServerError(q)) || Settled(s, c, BodyError(q))
  {
    assert s.calls[c].fired == [s.calls[c].fired[0]];
    assert s.calls[c].fired[0] in s.calls[c].fired;
  }

  /** Its own context took it out of the table before anything completed it. */
  predicate Abandoned(s: State, c: nat) {
    && At(s, c, Returned) && s.calls[c].dropped && s.calls[c].fired == []
    && !IsPending(s, c) && !Receives(s, c)
  }

  lemma AbandonedKept(s: State, e: Event, c: nat)
    requires Sound(s) && Enabled(s, e) && Abandoned(s, c)
    ensures Abandoned(Next(s, e), c)
  {
    assert CallOk(s, c);
    if e.Fail? {
      assert CallOk(s, e.c);
    }
  }

  lemma CancelAbandons(s: State, c: nat)
    requires Sound(s) && At(s, c, Returned) && IsPending(s, c) && s.receiver != Finished
    ensures Abandoned(Next(s, Cancel(c)), c)
  {
    assert CallOk(s, c);
  }

  /** A pending call whose context is cancelled before the loop has ended is never completed, however the run
      goes on. */
  lemma {:induction false} CancelledStaysQuiet(es: seq<Event>, more: seq<Event>, c: nat)
    requires Run(es).Some? && At(Run(es).value, c, Returned) && IsPending(Run(es).value, c)
    requires Run(es).value.receiver != Finished && Run(es + [Cancel(c)] + more).Some?
    ensures Abandoned(Run(es + [Cancel(c)] + more).value, c)
    decreases |more|
  {
    hide Next, Enabled, Run, Sound, Unique, Abandoned;
    if more == [] {
      assert es + [Cancel(c)] + more == es + [Cancel(c)];
      RunLast(es, Cancel(c));
      RunSound(es);
      CancelAbandons(Run(es).value, c);
    } else {
      var init, e := more[..|more| - 1], more[|more| - 1];
      assert es + [Cancel(c)] + more == es + [Cancel(c)] + init + [e];
      RunLast(es + [Cancel(c)] + init, e);
      CancelledStaysQuiet(es, init, c);
      RunSound(es + [Cancel(c)] + init);
      AbandonedKept(Run(es + [Cancel(c)] + init).value, e, c);
    }
  }

  /** The end of the loop shuts the client down, completes exactly the pending calls, each once, and gives up
      the lock. */
  lemma TerminateCompletes(es: seq<Event>)
    requires Run(es).Some? && Run(es).value.receiver == Terminating
    ensures Run(es + [Terminate]).Some?
    ensures var s, s' := Run(es).value, Run(es + [Terminate]).value;
      && s'.table == s.table.(shutdown := true) && s'.sending == Free && s'.receiver == Finished
      && (forall q :: q in s.table.pending ==> Settled(s', s.table.pending[q], Terminated))
      && (forall c :: c in s.calls && s.calls[c].number !in s.table.pending ==>
            c in s'.calls && s'.calls[c] == s.calls[c])
  {
    hide Run, Sound, Unique;
    RunSound(es);
    RunSnoc(es, Terminate);
    var s := Run(es).value;
    forall q | q in s.table.pending ensures Settled(Next(s, Terminate), s.table.pending[q], Terminated) {
      PendingFired(s, s.table.pending[q], q);
    }
  }

  // ---------- a closed client ----------

  /** The two flags: closed by `Close` alone, shut down by the end of the loop alone. */
  ghost predicate Flagged(es: seq<Event>, s: State) {
    && (s.table.closing <==> Close in es)
    && (s.table.shutdown <==> Terminate in es)
    && (s.receiver == Finished <==> Terminate in es)
  }

  lemma FlaggedKept(es: seq<Event>, s: State, e: Event)
    requires Enabled(s, e) && Flagged(es, s)
    ensures Flagged(es + [e], Next(s, e))
  {
  }

  lemma {:induction false} RunFlagged(es: seq<Event>)
    requires Run(es).Some?
    ensures Flagged(es, Run(es).value)
    decreases |es|
  {
    hide Next, Enabled;
    if es != [] {
      var init, e := es[..|es| - 1], es[|es| - 1];
      RunFlagged(init);
      FlaggedKept(init, Run(init).value, e);
      assert init + [e] == es;
    }
  }

  /** Never numbered, so never written: refused or not yet looked at. */
  predicate Unsent(s: State, c: nat) {
    c in s.calls ==>
      && s.calls[c].number == 0
      && s.calls[c].fired == if s.calls[c].phase == Returned then [Refused] else []
  }

  lemma UnsentKept(s: State, e: Event, c: nat)
    requires Sound(s) && Enabled(s, e) && Unsent(s, c) && !Open(s.table)
    ensures Unsent(Next(s, e), c)
  {
    if c in s.calls {
      assert CallOk(s, c);
    }
    if e.Fail? {
      assert CallOk(s, e.c);
    }
  }

  /** No call begun after `Close`, or after the end of the loop, is ever sent, in whatever interleaving: it is
      refused once, or is still on its way to that. */
  lemma {:induction false} ClosedSendsNothing(es: seq<Event>, more: seq<Event>, c: nat)
    requires Run(es).Some? && (Close in es || Terminate in es) && c !in Run(es).value.calls && Run(es + more).Some?
    ensures Unsent(Run(es + more).value, c)
    decreases |more|
  {
    hide Next, Enabled, Run, Sound, Unique, Unsent;
    if more == [] {
      assert es + more == es;
      AbsentUnsent(Run(es).value, c);
    } else {
      var init, e := more[..|more| - 1], more[|more| - 1];
      assert es + more == es + init + [e];
      RunLast(es + init, e);
      ClosedSendsNothing(es, init, c);
      RunSound(es + init);
      RunFlagged(es + init);
      UnsentKept(Run(es + init).value, e, c);
    }
  }

  lemma AbsentUnsent(s: State, c: nat)
    requires c !in s.calls
    ensures Unsent(s, c)
  {
  }

  /** From every state in which the loop waits for a reply, an error in reading the next header leads to the end
      of the loop: whoever holds the lock gives it up first. */
  lemma LoopCanEnd(es: seq<Event>) returns (more: seq<Event>)
    requires Run(es).Some? && Run(es).value.receiver == Idle
    ensures Run(es + [HeaderError] + more + [LockLast, Terminate]).Some?
    ensures Run(es + [HeaderError] + more + [LockLast, Terminate]).value.receiver == Finished
  {
    hide Run, Next;
    RunSnoc(es, HeaderError);
    HeaderErrorBreaks(Run(es).value);
    more := FreedWhileBroken(es + [HeaderError]);
    var s := Run(es + [HeaderError] + more).value;
    LastSteps(s);
    RunTwo(es + [HeaderError] + more, LockLast, Terminate);
  }

  lemma HeaderErrorBreaks(s: State)
    requires s.receiver == Idle
    ensures Next(s, HeaderError).receiver == Broken
  {
  }

  lemma LastSteps(s: State)
    requires s.receiver == Broken && s.sending == Free
    ensures Enabled(Next(s, LockLast), Terminate)
    ensures Next(Next(s, LockLast), Terminate).receiver == Finished
  {
  }

  lemma SendKeepsReceiver(s: State, e: Event)
    requires Enabled(s, e) && SendEvent(e)
    ensures Next(s, e).receiver == s.receiver
  {
  }

  lemma {:induction false} FreedWhileBroken(es: seq<Event>) returns (more: seq<Event>)
    requires Run(es).Some? && Run(es).value.receiver == Broken
    ensures Run(es + more).Some? && Run(es + more).value.sending == Free && Run(es + more).value.receiver == Broken
    decreases ToGo(Run(es).value)
  {
    hide Run, Unique, Next, Enabled, ToGo, TableOk, CallOk;
    RunSound(es);
    var s := Run(es).value;
    if s.sending == Free {
      assert es + [] == es;
      return [];
    }
    var e := HolderMoves(s);
    RunSnoc(es, e);
    SendKeepsReceiver(s, e);
    var rest := FreedWhileBroken(es + [e]);
    more := [e] + rest;
    assert es + more == es + [e] + rest;
  }
}
