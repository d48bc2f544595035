/** The table of pending calls of an RPC client, and the operations that run under its lock. */
module CallTable {
  import opened Options

  /** The fields guarded by `mu`. */
  datatype Table<C> = Table(next: nat, pending: map<nat, C>, closing: bool, shutdown: bool)

  const ERR_SHUTDOWN := "connection is shut down"

  const EMPTY: Table<nat> := Table(1, map[], false, false)

  predicate Open<C>(t: Table<C>) { !t.closing && !t.shutdown }

  /** The sequence number given to the call, unless the client is closed. */
  function Register<C>(t: Table<C>, call: C): (Table<C>, Option<nat>) {
    if Open(t) then (t.(next := t.next + 1, pending := t.pending[t.next := call]), Some(t.next)) else (t, None)
  }

  function Remove<C>(t: Table<C>, q: nat): (Table<C>, Option<C>) {
    (t.(pending := t.pending - {q}), if q in t.pending then Some(t.pending[q]) else None)
  }

  /** Numbers below `next` are the only ones in use. */
  ghost predicate Numbered<C>(t: Table<C>) {
    0 < t.next && forall q :: q in t.pending ==> 0 < q < t.next
  }

  /** A registered call can be taken out exactly once. */
  lemma RegisterRemove<C>(t: Table<C>, call: C)
    requires Numbered(t) && Open(t)
    ensures var (t', q) := Register(t, call);
      && Numbered(t') && q.value !in t.pending
      && Remove(t', q.value) == (t.(next := t.next + 1), Some(call))
      && Remove(Remove(t', q.value).0, q.value).1 == None
  {
    assert t.pending[t.next := call] - {t.next} == t.pending;
  }

  class Call {
    var number: nat
    var error: Option<string>
    /** How often the call was sent down its `Done` channel. */
    var strobes: nat

    constructor ()
      ensures number == 0 && error == None && strobes == 0
    {
      number, error, strobes := 0, None, 0;
    }

    method Done()
      modifies `strobes
      ensures strobes == old(strobes) + 1
    {
      strobes := strobes + 1;
    }
  }

  class Client {
    /** The next number to give out; the first is 1. */
    var next: nat
    var pending: map<nat, Call>
    var closing: bool
    var shutdown: bool
    /** How often the codec was closed. */
    var codecCloses: nat

    ghost function View(): Table<Call>
      reads this
    {
      Table(next, pending, closing, shutdown)
    }

    /** Every call sits under its own number. */
    ghost predicate Valid()
      reads this, pending.Values
    {
      && Numbered(View())
      && forall q :: q in pending ==> pending[q].number == q
    }

    constructor ()
      ensures Valid() && View() == Table(1, map[], false, false) && codecCloses == 0
    {
      next, pending, closing, shutdown, codecCloses := 1, map[], false, false, 0;
    }

    method IsAvailable() returns (ok: bool)
      ensures ok <==> Open(View())
    {
      ok := !shutdown && !closing;
    }

    /** `codec` is what closing the codec answers; a second call leaves the codec alone. */
    method Close(codec: Option<string>) returns (err: Option<string>)
      requires Valid()
      modifies `closing, `codecCloses
      ensures Valid() && View() == old(View()).(closing := true)
      ensures err == if old(closing) then Some(ERR_SHUTDOWN) else codec
      ensures codecCloses == old(codecCloses) + if old(closing) then 0 else 1
    {
      if closing {
        return Some(ERR_SHUTDOWN);
      }
      closing := true;
      codecCloses := codecCloses + 1;
      return codec;
    }

    method RegisterCall(call: Call) returns (q: Option<nat>)
      requires Valid() && call !in pending.Values
      modifies this, call`number
      ensures Valid()
      ensures (View(), q) == Register(old(View()), call)
      ensures call.number == if q.Some? then q.value else old(call.number)
    {
      if closing || shutdown {
        return None;
      }
      call.number := next;
      pending := pending[call.number := call];
      next := next + 1;
      return Some(call.number);
    }

    method RemoveCall(q: nat) returns (call: Option<Call>)
      requires Valid()
      modifies `pending
      ensures Valid()
      ensures (View(), call) == Remove(old(View()), q)
      ensures call.Some? ==> call.value.number == q
    {
      call := if q in pending then Some(pending[q]) else None;
      pending := pending - {q};
    }

    /** Fails every pending call, in no particular order, and leaves them in the table. */
    method TerminateCalls(err: string)
      requires Valid()
      modifies `shutdown, pending.Values
      ensures Valid() && View() == old(View()).(shutdown := true)
      ensures forall c :: c in pending.Values ==>
        c.strobes == old(c.strobes) + 1 && c.error == Some(err) && c.number == old(c.number)
    {
      shutdown := true;
      var left := pending.Keys;
      while left != {}
        invariant left <= pending.Keys && Valid() && View() == old(View()).(shutdown := true)
        invariant forall q :: q in pending ==>
          && pending[q].number == q
          && (if q in left then unchanged(pending[q])
              else pending[q].strobes == old(pending[q].strobes) + 1 && pending[q].error == Some(err))
      {
        var q :| q in left;
        var call := pending[q];
        call.error := Some(err);
        call.Done();
        left := left - {q};
      }
    }
  }
}
