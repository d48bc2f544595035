/** Duplicate suppression: every interleaving of callers of `Do`. */
module SingleFlight {
  import opened Options

  /** The section under the first lock: join the call in flight, or become its leader with `c`. */
  function Join<C>(m: map<string, C>, key: string, c: C): (map<string, C>, C) {
    if key in m then (m, m[key]) else (m[key := c], c)
  }

  /** The value and the error that `fn` returns. */
  datatype Result = Result(val: string, err: Option<string>)

  /** A call record: whether its followers are released, and the result. */
  datatype Record = Record(done: bool, value: Option<Result>)

  /** `c.val, c.err = fn()`. */
  function Stored(r: Record, v: Result): Record { r.(value := Some(v)) }

  /** `c.wg.Done()`. */
  function Released(r: Record): Record { r.(done := true) }

  /** The section under the second lock. */
  function Dropped<C>(m: map<string, C>, key: string): map<string, C> { m - {key} }

  class Call {
    var done: bool
    var value: Option<Result>

    ghost function View(): Record
      reads this
    {
      Record(done, value)
    }

    constructor ()
      ensures View() == Record(false, None)
    {
      done, value := false, None;
    }
  }

  /** The sections of `Do` that run without interruption. */
  class Group {
    var m: map<string, Call>

    constructor ()
      ensures m == map[]
    {
      m := map[];
    }

    method Enter(key: string) returns (c: Call, leader: bool)
      modifies this
      ensures (m, c) == Join(old(m), key, c)
      ensures leader <==> key !in old(m)
      ensures leader ==> fresh(c) && c.View() == Record(false, None)
    {
      if key in m {
        return m[key], false;
      }
      c := new Call();
      m := m[key := c];
      return c, true;
    }

    method Store(c: Call, value: Result)
      modifies c
      ensures c.View() == Stored(old(c.View()), value)
    {
      c.value := Some(value);
    }

    method Release(c: Call)
      modifies c
      ensures c.View() == Released(old(c.View()))
    {
      c.done := true;
    }

    method Forget(key: string)
      modifies this
      ensures m == Dropped(old(m), key)
    {
      m := m - {key};
    }
  }

  /** Where one caller stands; calls are named by the caller that leads them. */
  datatype Phase =
    | Waiting(call: nat)
    | Running
    | Computed
    | Signalled
    | Deleted
    | Returned(call: nat, value: Result)

  datatype Caller = Caller(key: string, phase: Phase)

  datatype State = State(m: map<string, nat>, calls: map<nat, Record>, callers: map<nat, Caller>)

  const INIT := State(map[], map[], map[])

  datatype Event =
    | Enter(p: nat, key: string)
    | Compute(p: nat, v: Result)
    | Signal(p: nat)
    | Delete(p: nat)
    | Return(p: nat)
    | Wake(p: nat)

  predicate Enabled(s: State, e: Event) {
    match e
    case Enter(p, _) => p !in s.callers
    case Compute(p, _) => p in s.callers && s.callers[p].phase == Running && p in s.calls
    case Signal(p) => p in s.callers && s.callers[p].phase == Computed && p in s.calls
    case Delete(p) => p in s.callers && s.callers[p].phase == Signalled
    case Return(p) => p in s.callers && s.callers[p].phase == Deleted && p in s.calls && s.calls[p].value.Some?
    case Wake(p) =>
      && p in s.callers && s.callers[p].phase.Waiting? && s.callers[p].phase.call in s.calls
      && var c := s.calls[s.callers[p].phase.call]; c.done && c.value.Some?
  }

  function Go(s: State, p: nat, phase: Phase): State
    requires p in s.callers
  {
    s.(callers := s.callers[p := s.callers[p].(phase := phase)])
  }

  function Next(s: State, e: Event): State
    requires Enabled(s, e)
  {
    match e
    case Enter(p, key) =>
      var (m, c) := Join(s.m, key, p);
      if c == p && key !in s.m then
        State(m, s.calls[p := Record(false, None)], s.callers[p := Caller(key, Running)])
      else State(m, s.calls, s.callers[p := Caller(key, Waiting(c))])
    case Compute(p, v) => Go(s, p, Computed).(calls := s.calls[p := Stored(s.calls[p], v)])
    case Signal(p) => Go(s, p, Signalled).(calls := s.calls[p := Released(s.calls[p])])
    case Delete(p) => Go(s, p, Deleted).(m := Dropped(s.m, s.callers[p].key))
    case Return(p) => Go(s, p, Returned(p, s.calls[p].value.value))
    case Wake(p) =>
      var c := s.callers[p].phase.call;
      Go(s, p, Returned(c, s.calls[c].value.value))
  }

  function Run(es: seq<Event>): Option<State> {
    if es == [] then Some(INIT)
    else
      var s, e := Run(es[..|es| - 1]), es[|es| - 1];
      if s.Some? && Enabled(s.value, e) then Some(Next(s.value, e)) else None
  }

  /** Between inserting the call and deleting it. */
  predicate Leads(s: State, p: nat) {
    p in s.callers && (s.callers[p].phase == Running || s.callers[p].phase == Computed || s.callers[p].phase == Signalled)
  }

  predicate CallerOk(s: State, p: nat)
    requires p in s.callers
  {
    match s.callers[p].phase
    case Waiting(c) => p !in s.calls && c in s.calls && c in s.callers && s.callers[c].key == s.callers[p].key
    case Running => s.calls.Keys >= {p} && s.calls[p] == Record(false, None)
    case Computed => p in s.calls && !s.calls[p].done && s.calls[p].value.Some?
    case Signalled => p in s.calls && s.calls[p].done && s.calls[p].value.Some?
    case Deleted => p in s.calls && s.calls[p].done && s.calls[p].value.Some?
    case Returned(c, v) =>
      && c in s.calls && s.calls[c].done && s.calls[c].value == Some(v)
      && c in s.callers && s.callers[c].key == s.callers[p].key
      && (p in s.calls ==> c == p)
  }

  /** The map holds exactly the calls whose leaders are between insertion and deletion. */
  ghost predicate MapOk(s: State) {
    && (forall p :: Leads(s, p) ==> s.callers[p].key in s.m && s.m[s.callers[p].key] == p)
    && (forall k :: k in s.m ==> Leads(s, s.m[k]) && s.callers[s.m[k]].key == k)
  }

  ghost predicate CallsOk(s: State) {
    && (forall c :: c in s.calls ==> c in s.callers && !s.callers[c].phase.Waiting?)
    && (forall p :: p in s.callers ==> CallerOk(s, p))
  }

  lemma MapKept(s: State, e: Event)
    requires MapOk(s) && Enabled(s, e)
    ensures MapOk(Next(s, e))
  {
  }

  /** Its own step leaves a caller in order. */
  lemma OwnKept(s: State, e: Event)
    requires MapOk(s) && CallsOk(s) && Enabled(s, e)
    ensures e.p in Next(s, e).callers && CallerOk(Next(s, e), e.p)
  {
  }

  /** And so do the steps of others. */
  lemma OtherKept(s: State, e: Event, p: nat)
    requires CallsOk(s) && Enabled(s, e) && p in s.callers && p != e.p
    ensures p in Next(s, e).callers && CallerOk(Next(s, e), p)
  {
    assert CallerOk(s, p);
    if e.p in s.callers {
      assert CallerOk(s, e.p);
    }
    assert e.p in s.calls ==> e.p in s.callers;
    hide CallsOk;
  }

  lemma CallerKept(s: State, e: Event, p: nat)
    requires MapOk(s) && CallsOk(s) && Enabled(s, e) && p in Next(s, e).callers
    ensures CallerOk(Next(s, e), p)
  {
    CallersGrow(s, e, p);
    hide Next, MapOk, CallsOk, CallerOk;
    if p == e.p {
      OwnKept(s, e);
    } else {
      OtherKept(s, e, p);
    }
  }

  lemma CallersGrow(s: State, e: Event, p: nat)
    requires Enabled(s, e) && p in Next(s, e).callers
    ensures p in s.callers || p == e.p
  {
  }

  lemma CallsKept(s: State, e: Event, c: nat)
    requires MapOk(s) && CallsOk(s) && Enabled(s, e) && c in Next(s, e).calls
    ensures c in Next(s, e).callers && !Next(s, e).callers[c].phase.Waiting?
  {
  }

  lemma {:induction false} RunOk(es: seq<Event>)
    requires Run(es).Some?
    ensures MapOk(Run(es).value) && CallsOk(Run(es).value)
  {
    if es != [] {
      var s, e := Run(es[..|es| - 1]).value, es[|es| - 1];
      RunOk(es[..|es| - 1]);
      MapKept(s, e);
      forall c | c in Next(s, e).calls ensures c in Next(s, e).callers && !Next(s, e).callers[c].phase.Waiting? {
        CallsKept(s, e, c);
      }
      forall p | p in Next(s, e).callers ensures CallerOk(Next(s, e), p) {
        CallerKept(s, e, p);
      }
      hide Next, Enabled, CallerOk, MapOk;
    }
  }

  /** At most one leader per key is between inserting its call and deleting it. */
  lemma OneLeader(es: seq<Event>, p: nat, q: nat)
    requires Run(es).Some? && Leads(Run(es).value, p) && Leads(Run(es).value, q)
    requires Run(es).value.callers[p].key == Run(es).value.callers[q].key
    ensures p == q
  {
    RunOk(es);
  }

  /** Every stored value was computed by the leader of its call. */
  ghost predicate Sourced(es: seq<Event>, s: State) {
    forall c :: c in s.calls && s.calls[c].value.Some? ==> Compute(c, s.calls[c].value.value) in es
  }

  lemma SourcedKept(es: seq<Event>, s: State, e: Event)
    requires Sourced(es, s) && Enabled(s, e)
    ensures Sourced(es + [e], Next(s, e))
  {
  }

  lemma {:induction false} RunSourced(es: seq<Event>)
    requires Run(es).Some?
    ensures Sourced(es, Run(es).value)
  {
    if es != [] {
      RunSourced(es[..|es| - 1]);
      SourcedKept(es[..|es| - 1], Run(es[..|es| - 1]).value, es[|es| - 1]);
      assert es[..|es| - 1] + [es[|es| - 1]] == es;
    }
  }

  /** Whoever returns, leader or follower, returns what the leader of its call computed for the same key. */
  lemma ReturnsLeadersResult(es: seq<Event>, p: nat)
    requires Run(es).Some? && p in Run(es).value.callers && Run(es).value.callers[p].phase.Returned?
    ensures var s := Run(es).value; var k := s.callers[p];
      && k.phase.call in s.callers && s.callers[k.phase.call].key == k.key
      && k.phase.call in s.calls && s.calls[k.phase.call].value == Some(k.phase.value)
      && Compute(k.phase.call, k.phase.value) in es
  {
    RunOk(es);
    RunSourced(es);
    assert CallerOk(Run(es).value, p);
  }

  /** A leader runs the function once. */
  lemma {:induction false} ComputesOnce(es: seq<Event>, i: nat, j: nat, p: nat)
    requires Run(es).Some? && i < j < |es| && es[i].Compute? && es[i].p == p
    ensures !(es[j].Compute? && es[j].p == p)
  {
    if es[j].Compute? && es[j].p == p {
      RunPrefix(es, j + 1);
      RunPrefix(es, j);
      assert es[..j + 1][..j] == es[..j];
      hide Next, Enabled;
      Past(es[..j], i, p);
      ComputePasses(Run(es[..j]).value, es[j]);
    }
  }

  lemma {:induction false} RunPrefix(es: seq<Event>, n: nat)
    requires Run(es).Some? && n <= |es|
    ensures Run(es[..n]).Some?
    decreases |es|
  {
    if n < |es| {
      RunPrefix(es[..|es| - 1], n);
      assert es[..|es| - 1][..n] == es[..n];
    } else {
      assert es[..n] == es;
    }
  }

  lemma StaysPast(s: State, e: Event, p: nat)
    requires Enabled(s, e) && p in s.callers && s.callers[p].phase != Running
    ensures p in Next(s, e).callers && Next(s, e).callers[p].phase != Running
  {
  }

  lemma ComputePasses(s: State, e: Event)
    requires Enabled(s, e) && e.Compute?
    ensures e.p in s.callers && s.callers[e.p].phase == Running
    ensures e.p in Next(s, e).callers && Next(s, e).callers[e.p].phase == Computed
  {
  }

  /** After its computation a leader never runs again. */
  lemma {:induction false} Past(es: seq<Event>, i: nat, p: nat)
    requires Run(es).Some? && i < |es| && es[i].Compute? && es[i].p == p
    ensures p in Run(es).value.callers && Run(es).value.callers[p].phase != Running
  {
    hide Next, Enabled;
    var n := |es| - 1;
    if i == n {
      ComputePasses(Run(es[..n]).value, es[n]);
    } else {
      Past(es[..n], i, p);
      StaysPast(Run(es[..n]).value, es[n], p);
    }
  }

  /** The leader of a key always has a step of its own, so nobody waits for a caller that cannot move. */
  lemma LeaderMoves(es: seq<Event>, p: nat, v: Result) returns (e: Event)
    requires Run(es).Some? && p in Run(es).value.callers && !Run(es).value.callers[p].phase.Returned?
    ensures var s := Run(es).value;
      && Enabled(s, e)
      && (e.p == p || (s.callers[p].phase.Waiting? && e.p == s.callers[p].phase.call && Leads(s, e.p)))
  {
    RunOk(es);
    var s := Run(es).value;
    assert CallerOk(s, p);
    match s.callers[p].phase
    case Running => return Compute(p, v);
    case Computed => return Signal(p);
    case Signalled => return Delete(p);
    case Deleted => return Return(p);
    case Waiting(c) =>
      assert CallerOk(s, c);
      if s.calls[c].done && s.calls[c].value.Some? {
        return Wake(p);
      }
      return if s.callers[c].phase == Running then Compute(c, v) else Signal(c);
  }
}
