/** The circuit breaker: closed, open, half-open. */
module Breaker {

  datatype Mode = Closed | Open | HalfOpen

  /** `window`, `threshold` and `timeout` are configuration. */
  datatype State = State(mode: Mode, failures: nat, successes: nat, changed: int, probe: bool,
                         window: int, threshold: real, timeout: int)

  /** A call, and the time it reads; only some of the calls look at it. */
  datatype Event = Allow(at: int) | Success(at: int) | Failure(at: int)

  function Fresh(window: int, threshold: real, timeout: int, at: int): State {
    State(Closed, 0, 0, at, false, window, threshold, timeout)
  }

  function Moved(s: State, mode: Mode, at: int): State {
    s.(mode := mode, changed := at, failures := 0, successes := 0, probe := false)
  }

  /** The failure share of a closed window reaches the threshold. */
  predicate Trips(s: State, failures: nat, successes: nat) {
    && failures + successes >= s.window
    && failures + successes > 0
    && failures as real / (failures + successes) as real >= s.threshold
  }

  function Step(s: State, e: Event): State {
    match e
    case Allow(at) =>
      if s.mode == Open && at - s.changed > s.timeout then s.(mode := HalfOpen, probe := false)
      else if s.mode == HalfOpen then s.(probe := true)
      else s
    case Success(at) =>
      if s.mode == Closed then s.(successes := s.successes + 1)
      else if s.mode == HalfOpen then Moved(s, Closed, at)
      else s
    case Failure(at) =>
      if s.mode == Closed then
        if s.failures + 1 + s.successes < s.window then s.(failures := s.failures + 1)
        else if Trips(s, s.failures + 1, s.successes) then Moved(s, Open, at)
        else s.(failures := 0, successes := 0)
      else if s.mode == HalfOpen then Moved(s, Open, at)
      else s
  }

  /** The answer of `Allow`. */
  predicate Admits(s: State, e: Event) {
    e.Allow? &&
    match s.mode
    case Closed => true
    case Open => e.at - s.changed > s.timeout
    case HalfOpen => !s.probe
  }

  class CircuitBreaker {
    var state: Mode
    var failureCount: nat
    var successCount: nat
    const windowSize: int
    const failureThreshold: real
    const openTimeout: int
    var lastStateChange: int
    var halfOpenProbe: bool

    ghost function View(): State
      reads this
    {
      State(state, failureCount, successCount, lastStateChange, halfOpenProbe, windowSize, failureThreshold, openTimeout)
    }

    constructor (windowSize: int, failureThreshold: real, openTimeout: int, now: int)
      ensures View() == Fresh(windowSize, failureThreshold, openTimeout, now)
    {
      state, failureCount, successCount, lastStateChange, halfOpenProbe := Closed, 0, 0, now, false;
      this.windowSize, this.failureThreshold, this.openTimeout := windowSize, failureThreshold, openTimeout;
    }

    method Allow(now: int) returns (ok: bool)
      modifies this
      ensures View() == Step(old(View()), Event.Allow(now)) && ok == Admits(old(View()), Event.Allow(now))
    {
      match state
      case Closed => return true;
      case Open =>
        if now - lastStateChange > openTimeout {
          state := HalfOpen;
          halfOpenProbe := false;
          return true;
        }
        return false;
      case HalfOpen =>
        if halfOpenProbe {
          return false;
        }
        halfOpenProbe := true;
        return true;
    }

    method RecordSuccess(now: int)
      modifies this
      ensures View() == Step(old(View()), Success(now))
    {
      match state
      case Closed => successCount := successCount + 1;
      case HalfOpen => ToClosed(now);
      case Open =>
    }

    method RecordFailure(now: int)
      modifies this
      ensures View() == Step(old(View()), Failure(now))
    {
      match state
      case Closed =>
        failureCount := failureCount + 1;
        var total := failureCount + successCount;
        if total < windowSize {
          return;
        }
        var rate := failureCount as real / total as real;
        if rate >= failureThreshold {
          ToOpen(now);
          return;
        }
        ResetCounts();
      case HalfOpen => ToOpen(now);
      case Open =>
    }

    method ToOpen(now: int)
      modifies this
      ensures View() == Moved(old(View()), Open, now)
    {
      state := Open;
      lastStateChange := now;
      ResetCounts();
      halfOpenProbe := false;
    }

    method ToClosed(now: int)
      modifies this
      ensures View() == Moved(old(View()), Closed, now)
    {
      state := Closed;
      lastStateChange := now;
      ResetCounts();
      halfOpenProbe := false;
    }

    method ResetCounts()
      modifies `failureCount, `successCount
      ensures failureCount == 0 && successCount == 0
    {
      failureCount, successCount := 0, 0;
    }
  }

  function Run(s: State, es: seq<Event>): State {
    if es == [] then s else Step(Run(s, es[..|es| - 1]), es[|es| - 1])
  }

  function Count(es: seq<Event>, p: Event -> bool): nat {
    if es == [] then 0 else Count(es[..|es| - 1], p) + if p(es[|es| - 1]) then 1 else 0
  }

  predicate Outcome(e: Event) { !e.Allow? }

  predicate IsFailure(e: Event) { e.Failure? }

  predicate IsSuccess(e: Event) { e.Success? }

  lemma CountSnoc(es: seq<Event>, e: Event, p: Event -> bool)
    ensures Count(es + [e], p) == Count(es, p) + if p(e) then 1 else 0
  {
    assert (es + [e])[..|es|] == es;
  }

  /** `from` is where the breaker was new, had just closed or had just let a full window pass, and no event
      after it emptied the counters. */
  predicate SinceReset(s: State, es: seq<Event>, from: nat)
    requires from <= |es|
  {
    && (from > 0 ==>
          var p := Run(s, es[..from - 1]);
          Resets(p, es[from - 1]) || (p.mode == HalfOpen && es[from - 1].Success?))
    && Run(s, es[..from]).mode == Closed && Run(s, es[..from]).failures == 0 && Run(s, es[..from]).successes == 0
    && forall i :: from <= i < |es| ==> !Resets(Run(s, es[..i]), es[i])
  }

  predicate Resets(s: State, e: Event) {
    e.Failure? && s.mode == Closed && s.failures + 1 + s.successes >= s.window
  }

  /** While closed, the counters are the outcomes recorded since the last reset. */
  lemma {:induction false} ClosedCounts(window: int, threshold: real, timeout: int, t0: int, es: seq<Event>)
    returns (from: nat)
    requires Run(Fresh(window, threshold, timeout, t0), es).mode == Closed
    ensures var s0 := Fresh(window, threshold, timeout, t0);
      && from <= |es| && SinceReset(s0, es, from)
      && Run(s0, es).failures == Count(es[from..], IsFailure)
      && Run(s0, es).successes == Count(es[from..], IsSuccess)
    decreases |es|
  {
    hide Count;
    var s0 := Fresh(window, threshold, timeout, t0);
    CountNone();
    if es == [] {
      return 0;
    }
    var n := |es| - 1;
    var p := Run(s0, es[..n]);
    if p.mode != Closed || Resets(p, es[n]) {
      assert es[..|es|] == es && es[|es|..] == [] && es[..|es| - 1] == es[..n];
      return |es|;
    }
    from := ClosedCounts(window, threshold, timeout, t0, es[..n]);
    SinceResetMore(s0, es, from);
    hide SinceReset;
    CountSnoc(es[from..n], es[n], IsFailure);
    CountSnoc(es[from..n], es[n], IsSuccess);
    assert es[..n][from..] == es[from..n] && es[from..] == es[from..n] + [es[n]];
  }

  lemma CountNone()
    ensures Count([], IsFailure) == 0 && Count([], IsSuccess) == 0
  {
  }

  lemma SinceResetMore(s: State, es: seq<Event>, from: nat)
    requires es != [] && from <= |es| - 1 && SinceReset(s, es[..|es| - 1], from)
    requires !Resets(Run(s, es[..|es| - 1]), es[|es| - 1])
    ensures SinceReset(s, es, from)
  {
    hide Run, Resets;
    var n := |es| - 1;
    assert es[..n][..from] == es[..from];
    if from > 0 {
      assert es[..n][..from - 1] == es[..from - 1] && es[..n][from - 1] == es[from - 1];
    }
    forall i | from <= i < |es| ensures !Resets(Run(s, es[..i]), es[i]) {
      if i < n {
        assert es[..n][..i] == es[..i] && es[..n][i] == es[i];
      }
    }
  }

  /** Failures in a closed window stay below its size. */
  lemma {:induction false} FailuresBelowWindow(s: State, es: seq<Event>)
    requires s.window >= 1 && s.failures < s.window
    ensures Run(s, es).window == s.window && Run(s, es).failures < s.window
  {
    if es != [] {
      FailuresBelowWindow(s, es[..|es| - 1]);
    }
  }

  /** A closed breaker opens exactly on a failure that completes a window and reaches the threshold. */
  lemma OpensIff(s: State, e: Event)
    requires s.mode == Closed && s.window >= 1
    ensures Step(s, e).mode == Open <==>
      && e.Failure? && s.failures + s.successes + 1 >= s.window
      && (s.failures + 1) as real >= s.threshold * (s.failures + s.successes + 1) as real
    ensures Step(s, e).mode != HalfOpen
  {
    ShareReaches(s.failures + 1, s.failures + s.successes + 1, s.threshold);
  }

  lemma ShareReaches(f: nat, n: nat, t: real)
    requires n > 0
    ensures f as real / n as real >= t <==> f as real >= t * n as real
  {
    var q := f as real / n as real;
    assert q * n as real == f as real;
    if q >= t {
      ScaleUp(t, q, n as real);
    } else {
      ScaleLess(q, t, n as real);
    }
  }

  lemma ScaleUp(a: real, b: real, n: real)
    requires a <= b && n > 0.0
    ensures a * n <= b * n
  {
    assert (b - a) * n >= 0.0;
  }

  lemma ScaleLess(a: real, b: real, n: real)
    requires a < b && n > 0.0
    ensures a * n < b * n
  {
    assert (b - a) * n > 0.0;
  }

  /** Over a whole run: every opening from closed is paid for by a full window of recorded outcomes. */
  lemma OpeningIsPaid(window: int, threshold: real, timeout: int, t0: int, es: seq<Event>, e: Event) returns (from: nat)
    requires window >= 1
    requires var s := Run(Fresh(window, threshold, timeout, t0), es); s.mode == Closed && Step(s, e).mode == Open
    ensures var s0, all := Fresh(window, threshold, timeout, t0), es + [e];
      && from <= |es| && SinceReset(s0, es, from)
      && Count(all[from..], Outcome) >= window
      && Count(all[from..], IsFailure) as real >= threshold * Count(all[from..], Outcome) as real
  {
    hide Run, Count, SinceReset;
    var s0, all := Fresh(window, threshold, timeout, t0), es + [e];
    from := ClosedCounts(window, threshold, timeout, t0, es);
    Configured(s0, es);
    OpensIff(Run(s0, es), e);
    hide Step;
    assert all[from..] == es[from..] + [e];
    CountSnoc(es[from..], e, IsFailure);
    CountSnoc(es[from..], e, Outcome);
    CountSplits(es[from..]);
  }

  lemma {:induction false} Configured(s: State, es: seq<Event>)
    ensures var r := Run(s, es); r.window == s.window && r.threshold == s.threshold && r.timeout == s.timeout
  {
    if es != [] {
      Configured(s, es[..|es| - 1]);
    }
  }

  lemma {:induction false} CountSplits(es: seq<Event>)
    ensures Count(es, Outcome) == Count(es, IsFailure) + Count(es, IsSuccess)
  {
    if es != [] {
      CountSplits(es[..|es| - 1]);
    }
  }

  /** From the moment it opens until the timeout has passed, nothing is admitted and nothing changes. */
  lemma {:induction false} NothingAdmittedWhileOpen(s: State, es: seq<Event>)
    requires s.mode == Open && forall i :: 0 <= i < |es| ==> es[i].at - s.changed <= s.timeout
    ensures Run(s, es) == s && forall i :: 0 <= i < |es| ==> !Admits(Run(s, es[..i]), es[i])
  {
    if es != [] {
      var n := |es| - 1;
      NothingAdmittedWhileOpen(s, es[..n]);
      forall i | 0 <= i < |es| ensures !Admits(Run(s, es[..i]), es[i]) {
        if i < n {
          assert es[..n][..i] == es[..i] && es[..n][i] == es[i];
        }
      }
    }
  }

  /** Requests admitted since the breaker last left `Open` or `Closed` for `HalfOpen`. */
  function Episode(s: State, es: seq<Event>): nat {
    if es == [] then 0
    else
      var p, e := Run(s, es[..|es| - 1]), es[|es| - 1];
      var next := Step(p, e);
      if next.mode != HalfOpen then 0
      else if p.mode != HalfOpen then 1
      else Episode(s, es[..|es| - 1]) + if Admits(p, e) then 1 else 0
  }

  /** Every half-open episode admits the request that ended the open phase and at most one probe. */
  lemma {:induction false} EpisodeAdmits(s: State, es: seq<Event>)
    requires s.mode == Closed
    ensures Run(s, es).mode == HalfOpen ==> Episode(s, es) == if Run(s, es).probe then 2 else 1
  {
    if es != [] {
      EpisodeAdmits(s, es[..|es| - 1]);
    }
  }

  /** And two are reached, by any breaker that is open and past its timeout. */
  lemma EpisodeAdmitsTwo(s: State, t: int, u: int, v: int)
    requires s.mode == Open && t - s.changed > s.timeout
    ensures var s1 := Step(s, Allow(t)); var s2 := Step(s1, Allow(u));
      Admits(s, Allow(t)) && Admits(s1, Allow(u)) && !Admits(s2, Allow(v)) && s2.mode == HalfOpen
  {
  }

  /** If neither of the two reports back, nothing is ever admitted again. */
  lemma {:induction false} SilentProbeBlocks(s: State, es: seq<Event>)
    requires s.mode == HalfOpen && s.probe && forall i :: 0 <= i < |es| ==> es[i].Allow?
    ensures Run(s, es) == s && forall i :: 0 <= i < |es| ==> !Admits(Run(s, es[..i]), es[i])
  {
    if es != [] {
      var n := |es| - 1;
      SilentProbeBlocks(s, es[..n]);
      forall i | 0 <= i < |es| ensures !Admits(Run(s, es[..i]), es[i]) {
        if i < n {
          assert es[..n][..i] == es[..i] && es[..n][i] == es[i];
        }
      }
    }
  }

  /** Some request would be admitted at some time. */
  ghost predicate CanAdmit(s: State) { exists t :: Admits(s, Allow(t)) }

  lemma CanAdmitIff(s: State)
    ensures CanAdmit(s) <==> !(s.mode == HalfOpen && s.probe)
  {
    if !(s.mode == HalfOpen && s.probe) {
      assert Admits(s, Allow(s.changed + s.timeout + 1));
    }
  }

  /** With both requests out, another one can come to be admitted if and only if an outcome is
      recorded, of whatever request. */
  lemma {:induction false} UnblockedByOutcomeIff(s: State, es: seq<Event>)
    requires s.mode == HalfOpen && s.probe
    ensures (exists n :: 0 <= n <= |es| && CanAdmit(Run(s, es[..n]))) <==> exists j :: 0 <= j < |es| && Outcome(es[j])
    decreases |es|
  {
    if n :| 0 <= n <= |es| && CanAdmit(Run(s, es[..n])) {
      if forall j :: 0 <= j < |es| ==> !Outcome(es[j]) {
        SilentProbeBlocks(s, es[..n]);
        CanAdmitIff(s);
        assert false;
      }
    }
    if j :| 0 <= j < |es| && Outcome(es[j]) {
      FirstOutcome(s, es, j);
    }
  }

  lemma {:induction false} FirstOutcome(s: State, es: seq<Event>, j: nat)
    requires s.mode == HalfOpen && s.probe && j < |es| && Outcome(es[j])
    ensures exists n :: 0 <= n <= |es| && CanAdmit(Run(s, es[..n]))
    decreases j
  {
    if i :| 0 <= i < j && Outcome(es[i]) {
      FirstOutcome(s, es, i);
    } else {
      SilentProbeBlocks(s, es[..j]);
      assert es[..j + 1][..j] == es[..j];
      CanAdmitIff(Run(s, es[..j + 1]));
    }
  }

  // ---------- how the modes follow each other ----------

  lemma {:induction false} RunConcat(s: State, a: seq<Event>, b: seq<Event>)
    ensures Run(s, a + b) == Run(Run(s, a), b)
    decreases |b|
  {
    hide Step;
    if b == [] {
      assert a + b == a;
    } else {
      RunConcat(s, a, b[..|b| - 1]);
      assert (a + b)[..|a + b| - 1] == a + b[..|b| - 1];
    }
  }

  lemma RunSnoc(s: State, es: seq<Event>, e: Event)
    ensures Run(s, es + [e]) == Step(Run(s, es), e)
  {
    assert (es + [e])[..|es|] == es;
  }

  /** The breaker has been open ever since event `n`, a failure, opened it. */
  predicate OpenedBy(s: State, es: seq<Event>, n: nat) {
    && n < |es| && es[n].Failure? && Run(s, es[..n]).mode != Open
    && forall m :: n < m <= |es| ==> Run(s, es[..m]).mode == Open
  }

  /** Behind every open breaker is the failure that opened it, and the time of that failure alone decides
      what is admitted: `Allow` later than the timeout admits and makes it half-open, and nothing else
      ends the open phase. */
  lemma {:induction false} OpenUntilTimeout(window: int, threshold: real, timeout: int, t0: int, es: seq<Event>) returns (n: nat)
    requires Run(Fresh(window, threshold, timeout, t0), es).mode == Open
    ensures var s0 := Fresh(window, threshold, timeout, t0);
      && OpenedBy(s0, es, n)
      && (forall e :: Admits(Run(s0, es), e) <==> e.Allow? && e.at - es[n].at > timeout)
      && (forall e :: Run(s0, es + [e]).mode ==
            if e.Allow? && e.at - es[n].at > timeout then HalfOpen else Open)
    decreases |es|
  {
    hide Run;
    var s0 := Fresh(window, threshold, timeout, t0);
    n := OpenedAt(s0, es);
    Configured(s0, es);
    forall e ensures Run(s0, es + [e]) == Step(Run(s0, es), e) {
      RunSnoc(s0, es, e);
    }
  }

  lemma {:induction false} OpenedAt(s: State, es: seq<Event>) returns (n: nat)
    requires s.mode != Open && Run(s, es).mode == Open
    ensures OpenedBy(s, es, n) && Run(s, es).changed == es[n].at
    decreases |es|
  {
    n := |es| - 1;
    var init := es[..n];
    assert es[..|es|] == es;
    if Run(s, init).mode == Open {
      n := OpenedAt(s, init);
      assert init[..n] == es[..n];
      forall m | n < m <= |es| ensures Run(s, es[..m]).mode == Open {
        if m < |es| {
          assert init[..m] == es[..m];
        }
      }
    }
  }

  /** A half-open breaker closes exactly on a success, with empty counters and everything admitted, and
      opens exactly on a failure. */
  lemma HalfOpenEndsIff(window: int, threshold: real, timeout: int, t0: int, es: seq<Event>, e: Event)
    requires Run(Fresh(window, threshold, timeout, t0), es).mode == HalfOpen
    ensures var s' := Run(Fresh(window, threshold, timeout, t0), es + [e]);
      && (s'.mode == Closed <==> e.Success?)
      && (s'.mode == Open <==> e.Failure?)
      && (e.Success? ==> s'.failures == 0 && s'.successes == 0 && forall t :: Admits(s', Allow(t)))
  {
    hide Run;
    RunSnoc(Fresh(window, threshold, timeout, t0), es, e);
  }

  /** After such a failure nothing is admitted until the timeout has passed since that failure. */
  lemma ReopenedBlocks(window: int, threshold: real, timeout: int, t0: int, es: seq<Event>, e: Event, more: seq<Event>, i: nat)
    requires Run(Fresh(window, threshold, timeout, t0), es).mode == HalfOpen && e.Failure? && i < |more|
    requires forall j :: 0 <= j < |more| ==> more[j].at - e.at <= timeout
    ensures var s0 := Fresh(window, threshold, timeout, t0);
      !Admits(Run(s0, es + [e] + more[..i]), more[i]) && Run(s0, es + [e] + more).mode == Open
  {
    hide Admits;
    var s0 := Fresh(window, threshold, timeout, t0);
    Configured(s0, es);
    RunSnoc(s0, es, e);
    RunConcat(s0, es + [e], more);
    RunConcat(s0, es + [e], more[..i]);
    NothingAdmittedWhileOpen(Run(s0, es + [e]), more);
  }
}
