/** Smooth weighted round robin. */
module WeightedRR {
  import opened Options

  function Sum(s: seq<int>): int {
    if s == [] then 0 else Sum(s[..|s| - 1]) + s[|s| - 1]
  }

  /** What the constructor adds up: negative weights count as zero. */
  function Clamped(s: seq<int>): (r: seq<int>)
    ensures |r| == |s| && forall i :: 0 <= i < |s| ==> r[i] == if s[i] < 0 then 0 else s[i]
  {
    seq(|s|, i requires 0 <= i < |s| => if s[i] < 0 then 0 else s[i])
  }

  function Plus(c: seq<int>, w: seq<int>): (r: seq<int>)
    requires |c| == |w|
    ensures |r| == |c| && forall i :: 0 <= i < |c| ==> r[i] == c[i] + w[i]
  {
    seq(|c|, i requires 0 <= i < |c| => c[i] + w[i])
  }

  /** The first place of the largest of the first `n` entries. */
  predicate IsPick(c: seq<int>, n: nat, p: nat) {
    && p < n <= |c|
    && (forall i :: 0 <= i < n ==> c[i] <= c[p])
    && (forall i :: 0 <= i < p ==> c[i] < c[p])
  }

  function PickOf(c: seq<int>, n: nat): (p: nat)
    requires 0 < n <= |c|
    ensures IsPick(c, n, p)
  {
    if n == 1 then 0
    else
      var q := PickOf(c, n - 1);
      if c[q] < c[n - 1] then n - 1 else q
  }

  function Pick(c: seq<int>): (p: nat)
    requires c != []
    ensures IsPick(c, |c|, p)
  {
    PickOf(c, |c|)
  }

  lemma PickUnique(c: seq<int>, p: nat)
    requires IsPick(c, |c|, p)
    ensures p == Pick(c)
  {
  }

  function Total(w: seq<int>): int { Sum(Clamped(w)) }

  /** The current weights after one `Select`, and which instance it picks. */
  function Next(cur: seq<int>, w: seq<int>): (r: seq<int>)
    requires |cur| == |w| > 0
    ensures |r| == |w|
  {
    var c := Plus(cur, w);
    c[Pick(c) := c[Pick(c)] - Total(w)]
  }

  function Chosen(cur: seq<int>, w: seq<int>): (p: nat)
    requires |cur| == |w| > 0
    ensures p < |w|
  {
    Pick(Plus(cur, w))
  }

  class WeightedRR {
    const weights: array<int>
    const currentWeight: array<int>
    var totalWeight: int

    ghost predicate Valid()
      reads this, weights, currentWeight
    {
      && weights != currentWeight && weights.Length == currentWeight.Length
      && totalWeight == Total(weights[..])
    }

    constructor (ws: seq<int>)
      ensures Valid() && fresh(weights) && fresh(currentWeight)
      ensures weights[..] == ws && currentWeight[..] == Zeros(|ws|)
    {
      weights := new int[|ws|](i requires 0 <= i < |ws| => ws[i]);
      currentWeight := new int[|ws|](i => 0);
      var total := 0;
      for i := 0 to |ws|
        invariant total == Sum(Clamped(ws)[..i])
      {
        var wt := ws[i];
        if wt < 0 {
          wt := 0;
        }
        total := total + wt;
        assert Clamped(ws)[..i + 1][..i] == Clamped(ws)[..i];
      }
      assert Clamped(ws)[..|ws|] == Clamped(ws);
      totalWeight := total;
      new;
      assert weights[..] == ws;
    }

    /** The loop of `Select`: adds every weight and finds the instance to pick. */
    method AddWeights() returns (maxIdx: int)
      requires Valid() && weights.Length > 0
      modifies currentWeight
      ensures weights[..] == old(weights[..])
      ensures currentWeight[..] == Plus(old(currentWeight[..]), weights[..])
      ensures 0 <= maxIdx < weights.Length && maxIdx == Chosen(old(currentWeight[..]), weights[..])
      ensures forall i :: 0 <= i < weights.Length ==> currentWeight[i] == old(currentWeight[i]) + weights[i]
      ensures forall i :: 0 <= i < weights.Length ==> currentWeight[i] <= currentWeight[maxIdx]
      ensures forall i :: 0 <= i < maxIdx ==> currentWeight[i] < currentWeight[maxIdx]
    {
      hide Total, Pick;
      ghost var was, w := currentWeight[..], weights[..];
      ghost var c := Plus(was, w);
      maxIdx := -1;
      for i := 0 to weights.Length
        invariant weights[..] == w
        invariant forall j :: 0 <= j < i ==> currentWeight[j] == c[j]
        invariant forall j :: i <= j < |w| ==> currentWeight[j] == was[j]
        invariant if i == 0 then maxIdx == -1 else 0 <= maxIdx && IsPick(c, i, maxIdx)
      {
        currentWeight[i] := currentWeight[i] + weights[i];
        if maxIdx == -1 || currentWeight[i] > currentWeight[maxIdx] {
          maxIdx := i;
        }
      }
      PickUnique(c, maxIdx);
    }

    /** The picked instance; nothing if the list is empty or does not match the weights. */
    method Select<T>(list: seq<T>) returns (r: Option<T>)
      requires Valid()
      modifies currentWeight
      ensures Valid() && weights[..] == old(weights[..])
      ensures list == [] || |list| != weights.Length ==>
        r == None && currentWeight[..] == old(currentWeight[..])
      ensures list != [] && |list| == weights.Length ==>
        && r == Some(list[Chosen(old(currentWeight[..]), weights[..])])
        && currentWeight[..] == Next(old(currentWeight[..]), weights[..])
      ensures list != [] && |list| == weights.Length ==>
        exists p: nat ::
          && p < |list| && r == Some(list[p])
          && (forall i :: 0 <= i < |list| ==>
                old(currentWeight[i]) + weights[i] <= old(currentWeight[p]) + weights[p])
          && (forall i :: 0 <= i < p ==>
                old(currentWeight[i]) + weights[i] < old(currentWeight[p]) + weights[p])
          && (forall i :: 0 <= i < |list| ==>
                currentWeight[i] == old(currentWeight[i]) + weights[i] - if i == p then totalWeight else 0)
    {
      hide Total, Pick, Plus;
      if |list| == 0 {
        return None;
      }
      if |list| != weights.Length {
        return None;
      }
      var maxIdx := AddWeights();
      ghost var c := currentWeight[..];
      currentWeight[maxIdx] := currentWeight[maxIdx] - totalWeight;
      assert currentWeight[..] == c[maxIdx := c[maxIdx] - totalWeight];
      return Some(list[maxIdx]);
    }
  }

  function Zeros(n: nat): (r: seq<int>)
    ensures |r| == n && forall i :: 0 <= i < n ==> r[i] == 0
  {
    seq(n, i => 0)
  }

  // ---------- runs ----------

  /** The current weights after `k` selects. */
  function After(cur: seq<int>, w: seq<int>, k: nat): (r: seq<int>)
    requires |cur| == |w| > 0
    ensures |r| == |w|
  {
    if k == 0 then cur else Next(After(cur, w, k - 1), w)
  }

  /** How often instance `i` is picked in the first `k` selects. */
  function Picks(cur: seq<int>, w: seq<int>, i: nat, k: nat): nat
    requires |cur| == |w| > 0
  {
    if k == 0 then 0
    else Picks(cur, w, i, k - 1) + if Chosen(After(cur, w, k - 1), w) == i then 1 else 0
  }

  ghost predicate Weights(w: seq<int>) {
    (forall i :: 0 <= i < |w| ==> w[i] >= 0) && Sum(w) > 0
  }

  lemma {:induction false} SumPlus(c: seq<int>, w: seq<int>)
    requires |c| == |w|
    ensures Sum(Plus(c, w)) == Sum(c) + Sum(w)
  {
    if c != [] {
      var n := |c| - 1;
      assert Plus(c, w)[..n] == Plus(c[..n], w[..n]);
      SumPlus(c[..n], w[..n]);
    }
  }

  lemma {:induction false} SumUpdate(c: seq<int>, p: nat, x: int)
    requires p < |c|
    ensures Sum(c[p := x]) == Sum(c) - c[p] + x
  {
    var n := |c| - 1;
    if p == n {
      assert c[p := x][..n] == c[..n];
    } else {
      assert c[p := x][..n] == c[..n][p := x];
      SumUpdate(c[..n], p, x);
    }
  }

  /** Entries that are all at least `low` add up to at least as much as that says. */
  lemma {:induction false} SumAtLeast(c: seq<int>, low: int)
    requires forall i :: 0 <= i < |c| ==> c[i] >= low
    ensures Sum(c) >= |c| * low
  {
    if c != [] {
      SumAtLeast(c[..|c| - 1], low);
      OneMore(|c| - 1, low);
    }
  }

  lemma {:induction false} SumAtMost(c: seq<int>)
    requires forall i :: 0 <= i < |c| ==> c[i] <= 0
    ensures Sum(c) <= 0
  {
    if c != [] { SumAtMost(c[..|c| - 1]); }
  }

  lemma WeightsTotal(w: seq<int>)
    requires Weights(w)
    ensures Total(w) == Sum(w) && w != []
  {
    assert Clamped(w) == w;
  }

  lemma {:induction false} SumZeros(n: nat)
    ensures Sum(Zeros(n)) == 0
  {
    if n > 0 {
      assert Zeros(n)[..n - 1] == Zeros(n - 1);
      SumZeros(n - 1);
    }
  }

  // ---------- one step ----------

  lemma NextEntry(cur: seq<int>, w: seq<int>, i: nat)
    requires |cur| == |w| && i < |w|
    ensures Next(cur, w)[i] == cur[i] + w[i] - if i == Chosen(cur, w) then Total(w) else 0
  {
  }

  lemma NextSum(cur: seq<int>, w: seq<int>)
    requires |cur| == |w| > 0
    ensures Sum(Next(cur, w)) == Sum(cur) + Sum(w) - Total(w)
  {
    hide Sum;
    var c := Plus(cur, w);
    SumPlus(cur, w);
    SumUpdate(c, Pick(c), c[Pick(c)] - Total(w));
  }

  /** When there is something to share out, the picked entry is positive. */
  lemma ChosenPositive(cur: seq<int>, w: seq<int>)
    requires |cur| == |w| > 0 && Sum(cur) + Sum(w) > 0
    ensures cur[Chosen(cur, w)] + w[Chosen(cur, w)] > 0
  {
    var c := Plus(cur, w);
    SumPlus(cur, w);
    if c[Pick(c)] <= 0 { SumAtMost(c); }
  }

  // ---------- whole runs ----------

  /** From any current weights, at every prefix: the instance picked is the first whose current weight
      is largest once its own weight is added, and it alone pays the total. */
  lemma PicksLargest(cur: seq<int>, w: seq<int>, k: nat)
    requires |cur| == |w| > 0
    ensures var a, b, p := After(cur, w, k), After(cur, w, k + 1), Chosen(After(cur, w, k), w);
      && (forall i :: 0 <= i < |w| ==> a[i] + w[i] <= a[p] + w[p])
      && (forall i :: 0 <= i < p ==> a[i] + w[i] < a[p] + w[p])
      && (forall i :: 0 <= i < |w| ==> b[i] == a[i] + w[i] - if i == p then Total(w) else 0)
      && (forall i :: 0 <= i < |w| ==> Picks(cur, w, i, k + 1) == Picks(cur, w, i, k) + if i == p then 1 else 0)
  {
    hide Total;
    var a := After(cur, w, k);
    var c, p := Plus(a, w), Chosen(a, w);
    assert IsPick(c, |c|, p);
    assert forall i :: 0 <= i < |w| ==> c[i] == a[i] + w[i];
  }

  /** Conservation: the current weights always add up to zero. */
  lemma {:induction false} SumStaysZero(w: seq<int>, k: nat)
    requires Weights(w)
    ensures w != [] && Sum(After(Zeros(|w|), w, k)) == 0
  {
    hide Next, Sum, Total;
    assert w != [] && Total(w) == Sum(w) by { WeightsTotal(w); }
    if k == 0 {
      SumZeros(|w|);
    } else {
      SumStaysZero(w, k - 1);
      NextSum(After(Zeros(|w|), w, k - 1), w);
    }
  }

  /** Exactly when it does: a negative weight is added at every step but counts as zero in the total. */
  lemma ConservedIff(w: seq<int>)
    requires w != []
    ensures (forall k: nat :: Sum(After(Zeros(|w|), w, k)) == 0) <==> forall i :: 0 <= i < |w| ==> w[i] >= 0
  {
    hide Sum, After, Total;
    ClampedSum(w);
    forall k: nat ensures Sum(After(Zeros(|w|), w, k)) == k * (Sum(w) - Total(w)) {
      Drift(w, k);
    }
    assert Sum(After(Zeros(|w|), w, 1)) == Sum(w) - Total(w);
  }

  lemma {:induction false} Drift(w: seq<int>, k: nat)
    requires w != []
    ensures Sum(After(Zeros(|w|), w, k)) == k * (Sum(w) - Total(w))
  {
    hide Next, Sum, Total;
    if k == 0 {
      SumZeros(|w|);
    } else {
      Drift(w, k - 1);
      NextSum(After(Zeros(|w|), w, k - 1), w);
      OneMore(k - 1, Sum(w) - Total(w));
    }
  }

  lemma {:induction false} ClampedSum(w: seq<int>)
    ensures Sum(w) <= Total(w)
    ensures Sum(w) == Total(w) <==> forall i :: 0 <= i < |w| ==> w[i] >= 0
  {
    if w != [] {
      ClampedSum(w[..|w| - 1]);
      assert Clamped(w)[..|w| - 1] == Clamped(w[..|w| - 1]);
    }
  }

  /** No current weight falls as low as minus the total. */
  lemma {:induction false} LowerBound(w: seq<int>, k: nat, i: nat)
    requires Weights(w) && i < |w|
    ensures After(Zeros(|w|), w, k)[i] > -Sum(w)
  {
    hide Next, Sum, Total, Chosen;
    assert Total(w) == Sum(w) by { WeightsTotal(w); }
    if k > 0 {
      var cur := After(Zeros(|w|), w, k - 1);
      LowerBound(w, k - 1, i);
      NextEntry(cur, w, i);
      SumStaysZero(w, k - 1);
      ChosenPositive(cur, w);
    }
  }

  /** A current weight is the credit earned minus the turns taken. */
  lemma {:induction false} Ledger(w: seq<int>, k: nat, i: nat)
    requires Weights(w) && i < |w|
    ensures After(Zeros(|w|), w, k)[i] == k * w[i] - Picks(Zeros(|w|), w, i, k) * Sum(w)
  {
    hide Next, Sum, Total, Chosen;
    assert Total(w) == Sum(w) by { WeightsTotal(w); }
    if k > 0 {
      Ledger(w, k - 1, i);
      NextEntry(After(Zeros(|w|), w, k - 1), w, i);
      var p := Picks(Zeros(|w|), w, i, k - 1);
      OneMore(k - 1, w[i]);
      OneMore(p, Sum(w));
    }
  }

  lemma OneMore(n: int, c: int)
    ensures (n + 1) * c == n * c + c
  {
  }

  /** After as many selects as the total weight, every current weight is back at zero. */
  lemma ReturnsToZero(w: seq<int>)
    requires Weights(w)
    ensures w != [] && After(Zeros(|w|), w, Sum(w)) == Zeros(|w|)
  {
    hide Next, Sum, Total, Chosen, After, Picks;
    SumStaysZero(w, Sum(w));
    var T := Sum(w);
    var a := After(Zeros(|w|), w, T);
    forall i | 0 <= i < |w|
      ensures a[i] >= 0
    {
      var p := Picks(Zeros(|w|), w, i, T);
      Ledger(w, T, i);
      LowerBound(w, T, i);
      assert T * w[i] - p * T == (w[i] - p) * T;
      MultipleAboveMinus(w[i] - p, T);
    }
    AllZero(a);
  }

  lemma MultipleAboveMinus(q: int, T: int)
    requires T > 0 && q * T > -T
    ensures q * T >= 0
  {
    NegativeMultiple(q, T);
  }

  lemma NegativeMultiple(q: int, T: int)
    requires T > 0
    ensures q <= -1 ==> q * T <= -T
    ensures q >= 0 ==> q * T >= 0
  {
  }

  lemma {:induction false} AllZero(a: seq<int>)
    requires (forall i :: 0 <= i < |a| ==> a[i] >= 0) && Sum(a) == 0
    ensures a == Zeros(|a|)
  {
    if a != [] {
      SumAtLeast(a[..|a| - 1], 0);
      AllZero(a[..|a| - 1]);
      assert a == a[..|a| - 1] + [0];
    }
  }

  lemma {:induction false} AfterAdds(cur: seq<int>, w: seq<int>, m: nat, k: nat)
    requires |cur| == |w| > 0
    ensures After(cur, w, m + k) == After(After(cur, w, m), w, k)
  {
    hide Next;
    if k > 0 { AfterAdds(cur, w, m, k - 1); }
  }

  lemma {:induction false} PicksAdd(cur: seq<int>, w: seq<int>, i: nat, m: nat, k: nat)
    requires |cur| == |w| > 0
    ensures Picks(cur, w, i, m + k) == Picks(cur, w, i, m) + Picks(After(cur, w, m), w, i, k)
  {
    hide Next, Chosen;
    if k > 0 {
      PicksAdd(cur, w, i, m, k - 1);
      AfterAdds(cur, w, m, k - 1);
    }
  }

  /** Exact proportionality: from every state a run reaches, the next total-weight-many selects
      pick each instance exactly as often as its weight says, and lead back to the same state. */
  lemma Proportional(w: seq<int>, k: nat, i: nat)
    requires Weights(w) && i < |w|
    ensures var cur := After(Zeros(|w|), w, k);
      && Picks(cur, w, i, Sum(w)) == w[i]
      && After(cur, w, Sum(w)) == cur
  {
    hide Next, Sum, Total, Chosen, After, Picks;
    var z, T := Zeros(|w|), Sum(w);
    AfterAdds(z, w, k, T);
    AfterAdds(z, w, T, k);
    ReturnsToZero(w);
    PicksAdd(z, w, i, k, T);
    Ledger(w, k, i);
    Ledger(w, k + T, i);
    assert k + T == T + k;
    SameLedger(k, T, w[i], Picks(z, w, i, k), Picks(After(z, w, k), w, i, T));
  }

  lemma SameLedger(k: int, T: int, a: int, p: int, q: int)
    requires T > 0 && (k + T) * a - (p + q) * T == k * a - p * T
    ensures q == a
  {
    assert (k + T) * a == k * a + T * a;
    assert (p + q) * T == p * T + q * T;
    assert (a - q) * T == 0;
    NegativeMultiple(a - q, T);
    NegativeMultiple(q - a, T);
    assert (q - a) * T == 0;
  }

  /** At every prefix no instance is a whole turn ahead of its share, and none lags behind it by
      more than the others can be ahead together. */
  lemma NearlyFair(w: seq<int>, k: nat, i: nat)
    requires Weights(w) && i < |w|
    ensures var picks := Picks(Zeros(|w|), w, i, k);
      && picks * Sum(w) < k * w[i] + Sum(w)
      && k * w[i] - picks * Sum(w) <= (|w| - 1) * (Sum(w) - 1)
  {
    hide Next, Sum, Total, Chosen, After, Picks;
    var T := Sum(w);
    var a := After(Zeros(|w|), w, k);
    forall j | 0 <= j < |a|
      ensures a[j] >= -(T - 1)
    {
      LowerBound(w, k, j);
    }
    Ledger(w, k, i);
    SumStaysZero(w, k);
    OthersBound(a, i, -(T - 1));
    assert (|w| - 1) * -(T - 1) == -((|w| - 1) * (T - 1));
  }

  /** An entry of a list that adds up to zero is at most what the others can be below zero. */
  lemma OthersBound(a: seq<int>, i: nat, low: int)
    requires i < |a| && Sum(a) == 0 && forall j :: 0 <= j < |a| ==> a[j] >= low
    ensures a[i] <= -((|a| - 1) * low)
  {
    SumUpdate(a, i, low);
    SumAtLeast(a[i := low], low);
    OneMore(|a| - 1, low);
  }
}
