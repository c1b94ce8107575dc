/** The concurrent workload driver: requests dealt round-robin to one goroutine a session,
    which merge what they measured into shared variables under a mutex. */
module Workload {
  import opened Arithmetic
  import opened Wrappers

  // ---- Dealing the requests ----

  /** `x` is the `i / k`-th of batch `i % k`. */
  ghost predicate At<T>(batches: seq<seq<T>>, i: nat, x: T)
    requires |batches| > 0
  {
    var t, j := i % |batches|, i / |batches|;
    j < |batches[t]| && batches[t][j] == x
  }

  /** Every request is at its place, and no batch holds anything else. */
  ghost predicate RoundRobin<T>(batches: seq<seq<T>>, requests: seq<T>)
    requires |batches| > 0
  {
    && (forall t :: 0 <= t < |batches| ==> |batches[t]| == Share(|requests|, |batches|, t))
    && (forall i :: 0 <= i < |requests| ==> At(batches, i, requests[i]))
  }

  /** How many of the first `n` indices are congruent to `t`. */
  function Share(n: nat, k: nat, t: nat): nat
    requires t < k
  {
    (n + k - 1 - t) / k
  }

  lemma ShareIs(n: nat, k: nat, t: nat, q: nat, r: nat)
    requires t < k && r < k && n == q * k + r
    ensures Share(n, k, t) == q + if t < r then 1 else 0
  {
    assert (q + 1) * k == q * k + k;
    if t < r {
      DivUnique(n + k - 1 - t, k, q + 1, r - 1 - t);
    } else {
      DivUnique(n + k - 1 - t, k, q, r + k - 1 - t);
    }
  }

  /** One more request makes the share of its own batch one larger, and no other. */
  lemma ShareGrows(n: nat, k: nat, t: nat)
    requires t < k
    ensures Share(n + 1, k, t) == Share(n, k, t) + if t == n % k then 1 else 0
    ensures t == n % k ==> Share(n, k, t) == n / k
  {
    var q, r := n / k, n % k;
    ShareIs(n, k, t, q, r);
    if r + 1 < k {
      ShareIs(n + 1, k, t, q, r + 1);
    } else {
      assert (q + 1) * k == q * k + k;
      ShareIs(n + 1, k, t, q + 1, 0);
    }
  }

  ghost function Total<T>(batches: seq<seq<T>>): nat {
    if batches == [] then 0 else Total(batches[..|batches| - 1]) + |batches[|batches| - 1]|
  }

  lemma {:induction false} TotalUpdate<T>(batches: seq<seq<T>>, t: nat, batch: seq<T>)
    requires t < |batches|
    ensures Total(batches[t := batch]) == Total(batches) - |batches[t]| + |batch|
  {
    var n := |batches| - 1;
    if t < n {
      assert batches[t := batch][..n] == batches[..n][t := batch];
      TotalUpdate(batches[..n], t, batch);
    } else {
      assert batches[t := batch][..n] == batches[..n];
    }
  }

  lemma {:induction false} TotalEmpty<T>(k: nat)
    ensures Total<T>(seq(k, _ => [])) == 0
  {
    if k > 0 {
      assert seq<seq<T>>(k, _ => [])[..k - 1] == seq<seq<T>>(k - 1, _ => []);
      TotalEmpty<T>(k - 1);
    }
  }

  lemma Dealt<T>(batches: seq<seq<T>>, requests: seq<T>, i: nat)
    requires |batches| > 0 && i < |requests| && RoundRobin(batches, requests[..i])
    ensures var t := i % |batches|; RoundRobin(batches[t := batches[t] + [requests[i]]], requests[..i + 1])
  {
    var k := |batches|;
    var t := i % k;
    var dealt := batches[t := batches[t] + [requests[i]]];
    forall u | 0 <= u < k ensures |dealt[u]| == Share(i + 1, k, u) {
      ShareGrows(i, k, u);
    }
    ShareGrows(i, k, t);
    assert At(dealt, i, requests[i]);
    forall j | 0 <= j < i ensures At(dealt, j, requests[j]) {
      assert At(batches, j, requests[..i][j]);
    }
  }

  /** Deals the requests, or refuses to without a session to deal to. */
  method Split<T>(requests: seq<T>, sessions: nat) returns (r: Result<seq<seq<T>>, string>)
    ensures r.Err? <==> sessions == 0
    ensures r.Ok? ==> |r.value| == sessions && RoundRobin(r.value, requests) && Total(r.value) == |requests|
  {
    if sessions == 0 {
      return Err("no sessions to drive");
    }
    var batches: seq<seq<T>> := seq(sessions, _ => []);
    TotalEmpty<T>(sessions);
    forall t | 0 <= t < sessions ensures Share(0, sessions, t) == 0 {
      DivUnique(sessions - 1 - t, sessions, 0, sessions - 1 - t);
    }
    for i := 0 to |requests|
      invariant |batches| == sessions && RoundRobin(batches, requests[..i]) && Total(batches) == i
    {
      var target := i % sessions;
      Dealt(batches, requests, i);
      TotalUpdate(batches, target, batches[target] + [requests[i]]);
      batches := batches[target := batches[target] + [requests[i]]];
    }
    assert requests[..|requests|] == requests;
    return Ok(batches);
  }

  /** Batch sizes differ by at most one. */
  lemma EvenBatches<T>(batches: seq<seq<T>>, requests: seq<T>, t: nat, u: nat)
    requires |batches| > 0 && RoundRobin(batches, requests) && t < u < |batches|
    ensures |batches[u]| <= |batches[t]| <= |batches[u]| + 1
  {
    var n, k := |requests|, |batches|;
    ShareIs(n, k, t, n / k, n % k);
    ShareIs(n, k, u, n / k, n % k);
  }
}
