/** How a discovery request splits its entry budget over its locations (src/discovery.rs):
    each allowance is fixed by the location's place in the request, never by worker timing.

    A share is what is left rounded up over the jobs that remain, so every share is the equal
    part, or one more for the first few, and together they are the budget. */
module Reservations {
  import opened Common

  function DivCeil(a: nat, b: nat): nat
    requires b > 0
  {
    if a % b == 0 then a / b else a / b + 1
  }

  /** The share of the location at index `i` among `n`: equal parts, the remainder to the first. */
  function Allowance(budget: nat, n: nat, i: nat): nat
    requires i < n
  {
    budget / n + if i < budget % n then 1 else 0
  }

  /** What is left once the first `k` of `n` locations have their share. */
  function Left(budget: nat, n: nat, k: nat): int
    requires k <= n && n > 0
  {
    (n - k) * (budget / n) + if k < budget % n then budget % n - k else 0
  }

  lemma {:induction false} MulBelow(x: nat, y: nat, b: nat)
    requires x < y
    ensures x * b + b <= y * b
    decreases y
  {
    assert y * b == (y - 1) * b + b;
    if x < y - 1 {
      MulBelow(x, y - 1, b);
    }
  }

  lemma {:induction false} DivideExactly(a: nat, b: nat, q: nat, r: nat)
    requires b > 0 && r < b && a == q * b + r
    ensures a / b == q && a % b == r
  {
    var other := a / b;
    assert a == other * b + a % b;
    if other > q {
      MulBelow(q, other, b);
    } else if other < q {
      MulBelow(other, q, b);
    }
  }

  lemma {:induction false} MulNat(x: nat, y: nat)
    ensures x * y >= 0
    ensures x > 0 ==> x * y >= y
  {
    if x > 0 {
      MulNat(x - 1, y);
      assert x * y == (x - 1) * y + y;
    }
  }

  /** Rounding up what is left over the locations that remain gives exactly the next share. */
  lemma {:induction false} NextShare(budget: nat, n: nat, k: nat)
    requires k < n
    ensures Left(budget, n, k) >= 0
    ensures DivCeil(Left(budget, n, k), n - k) == Allowance(budget, n, k)
    ensures Left(budget, n, k) - Allowance(budget, n, k) == Left(budget, n, k + 1)
  {
    var share, extra := budget / n, if k < budget % n then budget % n - k else 0;
    var left := Left(budget, n, k);
    assert left == share * (n - k) + extra;
    MulNat(n - k, share);
    DivideExactly(left, n - k, share, extra);
    assert (n - k) * share == (n - (k + 1)) * share + share;
  }

  function Shares(budget: nat, n: nat, k: nat): nat
    requires k <= n
  {
    if k == 0 then 0 else Shares(budget, n, k - 1) + Allowance(budget, n, k - 1)
  }

  /** The shares add up to the whole budget: none is lost, and none is given twice. */
  lemma {:induction false} SharesAddUp(budget: nat, n: nat, k: nat)
    requires k <= n && n > 0
    ensures Shares(budget, n, k) + Left(budget, n, k) == budget
    ensures k == n ==> Shares(budget, n, k) == budget
  {
    if k > 0 {
      SharesAddUp(budget, n, k - 1);
      NextShare(budget, n, k - 1);
    } else {
      assert Left(budget, n, 0) == n * (budget / n) + budget % n;
    }
  }

  class EntryReservations {
    var remaining: nat

    constructor (maxEntries: nat)
      ensures remaining == maxEntries
    {
      remaining := maxEntries;
    }

    method Reserve(remainingJobs: nat) returns (allowance: nat)
      requires remainingJobs > 0
      modifies this
      ensures allowance == DivCeil(old(remaining), remainingJobs) && remaining == old(remaining) - allowance
    {
      allowance := DivCeil(remaining, remainingJobs);
      CeilIsWithin(remaining, remainingJobs);
      remaining := remaining - allowance;
    }
  }

  lemma CeilIsWithin(a: nat, b: nat)
    requires b > 0
    ensures DivCeil(a, b) <= a
  {
    assert a == b * (a / b) + a % b;
    MulNat(b, a / b);
  }

  /** The queue of one request: jobs leave it in request order, each with its own share. */
  class JobQueue<T> {
    ghost const request: seq<T>
    ghost const budget: nat
    var jobs: seq<T>
    const reservations: EntryReservations

    ghost predicate Valid()
      reads this, reservations
    {
      && |jobs| <= |request| && jobs == request[|request| - |jobs|..]
      && (request != [] ==> reservations.remaining == Left(budget, |request|, |request| - |jobs|))
    }

    constructor (request: seq<T>, maxEntries: nat)
      ensures Valid() && this.request == request && budget == maxEntries && jobs == request && fresh(reservations)
    {
      this.request, budget, jobs := request, maxEntries, request;
      reservations := new EntryReservations(maxEntries);
      new;
      if request != [] {
        SharesAddUp(maxEntries, |request|, 0);
      }
    }

    method Pop() returns (popped: Option<(T, nat)>)
      requires Valid()
      modifies this`jobs, reservations
      ensures Valid()
      ensures popped.None? <==> old(jobs) == []
      ensures popped.None? ==> jobs == old(jobs)
      ensures popped.Some? ==>
        && jobs == old(jobs)[1..]
        && popped.value == (request[|request| - |old(jobs)|], Allowance(budget, |request|, |request| - |old(jobs)|))
    {
      if jobs == [] {
        return None;
      }
      var remainingJobs := |jobs|;
      var job := jobs[0];
      jobs := jobs[1..];
      NextShare(budget, |request|, |request| - remainingJobs);
      var allowance := reservations.Reserve(remainingJobs);
      return Some((job, allowance));
    }
  }
}
