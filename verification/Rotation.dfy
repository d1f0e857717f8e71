/** rotator.go: the round-robin signer provider, and what whole runs of it guarantee. */
module Rotation {
  import opened Wrappers
  import opened Signing

  const TWO_32 := 0x1_0000_0000

  /** The signers in order of arrival and the position `Next` will return. */
  datatype Provider = Provider(signers: seq<PrivateKey>, index: nat)

  datatype Event = Add(signer: PrivateKey) | Next | Count

  ghost predicate Valid(p: Provider) {
    |p.signers| < TWO_32 && if p.signers == [] then p.index == 0 else p.index < |p.signers|
  }

  /** The index update of `Next`, on uint32; it goes back to zero at the end of the list and nowhere else. */
  function Following(current: nat, count: nat): (next: nat)
    requires current < count < TWO_32
    ensures next == if current + 1 == count then 0 else current + 1
  {
    (current + 1) % TWO_32 % count
  }

  function Step(p: Provider, e: Event): Provider
    requires Valid(p)
  {
    match e
    case Add(signer) => p.(signers := p.signers + [signer])
    case Next => if p.signers == [] then p else p.(index := Following(p.index, |p.signers|))
    case Count => p
  }

  /** The position an event returns; only a `Next` with signers returns one. */
  function Position(p: Provider, e: Event): Option<nat> {
    if e.Next? && p.signers != [] then Some(p.index) else None
  }

  /** The object itself. The mutex makes each method one step; Interleaving opens the steps up. */
  class RoundRobinSignerProvider {
    var signers: seq<PrivateKey>
    var index: nat

    function State(): Provider
      reads this
    {
      Provider(signers, index)
    }

    constructor (signers: seq<PrivateKey>)
      ensures State() == Provider(signers, 0)
      ensures |signers| < TWO_32 ==> Valid(State())
    {
      this.signers, this.index := signers, 0;
    }

    method Next() returns (signer: Option<PrivateKey>)
      requires Valid(State())
      modifies this`index
      ensures State() == Step(old(State()), Event.Next) && Valid(State())
      ensures signer.Some? <==> signers != []
      ensures signer.Some? ==> signer.value == signers[old(index)]
    {
      if |signers| == 0 {
        return None;
      }
      var current := index;
      index := (current + 1) % TWO_32 % |signers|;
      return Some(signers[current]);
    }

    method Add(signer: PrivateKey)
      modifies this`signers
      ensures signers == old(signers) + [signer]
      ensures old(Valid(State())) ==> State() == Step(old(State()), Event.Add(signer))
      ensures old(Valid(State())) && |signers| < TWO_32 ==> Valid(State())
    {
      signers := signers + [signer];
    }

    method Count() returns (n: nat)
      ensures n == |signers|
    {
      n := |signers|;
    }
  }

  // Runs: any interleaving of calls, as the sequence in which they take the lock.

  function Adds(es: seq<Event>): nat {
    if es == [] then 0 else Adds(es[..|es| - 1]) + if es[|es| - 1].Add? then 1 else 0
  }

  function Nexts(es: seq<Event>): nat {
    if es == [] then 0 else Nexts(es[..|es| - 1]) + if es[|es| - 1].Next? then 1 else 0
  }

  /** A run that starts from a valid provider and never reaches 2^32 signers. */
  ghost predicate Runnable(p: Provider, es: seq<Event>) {
    Valid(p) && |p.signers| + Adds(es) < TWO_32
  }

  ghost function After(p: Provider, es: seq<Event>): (q: Provider)
    requires Runnable(p, es)
    ensures Valid(q) && |q.signers| == |p.signers| + Adds(es)
    ensures p.signers <= q.signers
  {
    if es == [] then p else Step(After(p, es[..|es| - 1]), es[|es| - 1])
  }

  lemma {:induction false} CountsOfConcat(a: seq<Event>, b: seq<Event>)
    ensures Adds(a + b) == Adds(a) + Adds(b) && Nexts(a + b) == Nexts(a) + Nexts(b)
  {
    if b == [] {
      assert a + b == a;
    } else {
      assert (a + b)[..|a + b| - 1] == a + b[..|b| - 1];
      CountsOfConcat(a, b[..|b| - 1]);
    }
  }

  /** The list only grows along a run. */
  lemma {:induction false} SignersOnlyGrow(p: Provider, es: seq<Event>, a: nat, b: nat)
    requires a <= b <= |es| && Runnable(p, es[..a]) && Runnable(p, es[..b])
    ensures After(p, es[..a]).signers <= After(p, es[..b]).signers
    decreases b
  {
    if a < b {
      assert es[..b][..b - 1] == es[..b - 1];
      SignersOnlyGrow(p, es, a, b - 1);
    }
  }

  /** How often a run returns position i. */
  ghost function Times(p: Provider, es: seq<Event>, i: nat): nat
    requires Runnable(p, es)
  {
    if es == [] then 0 else
      var front, last := es[..|es| - 1], es[|es| - 1];
      Times(p, front, i) + if Position(After(p, front), last) == Some(i) then 1 else 0
  }

  /** A run can be taken up where an earlier one stopped. */
  lemma {:induction false} RunOfConcat(p: Provider, a: seq<Event>, b: seq<Event>, i: nat)
    requires Runnable(p, a + b)
    ensures Runnable(p, a) && Runnable(After(p, a), b)
    ensures After(p, a + b) == After(After(p, a), b)
    ensures Times(p, a + b, i) == Times(p, a, i) + Times(After(p, a), b, i)
  {
    CountsOfConcat(a, b);
    if b == [] {
      assert a + b == a;
    } else {
      var front := b[..|b| - 1];
      assert (a + b)[..|a + b| - 1] == a + front;
      RunOfConcat(p, a, front, i);
    }
  }

  /** How many sweeps over the list a run completes while position i is in it. */
  ghost function Sweeps(p: Provider, es: seq<Event>, i: nat): nat
    requires Runnable(p, es)
  {
    if es == [] then 0 else
      var front, last := es[..|es| - 1], es[|es| - 1];
      var q := After(p, front);
      Sweeps(p, front, i) + if last.Next? && i < |q.signers| == q.index + 1 then 1 else 0
  }

  lemma {:induction false} AbsentPositions(p: Provider, es: seq<Event>, i: nat)
    requires Runnable(p, es) && |After(p, es).signers| <= i
    ensures Times(p, es, i) == 0 && Sweeps(p, es, i) == 0
  {
    if es != [] {
      AbsentPositions(p, es[..|es| - 1], i);
    }
  }

  /**
   The exact count: a position has been returned once for every sweep completed since it was
   added, and once more when the current sweep has already passed it.
   */
  lemma {:induction false} ExactCount(p: Provider, es: seq<Event>, i: nat)
    requires Runnable(p, es) && p.index == 0
    requires i < |After(p, es).signers|
    ensures Times(p, es, i) == Sweeps(p, es, i) + if i < After(p, es).index then 1 else 0
  {
    if es != [] {
      var front := es[..|es| - 1];
      if i < |After(p, front).signers| {
        ExactCount(p, front, i);
      } else {
        AbsentPositions(p, front, i);
      }
    }
  }

  lemma {:induction false} SweepsOfEarlierPositions(p: Provider, es: seq<Event>, i: nat, j: nat)
    requires Runnable(p, es) && i <= j
    ensures Sweeps(p, es, j) <= Sweeps(p, es, i)
    ensures j < |p.signers| ==> Sweeps(p, es, j) == Sweeps(p, es, i)
  {
    if es != [] {
      SweepsOfEarlierPositions(p, es[..|es| - 1], i, j);
    }
  }

  /**
   Fairness: an earlier position never trails a later one, and two positions that were there from
   the start never differ by more than one.
   */
  lemma Fairness(p: Provider, es: seq<Event>, i: nat, j: nat)
    requires Runnable(p, es) && p.index == 0
    requires i < j < |After(p, es).signers|
    ensures Times(p, es, j) <= Times(p, es, i)
    ensures j < |p.signers| ==> Times(p, es, i) <= Times(p, es, j) + 1
  {
    ExactCount(p, es, i);
    ExactCount(p, es, j);
    SweepsOfEarlierPositions(p, es, i, j);
  }

  /** The calls of `Next` that return a signer. */
  ghost function Served(p: Provider, es: seq<Event>): nat
    requires Runnable(p, es)
  {
    if es == [] then 0 else
      var front, last := es[..|es| - 1], es[|es| - 1];
      Served(p, front) + if Position(After(p, front), last).Some? then 1 else 0
  }

  /** The counts of the first n positions together. */
  ghost function Total(p: Provider, es: seq<Event>, n: nat): nat
    requires Runnable(p, es)
  {
    if n == 0 then 0 else Total(p, es, n - 1) + Times(p, es, n - 1)
  }

  lemma {:induction false} TotalStep(p: Provider, es: seq<Event>, n: nat)
    requires Runnable(p, es) && es != []
    ensures
      var front, last := es[..|es| - 1], es[|es| - 1];
      var position := Position(After(p, front), last);
      Total(p, es, n) == Total(p, front, n) + if position.Some? && position.value < n then 1 else 0
  {
    if n != 0 {
      TotalStep(p, es, n - 1);
    }
  }

  lemma {:induction false} TotalOfNothing(p: Provider, n: nat)
    requires Valid(p)
    ensures Total(p, [], n) == 0
  {
    if n != 0 {
      TotalOfNothing(p, n - 1);
    }
  }

  /** Conservation: the counts add up to the signers handed out. */
  lemma {:induction false} CountsAddUp(p: Provider, es: seq<Event>, n: nat)
    requires Runnable(p, es) && |After(p, es).signers| <= n
    ensures Total(p, es, n) == Served(p, es)
  {
    if es == [] {
      TotalOfNothing(p, n);
    } else {
      CountsAddUp(p, es[..|es| - 1], n);
      TotalStep(p, es, n);
    }
  }

  /** With a signer at the start, every `Next` is served. */
  lemma {:induction false} EveryNextIsServed(p: Provider, es: seq<Event>)
    requires Runnable(p, es) && p.signers != []
    ensures Served(p, es) == Nexts(es)
  {
    if es != [] {
      EveryNextIsServed(p, es[..|es| - 1]);
    }
  }

  /** How many calls of `Next` lie before position i if nobody adds signers meanwhile. */
  ghost function Distance(p: Provider, i: nat): nat
    requires Valid(p) && i < |p.signers|
  {
    if p.index <= i then i - p.index else |p.signers| - p.index + i
  }

  lemma OneMoreEvent(p: Provider, front: seq<Event>, e: Event, i: nat)
    requires Runnable(p, front + [e])
    ensures Runnable(p, front)
    ensures Adds(front + [e]) == Adds(front) + (if e.Add? then 1 else 0)
    ensures Nexts(front + [e]) == Nexts(front) + (if e.Next? then 1 else 0)
    ensures After(p, front + [e]) == Step(After(p, front), e)
    ensures Times(p, front + [e], i) ==
            Times(p, front, i) + (if Position(After(p, front), e) == Some(i) then 1 else 0)
  {
    assert (front + [e])[..|front|] == front;
  }

  lemma AddsOfOneMore(front: seq<Event>, e: Event)
    ensures Adds(front + [e]) == Adds(front) + (if e.Add? then 1 else 0)
  {
    assert (front + [e])[..|front|] == front;
  }

  /**
   The window cannot be shorter: for every list of two or more signers and every number of
   additions there is a run with one `Next` less that misses a signer.
   */
  lemma WindowIsTight(signers: seq<PrivateKey>, newcomer: PrivateKey, additions: nat) returns (es: seq<Event>)
    requires 2 <= |signers| && |signers| + additions < TWO_32
    ensures Runnable(Provider(signers, 1), es)
    ensures Adds(es) == additions && Nexts(es) == |signers| + additions - 1
    ensures Times(Provider(signers, 1), es, 0) == 0
  {
    var p := Provider(signers, 1);
    es := [];
    for k := 0 to additions
      invariant Runnable(p, es) && Adds(es) == k && Nexts(es) == 0
      invariant After(p, es).index == 1 && Times(p, es, 0) == 0
    {
      AddsOfOneMore(es, Event.Add(newcomer));
      OneMoreEvent(p, es, Event.Add(newcomer), 0);
      es := es + [Event.Add(newcomer)];
    }
    var n := |signers| + additions;
    for k := 1 to n
      invariant Runnable(p, es) && Adds(es) == additions && Nexts(es) == k - 1
      invariant After(p, es).index == (if k == n then 0 else k) && Times(p, es, 0) == 0
    {
      AddsOfOneMore(es, Event.Next);
      OneMoreEvent(p, es, Event.Next, 0);
      es := es + [Event.Next];
    }
  }

  lemma DistanceStep(q: Provider, e: Event, i: nat)
    requires Valid(q) && Valid(Step(q, e)) && i < |q.signers|
    requires Position(q, e) != Some(i)
    ensures Distance(Step(q, e), i) <= Distance(q, i) + if e.Add? then 1 else if e.Next? then -1 else 0
  {
  }

  lemma {:induction false} DistanceShrinks(p: Provider, es: seq<Event>, i: nat)
    requires Runnable(p, es) && i < |p.signers|
    requires Times(p, es, i) == 0
    ensures Distance(After(p, es), i) <= Distance(p, i) + Adds(es) - Nexts(es)
  {
    if es != [] {
      var front, last := es[..|es| - 1], es[|es| - 1];
      DistanceShrinks(p, front, i);
      DistanceStep(After(p, front), last, i);
    }
  }

  /**
   Bounded waiting: from any valid state with n signers, a window with a additions and at least
   n + a calls of `Next`, in any order, returns every signer that was there at its start.
   */
  lemma BoundedWaiting(p: Provider, es: seq<Event>, i: nat)
    requires Runnable(p, es) && i < |p.signers|
    requires |p.signers| + Adds(es) <= Nexts(es)
    ensures 1 <= Times(p, es, i)
  {
    if Times(p, es, i) == 0 {
      DistanceShrinks(p, es, i);
    }
  }
}
