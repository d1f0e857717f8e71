/**
 What the threads of Interleaving actually receive. The history holds nothing but their calls, so
 counting answers and counting history entries come to the same, and the guarantees of Rotation
 carry over to the signers handed out under any schedule.
 */
module Delivery {
  import opened Wrappers
  import opened Signing
  import opened Rotation
  import opened Interleaving

  ghost predicate AllIdle(s: System) {
    forall t: Thread :: LocalOf(s, t).Idle?
  }

  /** The returned calls, by index, that took effect at one of these places. */
  ghost function ReturnedIn(s: System, places: set<nat>): set<nat> {
    set i: nat | i < |s.returned| && s.returned[i].at in places
  }

  /** The threads in a call that has taken effect at one of these places and not returned yet. */
  ghost function HeldIn(s: System, places: set<nat>): set<Thread> {
    set t | t in s.locals && (s.locals[t].Stored? || s.locals[t].Finished?) && s.locals[t].at in places
  }

  lemma ReturnedPlace(init: Provider, s: System, places: set<nat>, i: nat)
    requires Inv(init, s) && i < |s.returned| && s.returned[i].at in places
    ensures var rest := places - {s.returned[i].at};
            ReturnedIn(s, places) == ReturnedIn(s, rest) + {i} && HeldIn(s, places) == HeldIn(s, rest)
  {
    var k := s.returned[i].at;
    assert ReturnInv(init, s, i);
    PlaceHasOneCall(init, s, k);
    forall t | t in HeldIn(s, places)
      ensures t in HeldIn(s, places - {k})
    {
      assert !HoldsPlace(s, t, k);
    }
  }

  lemma HeldPlace(init: Provider, s: System, places: set<nat>, t: Thread, k: nat)
    requires Inv(init, s) && k in places && HoldsPlace(s, t, k)
    ensures var rest := places - {k};
            ReturnedIn(s, places) == ReturnedIn(s, rest) && HeldIn(s, places) == HeldIn(s, rest) + {t}
  {
    HolderIsCaller(init, s, t, k);
    PlaceHasOneCall(init, s, k);
    forall u | u in HeldIn(s, places) && u !in HeldIn(s, places - {k})
      ensures u == t
    {
      assert HoldsPlace(s, u, k);
    }
  }

  /** Any set of places is shared out among the calls, one call a place. */
  lemma {:induction false} PlacesAreShared(init: Provider, s: System, places: set<nat>)
    requires Inv(init, s) && forall k :: k in places ==> k < |s.events|
    ensures |ReturnedIn(s, places)| + |HeldIn(s, places)| == |places|
    decreases |places|
  {
    if places == {} {
      assert ReturnedIn(s, places) == {} && HeldIn(s, places) == {};
    } else {
      var k :| k in places;
      var rest := places - {k};
      PlacesAreShared(init, s, rest);
      assert Owned(s, k);
      if i: nat :| i < |s.returned| && s.returned[i].at == k {
        ReturnedPlace(init, s, places, i);
        assert i !in ReturnedIn(s, rest);
      } else {
        var t := s.callers[k];
        HeldPlace(init, s, places, t, k);
        assert t !in HeldIn(s, rest);
      }
    }
  }

  lemma NothingHeldWhenIdle(s: System, places: set<nat>)
    requires AllIdle(s)
    ensures HeldIn(s, places) == {}
  {
    assert forall t :: t in s.locals ==> LocalOf(s, t) == s.locals[t];
  }

  // Places by what happened there.

  ghost predicate TookPosition(init: Provider, es: seq<Event>, k: nat, i: nat) {
    && k < |es| && Runnable(init, es[..k])
    && Position(After(init, es[..k]), es[k]) == Some(i)
  }

  ghost function PositionPlaces(init: Provider, es: seq<Event>, i: nat): set<nat> {
    set k: nat | k < |es| && TookPosition(init, es, k, i)
  }

  lemma OneMorePlace(init: Provider, front: seq<Event>, e: Event, i: nat)
    requires Runnable(init, front) && Runnable(init, front + [e])
    ensures PositionPlaces(init, front + [e], i) ==
            if Position(After(init, front), e) == Some(i) then PositionPlaces(init, front, i) + {|front|}
            else PositionPlaces(init, front, i)
  {
    var es := front + [e];
    forall k: nat | k < |front|
      ensures TookPosition(init, es, k, i) <==> TookPosition(init, front, k, i)
    {
      assert es[..k] == front[..k] && es[k] == front[k];
    }
    assert es[..|front|] == front && es[|front|] == e;
  }

  lemma {:induction false} TimesCountsPlaces(init: Provider, es: seq<Event>, i: nat)
    requires Runnable(init, es)
    ensures |PositionPlaces(init, es, i)| == Times(init, es, i)
  {
    if es == [] {
      assert PositionPlaces(init, es, i) == {};
    } else {
      var front, last := es[..|es| - 1], es[|es| - 1];
      assert es == front + [last];
      TimesCountsPlaces(init, front, i);
      OneMorePlace(init, front, last, i);
    }
  }

  ghost function NextPlaces(es: seq<Event>): (places: set<nat>)
    ensures forall k: nat :: k in places <==> k < |es| && es[k].Next?
    ensures |places| == Nexts(es)
  {
    if es == [] then {} else
      var n := |es| - 1;
      if es[n].Next? then NextPlaces(es[..n]) + {n} else NextPlaces(es[..n])
  }

  ghost function AddPlaces(es: seq<Event>): (places: set<nat>)
    ensures forall k: nat :: k in places <==> k < |es| && es[k].Add?
    ensures |places| == Adds(es)
  {
    if es == [] then {} else
      var n := |es| - 1;
      if es[n].Add? then AddPlaces(es[..n]) + {n} else AddPlaces(es[..n])
  }

  // Answers.

  /** The returned calls, by index, that were given this signer. */
  ghost function Received(s: System, key: PrivateKey): set<nat> {
    set i: nat | i < |s.returned| && s.returned[i].answer == Signer(Some(key))
  }

  /** The threads in a `Next` that has taken position i and not returned yet. */
  ghost function Taking(init: Provider, s: System, i: nat): set<Thread> {
    HeldIn(s, PositionPlaces(init, s.events, i))
  }

  ghost predicate Distinct(keys: seq<PrivateKey>) {
    forall i, j :: 0 <= i < j < |keys| ==> keys[i] != keys[j]
  }

  /** An answer names a signer exactly when the call took that signer's position. */
  lemma AnswerNamesPosition(init: Provider, s: System, j: nat, i: nat)
    requires Inv(init, s) && Distinct(s.provider.signers)
    requires j < |s.returned| && i < |s.provider.signers|
    ensures s.returned[j].answer == Signer(Some(s.provider.signers[i])) <==>
            TookPosition(init, s.events, s.returned[j].at, i)
  {
    assert ReturnInv(init, s, j);
    var at := s.returned[j].at;
    assert s.events[..|s.events|] == s.events;
    SignersOnlyGrow(init, s.events, at, |s.events|);
    var p := After(init, s.events[..at]);
    assert p.signers != [] ==> p.signers[p.index] == s.provider.signers[p.index];
  }

  lemma ReceivedByPosition(init: Provider, s: System, i: nat)
    requires Inv(init, s) && Distinct(s.provider.signers) && i < |s.provider.signers|
    ensures Received(s, s.provider.signers[i]) == ReturnedIn(s, PositionPlaces(init, s.events, i))
  {
    forall j: nat | j < |s.returned|
      ensures j in Received(s, s.provider.signers[i]) <==> j in ReturnedIn(s, PositionPlaces(init, s.events, i))
    {
      AnswerNamesPosition(init, s, j, i);
      assert ReturnInv(init, s, j);
    }
  }

  /** The lock lets one `Next` at a time be between taking its position and returning. */
  lemma AtMostOneTaking(init: Provider, s: System, i: nat)
    requires Inv(init, s)
    ensures |Taking(init, s, i)| <= 1
  {
    var taking := Taking(init, s, i);
    forall t | t in taking
      ensures s.writer == Some(t)
    {
      HolderIsCaller(init, s, t, s.locals[t].at);
      assert Writes(LocalOf(s, t));
    }
    if s.writer.Some? {
      assert taking <= {s.writer.value};
      CardinalityOfSubset(taking, {s.writer.value});
    } else {
      assert taking == {};
    }
  }

  lemma {:induction false} CardinalityOfSubset<T>(a: set<T>, b: set<T>)
    requires a <= b
    ensures |a| <= |b|
  {
    if a != {} {
      var x :| x in a;
      CardinalityOfSubset(a - {x}, b - {x});
    }
  }

  // The theorems, for every schedule.

  ghost function Below(n: nat): (r: set<nat>)
    ensures |r| == n && forall k: nat :: k in r <==> k < n
  {
    if n == 0 then {} else Below(n - 1) + {n - 1}
  }

  lemma IdleHistoryIsTheReturnedCalls(init: Provider, schedule: seq<Action>)
    requires Valid(init) && StaysSmall(init, schedule) && Run(init, schedule).Ran?
    requires AllIdle(Run(init, schedule).system)
    ensures var s := Run(init, schedule).system; |s.events| == |s.returned|
  {
    RunsAreSafe(init, schedule);
    var s := Run(init, schedule).system;
    var places := Below(|s.events|);
    PlacesAreShared(init, s, places);
    NothingHeldWhenIdle(s, places);
    forall i: nat | i < |s.returned|
      ensures s.returned[i].at in places
    {
      assert ReturnInv(init, s, i);
    }
    assert ReturnedIn(s, places) == Below(|s.returned|);
  }

  /**
   The exact count, in answers: the calls that were given the signer at position i, and the at most
   one that is about to be, number the sweeps completed since it was added, plus one if the current
   sweep has passed it.
   */
  lemma ExactDelivery(init: Provider, schedule: seq<Action>, i: nat)
    requires Valid(init) && init.index == 0 && StaysSmall(init, schedule) && Run(init, schedule).Ran?
    requires Distinct(Run(init, schedule).system.provider.signers)
    requires i < |Run(init, schedule).system.provider.signers|
    ensures
      var s := Run(init, schedule).system;
      && Runnable(init, s.events)
      && |Received(s, s.provider.signers[i])| + |Taking(init, s, i)|
         == Sweeps(init, s.events, i) + (if i < s.provider.index then 1 else 0)
      && |Taking(init, s, i)| <= 1
      && (AllIdle(s) ==> Taking(init, s, i) == {})
  {
    RunsAreSafe(init, schedule);
    var s := Run(init, schedule).system;
    DeliveredIsTimes(init, s, i);
    ExactCount(init, s.events, i);
    AtMostOneTaking(init, s, i);
    if AllIdle(s) {
      NothingHeldWhenIdle(s, PositionPlaces(init, s.events, i));
    }
  }

  lemma DeliveredIsTimes(init: Provider, s: System, i: nat)
    requires Inv(init, s) && Distinct(s.provider.signers) && i < |s.provider.signers|
    ensures |Received(s, s.provider.signers[i])| + |Taking(init, s, i)| == Times(init, s.events, i)
  {
    ReceivedByPosition(init, s, i);
    PlacesAreShared(init, s, PositionPlaces(init, s.events, i));
    TimesCountsPlaces(init, s.events, i);
  }

  /**
   Fairness, in answers: a signer that was added earlier is never behind a later one, and signers
   that were there from the start differ by at most one, up to a call in progress.
   */
  lemma FairDelivery(init: Provider, schedule: seq<Action>, i: nat, j: nat)
    requires Valid(init) && init.index == 0 && StaysSmall(init, schedule) && Run(init, schedule).Ran?
    requires Distinct(Run(init, schedule).system.provider.signers)
    requires i < j < |Run(init, schedule).system.provider.signers|
    ensures
      var s := Run(init, schedule).system;
      var given := k requires 0 <= k < |s.provider.signers| => |Received(s, s.provider.signers[k])|;
      && given(j) + |Taking(init, s, j)| <= given(i) + |Taking(init, s, i)|
      && (j < |init.signers| ==> given(i) + |Taking(init, s, i)| <= given(j) + |Taking(init, s, j)| + 1)
      && (AllIdle(s) ==> given(j) <= given(i))
      && (AllIdle(s) && j < |init.signers| ==> given(i) <= given(j) + 1)
  {
    ExactDelivery(init, schedule, i);
    ExactDelivery(init, schedule, j);
    SweepsOfEarlierPositions(init, Run(init, schedule).system.events, i, j);
  }

  // Bounded waiting, between two moments of one schedule.

  /** The calls of a kind that have returned, and the threads in one that has taken effect. */
  ghost function ReturnedNexts(s: System): set<nat> {
    set i: nat | i < |s.returned| && s.returned[i].call.op.Next?
  }

  ghost function ReturnedAdds(s: System): set<nat> {
    set i: nat | i < |s.returned| && s.returned[i].call.op.Add?
  }

  ghost function PendingNexts(s: System): set<Thread> {
    HeldIn(s, NextPlaces(s.events))
  }

  ghost function PendingAdds(s: System): set<Thread> {
    HeldIn(s, AddPlaces(s.events))
  }

  lemma CallsCountEvents(init: Provider, s: System)
    requires Inv(init, s)
    ensures |ReturnedNexts(s)| + |PendingNexts(s)| == Nexts(s.events)
    ensures |ReturnedAdds(s)| + |PendingAdds(s)| == Adds(s.events)
  {
    PlacesAreShared(init, s, NextPlaces(s.events));
    PlacesAreShared(init, s, AddPlaces(s.events));
    forall i: nat | i < |s.returned|
      ensures i in ReturnedNexts(s) <==> i in ReturnedIn(s, NextPlaces(s.events))
      ensures i in ReturnedAdds(s) <==> i in ReturnedIn(s, AddPlaces(s.events))
    {
      assert ReturnInv(init, s, i);
    }
    assert ReturnedNexts(s) == ReturnedIn(s, NextPlaces(s.events));
    assert ReturnedAdds(s) == ReturnedIn(s, AddPlaces(s.events));
  }

  /**
   No addition is lost and none is made up, and a provider that starts with a signer never answers
   a `Next` with nil, whatever else goes on.
   */
  lemma AdditionsAreKept(init: Provider, schedule: seq<Action>)
    requires Valid(init) && StaysSmall(init, schedule) && Run(init, schedule).Ran?
    ensures
      var s := Run(init, schedule).system;
      && |s.provider.signers| == |init.signers| + |ReturnedAdds(s)| + |PendingAdds(s)|
      && (AllIdle(s) ==> PendingAdds(s) == {})
      && (init.signers != [] ==>
            forall i :: 0 <= i < |s.returned| && s.returned[i].call.op.Next? ==>
              s.returned[i].answer.Signer? && s.returned[i].answer.key.Some?)
  {
    RunsAreSafe(init, schedule);
    var s := Run(init, schedule).system;
    CallsCountEvents(init, s);
    if AllIdle(s) {
      NothingHeldWhenIdle(s, AddPlaces(s.events));
    }
    forall i | 0 <= i < |s.returned| && s.returned[i].call.op.Next? && init.signers != []
      ensures s.returned[i].answer.Signer? && s.returned[i].answer.key.Some?
    {
      assert ReturnInv(init, s, i);
    }
  }

  lemma ExecOnlyAppends(s: System, a: Action)
    requires Exec(s, a).Ran?
    ensures s.events <= Exec(s, a).system.events
    ensures s.returned <= Exec(s, a).system.returned
    ensures s.provider.signers <= Exec(s, a).system.provider.signers
  {
  }

  lemma {:induction false} RunOnlyAppends(init: Provider, first: seq<Action>, rest: seq<Action>)
    requires Run(init, first + rest).Ran?
    ensures Run(init, first).Ran?
    ensures Run(init, first).system.events <= Run(init, first + rest).system.events
    ensures Run(init, first).system.returned <= Run(init, first + rest).system.returned
    ensures Run(init, first).system.provider.signers <= Run(init, first + rest).system.provider.signers
  {
    if rest == [] {
      assert first + rest == first;
    } else {
      var n := |rest| - 1;
      assert (first + rest)[..|first + rest| - 1] == first + rest[..n];
      RunOnlyAppends(init, first, rest[..n]);
      var o := Run(init, first + rest[..n]);
      if Exec(o.system, rest[n]).Ran? {
        ExecOnlyAppends(o.system, rest[n]);
      }
    }
  }

  lemma SmallPrefix(init: Provider, first: seq<Action>, rest: seq<Action>)
    requires StaysSmall(init, first + rest)
    ensures StaysSmall(init, first)
  {
    forall k | 0 <= k <= |first|
      ensures first[..k] == (first + rest)[..k]
    {
    }
  }

  lemma WindowServesEveryone(init: Provider, s: System, s': System, i: nat)
    requires Inv(init, s) && Inv(init, s') && s.events <= s'.events && i < |s.provider.signers|
    requires |ReturnedNexts(s')| - |ReturnedNexts(s)| >=
             |s.provider.signers| + (|ReturnedAdds(s')| - |ReturnedAdds(s)|) + |PendingNexts(s)| + |PendingAdds(s')|
    ensures Times(init, s.events, i) < Times(init, s'.events, i)
  {
    CallsCountEvents(init, s);
    CallsCountEvents(init, s');
    var window := s'.events[|s.events|..];
    assert s'.events == s.events + window;
    CountsOfConcat(s.events, window);
    RunOfConcat(init, s.events, window, i);
    BoundedWaiting(s.provider, window, i);
  }

  /**
   Bounded waiting, in answers: take two moments of a schedule, n signers at the first one, and let
   a calls of Add and n + a calls of Next return in between, in any interleaving. Then the signer at
   every position of the first moment has been given out in between. Calls in progress count as slack:
   a Next that had already taken effect at the first moment, an Add that has not returned at the second.
   */
  lemma BoundedDelivery(init: Provider, first: seq<Action>, rest: seq<Action>, i: nat)
    requires Valid(init) && StaysSmall(init, first + rest)
    requires Run(init, first).Ran? && Run(init, first + rest).Ran?
    requires Distinct(Run(init, first + rest).system.provider.signers)
    requires i < |Run(init, first).system.provider.signers|
    requires
      var s, s' := Run(init, first).system, Run(init, first + rest).system;
      |ReturnedNexts(s')| - |ReturnedNexts(s)| >=
      |s.provider.signers| + (|ReturnedAdds(s')| - |ReturnedAdds(s)|) + |PendingNexts(s)| + |PendingAdds(s')|
    ensures
      var s, s' := Run(init, first).system, Run(init, first + rest).system;
      var key := s.provider.signers[i];
      && |Received(s, key)| + |Taking(init, s, i)| < |Received(s', key)| + |Taking(init, s', i)|
      && (AllIdle(s') ==> |Received(s, key)| < |Received(s', key)|)
  {
    var s, s' := Run(init, first).system, Run(init, first + rest).system;
    SmallPrefix(init, first, rest);
    RunsAreSafe(init, first);
    RunsAreSafe(init, first + rest);
    RunOnlyAppends(init, first, rest);
    WindowServesEveryone(init, s, s', i);
    assert forall j, k :: 0 <= j < k < |s.provider.signers| ==> s'.provider.signers[j] != s'.provider.signers[k];
    DeliveredIsTimes(init, s, i);
    DeliveredIsTimes(init, s', i);
    if AllIdle(s') {
      NothingHeldWhenIdle(s', PositionPlaces(init, s'.events, i));
    }
  }
}
