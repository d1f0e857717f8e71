/**
 The signer provider under any number of threads: the lock, load, store and unlock steps of
 `Next`, `Add` and `Count` interleave as a scheduler pleases.
 */
module Interleaving {
  import opened Wrappers
  import opened Signing
  import opened Rotation

  type Thread = nat

  datatype Answer = Signer(key: Option<PrivateKey>) | Added | Counted(n: nat)

  /** A call in progress: how many steps had taken effect and how many calls had returned when it began. */
  datatype Call = Call(thread: Thread, op: Event, began: nat, before: nat)

  datatype Local =
    | Idle
    | Waiting(call: Call)
    | Announced(call: Call)                      // a writer that keeps new readers out
    | Locked(call: Call)
    | Loaded(call: Call, current: nat)           // Next has read the index
    | Stored(call: Call, current: nat, at: nat)  // Next has written the index
    | Finished(call: Call, at: nat, answer: Answer)

  datatype Return = Return(call: Call, at: nat, answer: Answer)

  /**
   The shared provider and its read-write lock, the threads, and a history: the operations in the
   order in which they took effect, who called them, and the calls that have returned. The lock
   prefers writers: one that is announced waits for the readers inside and lets no further ones in.
   */
  datatype System = System(
    provider: Provider,
    writer: Option<Thread>,
    announced: Option<Thread>,
    readers: set<Thread>,
    locals: map<Thread, Local>,
    events: seq<Event>,
    callers: seq<Thread>,
    returned: seq<Return>)

  datatype Outcome = Blocked | Crashed | Ran(system: System)

  datatype Action = Begin(thread: Thread, op: Event) | Advance(thread: Thread)

  function LocalOf(s: System, t: Thread): Local {
    if t in s.locals then s.locals[t] else Idle
  }

  function SetLocal(s: System, t: Thread, l: Local): System {
    s.(locals := s.locals[t := l])
  }

  /** The operation of a call takes effect. */
  function Record(s: System, c: Call, provider: Provider): System {
    s.(provider := provider, events := s.events + [c.op], callers := s.callers + [c.thread])
  }

  /** A reader gets in, or a writer is announced, when there is no other writer at all. */
  function Acquire(s: System, t: Thread, c: Call): Outcome {
    if s.writer.Some? || s.announced.Some? then Blocked
    else if c.op.Count? then Ran(SetLocal(s.(readers := s.readers + {t}), t, Locked(c)))
    else Ran(SetLocal(s.(announced := Some(t)), t, Announced(c)))
  }

  /** The announced writer gets in when the readers have left. */
  function GetIn(s: System, t: Thread, c: Call): Outcome {
    if s.readers != {} then Blocked
    else Ran(SetLocal(s.(writer := Some(t), announced := None), t, Locked(c)))
  }

  /** The first step under the lock. */
  function Enter(s: System, t: Thread, c: Call): System {
    var p, at := s.provider, |s.events|;
    match c.op
    case Next =>
      if p.signers == [] then SetLocal(Record(s, c, p), t, Finished(c, at, Signer(None)))
      else SetLocal(s, t, Loaded(c, p.index))
    case Add(signer) => SetLocal(Record(s, c, p.(signers := p.signers + [signer])), t, Finished(c, at, Added))
    case Count => SetLocal(Record(s, c, p), t, Finished(c, at, Counted(|p.signers|)))
  }

  /** The store of `Next`; the division panics when the list length is a multiple of 2^32. */
  function Store(s: System, t: Thread, c: Call, current: nat): Outcome {
    var count := |s.provider.signers| % TWO_32;
    if count == 0 then Crashed else
      var p := s.provider.(index := (current + 1) % TWO_32 % count);
      Ran(SetLocal(Record(s, c, p), t, Stored(c, current, |s.events|)))
  }

  /** The final read of `Next`, which panics out of range. */
  function Read(s: System, t: Thread, c: Call, current: nat, at: nat): Outcome {
    if |s.provider.signers| <= current then Crashed
    else Ran(SetLocal(s, t, Finished(c, at, Signer(Some(s.provider.signers[current])))))
  }

  function Release(s: System, t: Thread, c: Call, at: nat, answer: Answer): System {
    var free := if c.op.Count? then s.(readers := s.readers - {t}) else s.(writer := None);
    SetLocal(free.(returned := s.returned + [Return(c, at, answer)]), t, Idle)
  }

  function Exec(s: System, a: Action): Outcome {
    match a
    case Begin(t, op) =>
      if !LocalOf(s, t).Idle? then Blocked
      else Ran(SetLocal(s, t, Waiting(Call(t, op, |s.events|, |s.returned|))))
    case Advance(t) =>
      match LocalOf(s, t)
      case Idle => Blocked
      case Waiting(c) => Acquire(s, t, c)
      case Announced(c) => GetIn(s, t, c)
      case Locked(c) => Ran(Enter(s, t, c))
      case Loaded(c, current) => Store(s, t, c, current)
      case Stored(c, current, at) => Read(s, t, c, current, at)
      case Finished(c, at, answer) => Ran(Release(s, t, c, at, answer))
  }

  function Start(init: Provider): System {
    System(init, None, None, {}, map[], [], [], [])
  }

  /** A schedule carried out; a blocked step changes nothing, a crash is final. */
  function Run(init: Provider, schedule: seq<Action>): (o: Outcome)
    ensures !o.Blocked?
  {
    if schedule == [] then Ran(Start(init)) else
      var o := Run(init, schedule[..|schedule| - 1]);
      if o.Crashed? then Crashed else
        var next := Exec(o.system, schedule[|schedule| - 1]);
        if next.Blocked? then o else next
  }

  /** What a whole call answers when it is made on its own. */
  function AnswerTo(p: Provider, op: Event): Answer
    requires Valid(p)
  {
    match op
    case Next => Signer(if p.signers == [] then None else Some(p.signers[p.index]))
    case Add(signer) => Added
    case Count => Counted(|p.signers|)
  }

  /** What the operation at a place of the history answers in a sequential run of that history. */
  ghost function SequentialAnswer(init: Provider, s: System, at: nat): Answer
    requires at < |s.events| && Runnable(init, s.events[..at])
  {
    AnswerTo(After(init, s.events[..at]), s.events[at])
  }

  // The invariant.

  predicate Inside(l: Local) {
    !l.Idle? && !l.Waiting? && !l.Announced?
  }

  ghost predicate Writes(l: Local) {
    Inside(l) && !l.call.op.Count?
  }

  ghost predicate Reads(l: Local) {
    Inside(l) && l.call.op.Count?
  }

  ghost predicate LockInv(s: System) {
    && (forall t: Thread :: Writes(LocalOf(s, t)) <==> s.writer == Some(t))
    && (forall t: Thread :: LocalOf(s, t).Announced? <==> s.announced == Some(t))
    && (forall t: Thread :: Reads(LocalOf(s, t)) <==> t in s.readers)
    && (s.writer.Some? ==> s.readers == {} && s.announced.None?)
  }

  ghost predicate ProviderInv(init: Provider, s: System) {
    && Runnable(init, s.events) && s.provider == After(init, s.events)
    && |s.callers| == |s.events|
  }

  /** The call took effect once, at a moment between its beginning and its return. */
  ghost predicate TookEffect(s: System, c: Call, at: nat) {
    c.began <= at < |s.events| == |s.callers| && s.events[at] == c.op && s.callers[at] == c.thread
  }

  ghost predicate Linearized(init: Provider, s: System, c: Call, at: nat, answer: Answer) {
    && TookEffect(s, c, at)
    && Runnable(init, s.events[..at]) && answer == SequentialAnswer(init, s, at)
  }

  /** The calls that had returned when c began precede it; its own thread's are among them. */
  ghost predicate InOrder(s: System, c: Call, upTo: nat) {
    && c.before <= upTo <= |s.returned|
    && (forall j :: 0 <= j < c.before ==> s.returned[j].at < c.began)
    && (forall j :: c.before <= j < upTo ==> s.returned[j].call.thread != c.thread)
  }

  ghost predicate LocalInv(init: Provider, s: System, t: Thread) {
    var l := LocalOf(s, t);
    && (!l.Idle? ==> l.call.thread == t && l.call.began <= |s.events| && InOrder(s, l.call, |s.returned|))
    && (l.Announced? ==> !l.call.op.Count?)
    && (l.Loaded? ==> l.call.op.Next? && l.current == s.provider.index < |s.provider.signers|)
    && (l.Stored? ==> l.call.op.Next? && l.current < |s.provider.signers|
                      && Linearized(init, s, l.call, l.at, Signer(Some(s.provider.signers[l.current]))))
    && (l.Finished? ==> Linearized(init, s, l.call, l.at, l.answer))
  }

  ghost predicate ReturnInv(init: Provider, s: System, i: nat)
    requires i < |s.returned|
  {
    var r := s.returned[i];
    && Linearized(init, s, r.call, r.at, r.answer)
    && InOrder(s, r.call, i)
    && (forall j :: 0 <= j < i ==> s.returned[j].at != r.at)
  }

  /** The thread's call has taken effect at place k and has not returned yet. */
  predicate HoldsPlace(s: System, t: Thread, k: nat) {
    var l := LocalOf(s, t);
    (l.Stored? || l.Finished?) && l.at == k
  }

  /** Place k of the history belongs to a call: one that has returned, or one its caller is in. */
  ghost predicate Owned(s: System, k: nat) {
    || (exists i :: 0 <= i < |s.returned| && s.returned[i].at == k)
    || (k < |s.callers| && HoldsPlace(s, s.callers[k], k))
  }

  ghost predicate PlacesInv(s: System) {
    forall k: nat :: k < |s.events| ==> Owned(s, k)
  }

  ghost predicate Inv(init: Provider, s: System) {
    && LockInv(s)
    && ProviderInv(init, s)
    && PlacesInv(s)
    && (forall t: Thread :: LocalInv(init, s, t))
    && (forall i :: 0 <= i < |s.returned| ==> ReturnInv(init, s, i))
  }

  // Preservation. A step either leaves the history alone, or records one operation, or returns.

  ghost predicate Extends(s: System, s': System) {
    s.events <= s'.events && s.callers <= s'.callers && |s.events| == |s.callers| && |s'.events| == |s'.callers|
  }

  lemma LinearizedStays(init: Provider, s: System, s': System, c: Call, at: nat, answer: Answer)
    requires Linearized(init, s, c, at, answer) && Extends(s, s')
    ensures Linearized(init, s', c, at, answer)
  {
    assert s'.events[..at] == s.events[..at];
    assert s'.events[at] == s.events[at] && s'.callers[at] == s.callers[at];
  }

  lemma QuietStep(init: Provider, s: System, s': System, t: Thread)
    requires Inv(init, s)
    requires s'.provider == s.provider && s'.events == s.events && s'.callers == s.callers
    requires s'.returned == s.returned
    requires s'.locals == s.locals[t := LocalOf(s', t)]
    requires LockInv(s') && LocalInv(init, s', t)
    requires forall k: nat :: HoldsPlace(s, t, k) ==> HoldsPlace(s', t, k)
    ensures Inv(init, s')
  {
    forall u: Thread
      ensures LocalInv(init, s', u)
    {
      assert LocalInv(init, s, u);
      if u != t {
        assert LocalOf(s', u) == LocalOf(s, u);
      }
    }
    forall k: nat | k < |s'.events|
      ensures Owned(s', k)
    {
      assert Owned(s, k);
      if s.callers[k] != t {
        assert LocalOf(s', s.callers[k]) == LocalOf(s, s.callers[k]);
      }
    }
    forall i | 0 <= i < |s'.returned|
      ensures ReturnInv(init, s', i)
    {
      assert ReturnInv(init, s, i);
    }
  }

  /** The operation recorded last is linearized with the answer its sequential turn gives. */
  lemma RecordedLast(init: Provider, s: System, c: Call, p: Provider)
    requires ProviderInv(init, s) && c.began <= |s.events|
    requires p == Step(s.provider, c.op) && |p.signers| < TWO_32
    ensures ProviderInv(init, Record(s, c, p))
    ensures Linearized(init, Record(s, c, p), c, |s.events|, AnswerTo(s.provider, c.op))
  {
    var s' := Record(s, c, p);
    AddsOfOneMore(s.events, c.op);
    OneMoreEvent(init, s.events, c.op, 0);
    assert s'.events[..|s.events|] == s.events;
  }

  lemma RecordingStep(init: Provider, s: System, t: Thread, c: Call, p: Provider, l: Local)
    requires Inv(init, s) && (LocalOf(s, t).Locked? || LocalOf(s, t).Loaded?) && LocalOf(s, t).call == c
    requires p == Step(s.provider, c.op) && |p.signers| < TWO_32
    requires var s' := SetLocal(Record(s, c, p), t, l);
             LockInv(s') && LocalInv(init, s', t) && HoldsPlace(s', t, |s.events|)
    ensures Inv(init, SetLocal(Record(s, c, p), t, l))
  {
    var s' := SetLocal(Record(s, c, p), t, l);
    assert LocalInv(init, s, t);
    RecordedLast(init, s, c, p);
    forall k: nat | k < |s'.events|
      ensures Owned(s', k)
    {
      if k < |s.events| {
        assert Owned(s, k) && s'.callers[k] == s.callers[k];
        if s.callers[k] != t {
          assert LocalOf(s', s.callers[k]) == LocalOf(s, s.callers[k]);
        }
      } else {
        assert s'.callers[k] == t;
      }
    }
    forall u: Thread
      ensures LocalInv(init, s', u)
    {
      if u != t {
        var m := LocalOf(s, u);
        assert LocalOf(s', u) == m && LocalInv(init, s, u);
        assert Writes(LocalOf(s, t)) || Reads(LocalOf(s, t));
        assert !Writes(m);
        if m.Finished? {
          LinearizedStays(init, s, s', m.call, m.at, m.answer);
        }
      }
    }
    forall i | 0 <= i < |s'.returned|
      ensures ReturnInv(init, s', i)
    {
      assert ReturnInv(init, s, i);
      var r := s.returned[i];
      LinearizedStays(init, s, s', r.call, r.at, r.answer);
    }
  }

  lemma LocksAfter(s: System, s': System, t: Thread)
    requires LockInv(s)
    requires s'.writer == s.writer && s'.readers == s.readers && s'.announced == s.announced
    requires LocalOf(s', t).Announced? <==> LocalOf(s, t).Announced?
    requires s'.locals == s.locals[t := LocalOf(s', t)]
    requires Writes(LocalOf(s', t)) <==> Writes(LocalOf(s, t))
    requires Reads(LocalOf(s', t)) <==> Reads(LocalOf(s, t))
    ensures LockInv(s')
  {
    forall u: Thread
      ensures Writes(LocalOf(s', u)) <==> s'.writer == Some(u)
      ensures LocalOf(s', u).Announced? <==> s'.announced == Some(u)
      ensures Reads(LocalOf(s', u)) <==> u in s'.readers
    {
      assert u != t ==> LocalOf(s', u) == LocalOf(s, u);
      assert Writes(LocalOf(s, u)) <==> s.writer == Some(u);
      assert LocalOf(s, u).Announced? <==> s.announced == Some(u);
      assert Reads(LocalOf(s, u)) <==> u in s.readers;
    }
  }

  lemma BeginKeepsInv(init: Provider, s: System, t: Thread, op: Event)
    requires Inv(init, s) && LocalOf(s, t).Idle?
    ensures Inv(init, Exec(s, Begin(t, op)).system)
  {
    var s' := Exec(s, Begin(t, op)).system;
    LocksAfter(s, s', t);
    var c := LocalOf(s', t).call;
    forall j | 0 <= j < |s.returned|
      ensures s.returned[j].at < c.began
    {
      assert ReturnInv(init, s, j);
    }
    QuietStep(init, s, s', t);
  }

  lemma AcquireKeepsInv(init: Provider, s: System, t: Thread)
    requires Inv(init, s) && LocalOf(s, t).Waiting? && Acquire(s, t, LocalOf(s, t).call).Ran?
    ensures Inv(init, Acquire(s, t, LocalOf(s, t).call).system)
  {
    var c := LocalOf(s, t).call;
    var s' := Acquire(s, t, c).system;
    assert LocalInv(init, s, t);
    forall u: Thread
      ensures Writes(LocalOf(s', u)) <==> s'.writer == Some(u)
      ensures LocalOf(s', u).Announced? <==> s'.announced == Some(u)
      ensures Reads(LocalOf(s', u)) <==> u in s'.readers
    {
      assert u != t ==> LocalOf(s', u) == LocalOf(s, u);
      assert Writes(LocalOf(s, u)) <==> s.writer == Some(u);
      assert LocalOf(s, u).Announced? <==> s.announced == Some(u);
      assert Reads(LocalOf(s, u)) <==> u in s.readers;
    }
    QuietStep(init, s, s', t);
  }

  lemma GetInKeepsInv(init: Provider, s: System, t: Thread)
    requires Inv(init, s) && LocalOf(s, t).Announced? && GetIn(s, t, LocalOf(s, t).call).Ran?
    ensures Inv(init, GetIn(s, t, LocalOf(s, t).call).system)
  {
    var c := LocalOf(s, t).call;
    var s' := GetIn(s, t, c).system;
    assert LocalInv(init, s, t);
    forall u: Thread
      ensures Writes(LocalOf(s', u)) <==> s'.writer == Some(u)
      ensures LocalOf(s', u).Announced? <==> s'.announced == Some(u)
      ensures Reads(LocalOf(s', u)) <==> u in s'.readers
    {
      assert u != t ==> LocalOf(s', u) == LocalOf(s, u);
      assert Writes(LocalOf(s, u)) <==> s.writer == Some(u);
      assert LocalOf(s, u).Announced? <==> s.announced == Some(u);
      assert Reads(LocalOf(s, u)) <==> u in s.readers;
    }
    QuietStep(init, s, s', t);
  }

  lemma EnterKeepsInv(init: Provider, s: System, t: Thread)
    requires Inv(init, s) && LocalOf(s, t).Locked?
    requires |Enter(s, t, LocalOf(s, t).call).provider.signers| < TWO_32
    ensures Inv(init, Enter(s, t, LocalOf(s, t).call))
  {
    var c := LocalOf(s, t).call;
    var s' := Enter(s, t, c);
    assert LocalInv(init, s, t);
    LocksAfter(s, s', t);
    if c.op.Next? && s.provider.signers != [] {
      QuietStep(init, s, s', t);
    } else {
      var p := Step(s.provider, c.op);
      RecordedLast(init, s, c, p);
      var l := Finished(c, |s.events|, AnswerTo(s.provider, c.op));
      assert s' == SetLocal(Record(s, c, p), t, l);
      RecordingStep(init, s, t, c, p, l);
    }
  }

  /** In range, the store is the index update of a whole `Next`. */
  lemma StoreIsStep(s: System, t: Thread, c: Call, current: nat)
    requires Valid(s.provider) && s.provider.signers != [] && current == s.provider.index
    ensures Store(s, t, c, current) ==
            Ran(SetLocal(Record(s, c, Step(s.provider, Next)), t, Stored(c, current, |s.events|)))
  {
  }

  lemma StoreKeepsInv(init: Provider, s: System, t: Thread)
    requires Inv(init, s) && LocalOf(s, t).Loaded?
    ensures var o := Store(s, t, LocalOf(s, t).call, LocalOf(s, t).current); o.Ran? && Inv(init, o.system)
  {
    var c, current := LocalOf(s, t).call, LocalOf(s, t).current;
    assert LocalInv(init, s, t);
    var p, l := Step(s.provider, Next), Stored(c, current, |s.events|);
    StoreIsStep(s, t, c, current);
    RecordedLast(init, s, c, p);
    LocksAfter(s, SetLocal(Record(s, c, p), t, l), t);
    RecordingStep(init, s, t, c, p, l);
  }

  lemma ReadKeepsInv(init: Provider, s: System, t: Thread)
    requires Inv(init, s) && LocalOf(s, t).Stored?
    ensures var l := LocalOf(s, t); var o := Read(s, t, l.call, l.current, l.at); o.Ran? && Inv(init, o.system)
  {
    var l := LocalOf(s, t);
    assert LocalInv(init, s, t);
    var s' := Read(s, t, l.call, l.current, l.at).system;
    LocksAfter(s, s', t);
    QuietStep(init, s, s', t);
  }

  lemma ReleaseKeepsLocks(s: System, t: Thread)
    requires LockInv(s) && LocalOf(s, t).Finished?
    ensures var l := LocalOf(s, t); LockInv(Release(s, t, l.call, l.at, l.answer))
  {
    var l := LocalOf(s, t);
    var s' := Release(s, t, l.call, l.at, l.answer);
    assert Writes(l) <==> s.writer == Some(t);
    assert Reads(l) <==> t in s.readers;
    forall u: Thread
      ensures Writes(LocalOf(s', u)) <==> s'.writer == Some(u)
      ensures LocalOf(s', u).Announced? <==> s'.announced == Some(u)
      ensures Reads(LocalOf(s', u)) <==> u in s'.readers
    {
      assert u != t ==> LocalOf(s', u) == LocalOf(s, u);
      assert Writes(LocalOf(s, u)) <==> s.writer == Some(u);
      assert LocalOf(s, u).Announced? <==> s.announced == Some(u);
      assert Reads(LocalOf(s, u)) <==> u in s.readers;
    }
  }

  lemma ReleaseKeepsInv(init: Provider, s: System, t: Thread)
    requires Inv(init, s) && LocalOf(s, t).Finished?
    ensures var l := LocalOf(s, t); Inv(init, Release(s, t, l.call, l.at, l.answer))
  {
    var l := LocalOf(s, t);
    var s' := Release(s, t, l.call, l.at, l.answer);
    var n := |s.returned|;
    assert LocalInv(init, s, t);
    ReleaseKeepsLocks(s, t);
    forall k: nat | k < |s'.events|
      ensures Owned(s', k)
    {
      assert Owned(s, k);
      if i :| 0 <= i < n && s.returned[i].at == k {
        assert s'.returned[i].at == k;
      } else if s.callers[k] == t {
        assert s'.returned[n].at == k;
      } else {
        assert LocalOf(s', s.callers[k]) == LocalOf(s, s.callers[k]);
      }
    }
    forall u: Thread
      ensures LocalInv(init, s', u)
    {
      assert LocalInv(init, s, u);
      if u != t {
        assert LocalOf(s', u) == LocalOf(s, u);
      }
    }
    forall i | 0 <= i < |s'.returned|
      ensures ReturnInv(init, s', i)
    {
      if i < n {
        assert ReturnInv(init, s, i);
      } else {
        forall j | 0 <= j < n
          ensures s.returned[j].at != l.at
        {
          assert ReturnInv(init, s, j);
        }
      }
    }
  }

  lemma ExecKeepsInv(init: Provider, s: System, a: Action)
    requires Inv(init, s)
    requires Exec(s, a).Ran? ==> |Exec(s, a).system.provider.signers| < TWO_32
    ensures !Exec(s, a).Crashed?
    ensures Exec(s, a).Ran? ==> Inv(init, Exec(s, a).system)
  {
    if a.Begin? {
      if LocalOf(s, a.thread).Idle? {
        BeginKeepsInv(init, s, a.thread, a.op);
      }
    } else {
      match LocalOf(s, a.thread)
      case Idle =>
      case Waiting(c) =>
        if Acquire(s, a.thread, c).Ran? {
          AcquireKeepsInv(init, s, a.thread);
        }
      case Announced(c) =>
        if GetIn(s, a.thread, c).Ran? {
          GetInKeepsInv(init, s, a.thread);
        }
      case Locked(c) => EnterKeepsInv(init, s, a.thread);
      case Loaded(c, current) => StoreKeepsInv(init, s, a.thread);
      case Stored(c, current, at) => ReadKeepsInv(init, s, a.thread);
      case Finished(c, at, answer) => ReleaseKeepsInv(init, s, a.thread);
    }
  }

  /** The schedule never brings the list to 2^32 signers. */
  ghost predicate StaysSmall(init: Provider, schedule: seq<Action>) {
    forall k :: 0 <= k <= |schedule| ==>
      var o := Run(init, schedule[..k]);
      o.Ran? ==> |o.system.provider.signers| < TWO_32
  }

  /**
   Safety of every schedule, for any number of threads: no step divides by zero or reads out of
   range, and the invariant holds at the end.
   */
  lemma {:induction false} RunsAreSafe(init: Provider, schedule: seq<Action>)
    requires Valid(init) && StaysSmall(init, schedule)
    ensures Run(init, schedule).Ran? && Inv(init, Run(init, schedule).system)
  {
    if schedule != [] {
      var front := schedule[..|schedule| - 1];
      forall k | 0 <= k <= |front|
        ensures front[..k] == schedule[..k]
      {
      }
      RunsAreSafe(init, front);
      assert schedule[..|schedule|] == schedule;
      ExecKeepsInv(init, Run(init, front).system, schedule[|schedule| - 1]);
    }
  }

  /** Between any two steps the index is below max(1, number of signers). */
  lemma IndexStaysInRange(init: Provider, schedule: seq<Action>)
    requires Valid(init) && StaysSmall(init, schedule)
    ensures Run(init, schedule).Ran?
    ensures var p := Run(init, schedule).system.provider;
            p.index < if p.signers == [] then 1 else |p.signers|
  {
    RunsAreSafe(init, schedule);
  }

  /** Exactly one call took effect at place k: a returned one, or one that its caller is still in. */
  ghost predicate ExactlyOneCall(s: System, k: nat) {
    && Owned(s, k)
    && (forall i, j ::
          0 <= i < |s.returned| && 0 <= j < |s.returned| && s.returned[i].at == s.returned[j].at == k ==> i == j)
    && (forall i, t: Thread :: 0 <= i < |s.returned| && s.returned[i].at == k ==> !HoldsPlace(s, t, k))
    && (forall t: Thread, u: Thread :: HoldsPlace(s, t, k) && HoldsPlace(s, u, k) ==> t == u)
  }

  lemma HolderIsCaller(init: Provider, s: System, t: Thread, k: nat)
    requires Inv(init, s) && HoldsPlace(s, t, k)
    ensures k < |s.events| == |s.callers| && s.callers[k] == t && s.events[k] == LocalOf(s, t).call.op
    ensures forall i :: 0 <= i < |s.returned| ==> s.returned[i].at != k
  {
    assert LocalInv(init, s, t);
    var c := LocalOf(s, t).call;
    forall i | 0 <= i < |s.returned|
      ensures s.returned[i].at != k
    {
      assert ReturnInv(init, s, i);
      assert i < c.before || s.returned[i].call.thread != t;
    }
  }

  lemma PlaceHasOneCall(init: Provider, s: System, k: nat)
    requires Inv(init, s) && k < |s.events|
    ensures ExactlyOneCall(s, k)
  {
    assert Owned(s, k);
    forall i, j | 0 <= i < |s.returned| && 0 <= j < |s.returned| && s.returned[i].at == s.returned[j].at == k
      ensures i == j
    {
      assert ReturnInv(init, s, i) && ReturnInv(init, s, j);
    }
    forall t: Thread | HoldsPlace(s, t, k)
      ensures t == s.callers[k]
      ensures forall i :: 0 <= i < |s.returned| ==> s.returned[i].at != k
    {
      HolderIsCaller(init, s, t, k);
    }
  }

  /**
   The history holds nothing but calls: every place belongs to exactly one, a returned call or one
   that a thread is still in.
   */
  lemma HistoryHasOnlyCalls(init: Provider, schedule: seq<Action>, k: nat)
    requires Valid(init) && StaysSmall(init, schedule)
    requires Run(init, schedule).Ran? && k < |Run(init, schedule).system.events|
    ensures ExactlyOneCall(Run(init, schedule).system, k)
  {
    RunsAreSafe(init, schedule);
    PlaceHasOneCall(init, Run(init, schedule).system, k);
  }

  /**
   Every call that returned took effect as a whole at one place of the history, within its own
   duration, and its answer is the one it gets when that history is executed call by call.
   No two calls share a place, and no place is without its call.
   */
  lemma CallsAreSequential(init: Provider, schedule: seq<Action>, i: nat)
    requires Valid(init) && StaysSmall(init, schedule)
    requires Run(init, schedule).Ran? && i < |Run(init, schedule).system.returned|
    ensures
      var s := Run(init, schedule).system;
      var r := s.returned[i];
      && r.call.began <= r.at < |s.events| == |s.callers|
      && s.events[r.at] == r.call.op && s.callers[r.at] == r.call.thread
      && Runnable(init, s.events[..r.at])
      && r.answer == AnswerTo(After(init, s.events[..r.at]), r.call.op)
      && (r.call.op.Count? ==> r.answer == Counted(|init.signers| + Adds(s.events[..r.at])))
      && (r.call.op.Add? ==> r.answer == Added)
      && Runnable(init, s.events) && s.provider == After(init, s.events)
      && (forall j :: 0 <= j < i ==> s.returned[j].at != r.at)
      && (forall k :: 0 <= k < |s.events| ==> ExactlyOneCall(s, k))
  {
    RunsAreSafe(init, schedule);
    var s := Run(init, schedule).system;
    assert ReturnInv(init, s, i);
    forall k | 0 <= k < |s.events|
      ensures ExactlyOneCall(s, k)
    {
      PlaceHasOneCall(init, s, k);
    }
  }

  /** The sequential order keeps real time: a call that had returned before another began comes first. */
  lemma SequentialOrderKeepsRealTime(init: Provider, schedule: seq<Action>, i: nat, j: nat)
    requires Valid(init) && StaysSmall(init, schedule)
    requires Run(init, schedule).Ran? && i < |Run(init, schedule).system.returned|
    requires j < i
    ensures
      var rs := Run(init, schedule).system.returned;
      (j < rs[i].call.before || rs[j].call.thread == rs[i].call.thread) ==> rs[j].at < rs[i].at
  {
    RunsAreSafe(init, schedule);
    assert ReturnInv(init, Run(init, schedule).system, i);
  }

  /**
   The check-then-act of `HandleOps`: a thread that was told there are signers gets one from its
   later `Next`, whatever the other threads did in between.
   */
  lemma CountThenNext(init: Provider, schedule: seq<Action>, i: nat, j: nat)
    requires Valid(init) && StaysSmall(init, schedule)
    requires Run(init, schedule).Ran? && i < |Run(init, schedule).system.returned|
    requires
      var rs := Run(init, schedule).system.returned;
      && j < i && rs[j].call.thread == rs[i].call.thread
      && rs[j].call.op.Count? && rs[j].answer != Counted(0) && rs[i].call.op.Next?
    ensures
      var answer := Run(init, schedule).system.returned[i].answer;
      answer.Signer? && answer.key.Some?
  {
    var s := Run(init, schedule).system;
    CallsAreSequential(init, schedule, i);
    CallsAreSequential(init, schedule, j);
    SequentialOrderKeepsRealTime(init, schedule, i, j);
    SignersOnlyGrow(init, s.events, s.returned[j].at, s.returned[i].at);
  }

  /** No deadlock: while some call is in progress, some thread can take its next step, and it does not crash. */
  lemma SomeoneCanMove(init: Provider, schedule: seq<Action>, t: Thread) returns (u: Thread)
    requires Valid(init) && StaysSmall(init, schedule)
    requires Run(init, schedule).Ran? && !LocalOf(Run(init, schedule).system, t).Idle?
    ensures Exec(Run(init, schedule).system, Advance(u)).Ran?
  {
    RunsAreSafe(init, schedule);
    u := MoverOf(init, Run(init, schedule).system, t);
  }

  lemma MoverOf(init: Provider, s: System, t: Thread) returns (u: Thread)
    requires Inv(init, s) && !LocalOf(s, t).Idle?
    ensures Exec(s, Advance(u)).Ran?
  {
    if s.writer.Some? {
      u := s.writer.value;
      assert Writes(LocalOf(s, u));
    } else if s.readers != {} {
      u :| u in s.readers;
      assert Reads(LocalOf(s, u));
    } else if s.announced.Some? {
      u := s.announced.value;
      assert LocalOf(s, u).Announced?;
    } else {
      u := t;
      assert !LocalOf(s, t).Announced? && !Inside(LocalOf(s, t));
    }
    assert LocalInv(init, s, u);
  }
}
