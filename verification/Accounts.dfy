/** cache.go, and the cached account lookup of client.go as a relation between cache contents. */
module Accounts {
  import opened Wrappers
  import opened ByteStrings
  import opened Text
  import opened Signing

  type Entries = map<string, Address>

  /** The factory contract's `getAddress`: a fixed address for every owner and salt. */
  type Factory = (Address, int) -> Address

  /** The effect of storing an entry: a new key in a full cache pushes out some other key, any one. */
  ghost predicate Stored(maxSize: nat, old_: Entries, key: string, value: Address, new_: Entries) {
    if key in old_ || |old_| < maxSize then new_ == old_[key := value]
    else exists victim :: victim in old_ && new_ == (old_ - {victim})[key := value]
  }

  /** The bounded cache of `NewLRUCache`; which entry is pushed out is left open. */
  class LruCache {
    const maxSize: nat
    var entries: Entries

    ghost predicate Valid()
      reads this
    {
      0 < maxSize && |entries| <= maxSize
    }

    constructor (maxSize: nat)
      requires 0 < maxSize
      ensures Valid() && this.maxSize == maxSize && entries == map[]
    {
      this.maxSize, entries := maxSize, map[];
    }

    method Get(key: string) returns (value: Option<Address>)
      ensures value == if key in entries then Some(entries[key]) else None
    {
      value := if key in entries then Some(entries[key]) else None;
    }

    method Set(key: string, value: Address) returns (evicted: bool)
      requires Valid()
      modifies this`entries
      ensures Valid() && Stored(maxSize, old(entries), key, value, entries)
      ensures evicted <==> key !in old(entries) && |old(entries)| == maxSize
      ensures key in entries && entries[key] == value
    {
      ghost var before := entries;
      evicted := key !in entries && |entries| == maxSize;
      if evicted {
        assert entries != map[];
        var victim :| victim in entries;
        entries := entries - {victim};
        assert |before| == |entries| + 1 by {
          assert before == entries[victim := before[victim]];
        }
      }
      entries := entries[key := value];
    }
  }

  /** The cache key of `GetAccount`. */
  function Key(K: Crypto, owner: Address, salt: int): string {
    AddressHex(K, owner) + "-" + IntText(salt, 10)
  }

  /** What a key spells out: the address, a dash, and the salt in decimal with its sign. */
  lemma KeyLayout(K: Crypto, owner: Address, salt: int)
    ensures
      var key := Key(K, owner, salt);
      var number := if salt < 0 then key[44..] else key[43..];
      && 43 < |key|
      && ParseAddress(key[..42]) == Some(owner) && key[42] == '-'
      && (salt < 0 ==> key[43] == '-')
      && 0 < |number| && AllDecimal(number)
      && DecimalValue(number) == (if salt < 0 then -salt else salt)
      && (number[0] == '0' ==> |number| == 1)
  {
    AddressHexReadsBack(K, owner);
    DecimalText(salt);
    var key := Key(K, owner, salt);
    assert key[..42] == AddressHex(K, owner);
    assert key[43..] == IntText(salt, 10);
    assert salt < 0 ==> key[44..] == IntText(salt, 10)[1..];
  }

  /** Keys of different owners or salts differ, for integers of any size and sign. */
  lemma KeyInjective(K: Crypto, owner: Address, salt: int, owner': Address, salt': int)
    requires Key(K, owner, salt) == Key(K, owner', salt')
    ensures owner == owner' && salt == salt'
  {
    AddressHexReadsBack(K, owner);
    AddressHexReadsBack(K, owner');
    ConcatInjective(AddressHex(K, owner) + "-", IntText(salt, 10), AddressHex(K, owner') + "-", IntText(salt', 10));
    ConcatInjective(AddressHex(K, owner), "-", AddressHex(K, owner'), "-");
    IntTextInjective(salt, salt', 10);
  }

  /** One call of `GetAccount` on a client with a cache. */
  ghost predicate LookupStep(
    K: Crypto, factory: Factory, maxSize: nat, before: Entries,
    owner: Address, salt: int, answer: Option<Address>, after: Entries)
  {
    var key := Key(K, owner, salt);
    if key in before then answer == Some(before[key]) && after == before
    else if answer.None? then after == before
    else answer == Some(factory(owner, salt)) && Stored(maxSize, before, key, answer.value, after)
  }

  /** Every entry sits under the key of some owner and salt and is the factory's address for them. */
  ghost predicate Agrees(K: Crypto, factory: Factory, entries: Entries) {
    && (forall key :: key in entries ==> exists owner: Address, salt: int :: key == Key(K, owner, salt))
    && (forall owner: Address, salt: int ::
          Key(K, owner, salt) in entries ==> entries[Key(K, owner, salt)] == factory(owner, salt))
  }

  lemma StoringKeepsAgreement(
    K: Crypto, factory: Factory, maxSize: nat, before: Entries, owner: Address, salt: int, after: Entries)
    requires Agrees(K, factory, before)
    requires Stored(maxSize, before, Key(K, owner, salt), factory(owner, salt), after)
    ensures Agrees(K, factory, after)
  {
    forall o: Address, s: int | Key(K, o, s) in after
      ensures after[Key(K, o, s)] == factory(o, s)
    {
      if Key(K, o, s) == Key(K, owner, salt) {
        KeyInjective(K, o, s, owner, salt);
      }
    }
    forall key | key in after
      ensures exists o: Address, s: int :: key == Key(K, o, s)
    {
      assert key == Key(K, owner, salt) || key in before;
    }
  }

  lemma SizeAfterInsert(before: Entries, key: string, value: Address)
    ensures |before[key := value]| == if key in before then |before| else |before| + 1
  {
    assert before[key := value].Keys == before.Keys + {key};
  }

  lemma SizeAfterExchange(before: Entries, victim: string, key: string, value: Address)
    requires victim in before && key !in before
    ensures |(before - {victim})[key := value]| == |before|
  {
    assert before == (before - {victim})[victim := before[victim]];
    SizeAfterInsert(before - {victim}, victim, before[victim]);
    SizeAfterInsert(before - {victim}, key, value);
  }

  /**
   What storing keeps: the entry is there, everything else was there before with the same value,
   and at most one other entry is gone, none while there is room or when the key was there.
   */
  lemma StoringLosesAtMostOne(maxSize: nat, before: Entries, key: string, value: Address, after: Entries)
    requires 0 < maxSize && |before| <= maxSize && Stored(maxSize, before, key, value, after)
    ensures key in after && after[key] == value
    ensures forall k :: k in after && k != key ==> k in before && after[k] == before[k]
    ensures |after| == if key in before || |before| == maxSize then |before| else |before| + 1
  {
    if key in before || |before| < maxSize {
      SizeAfterInsert(before, key, value);
    } else {
      var victim :| victim in before && after == (before - {victim})[key := value];
      SizeAfterExchange(before, victim, key, value);
    }
  }

  lemma StoringKeepsBound(maxSize: nat, before: Entries, key: string, value: Address, after: Entries)
    requires 0 < maxSize && |before| <= maxSize && Stored(maxSize, before, key, value, after)
    ensures |after| <= maxSize
  {
    StoringLosesAtMostOne(maxSize, before, key, value, after);
  }

  datatype Request = Request(owner: Address, salt: int)

  /** A run of lookups: the contents between the calls, and the answers. */
  ghost predicate IsRun(
    K: Crypto, factory: Factory, maxSize: nat,
    contents: seq<Entries>, requests: seq<Request>, answers: seq<Option<Address>>)
  {
    && |contents| == |requests| + 1 && |answers| == |requests| && contents[0] == map[]
    && forall i :: 0 <= i < |requests| ==>
         LookupStep(K, factory, maxSize, contents[i], requests[i].owner, requests[i].salt, answers[i], contents[i + 1])
  }

  /** One lookup on contents that agree with the factory: the answer is exact, the contents still agree. */
  lemma LookupIsExact(
    K: Crypto, factory: Factory, maxSize: nat, before: Entries,
    owner: Address, salt: int, answer: Option<Address>, after: Entries)
    requires 0 < maxSize && |before| <= maxSize && Agrees(K, factory, before)
    requires LookupStep(K, factory, maxSize, before, owner, salt, answer, after)
    ensures answer.Some? ==> answer.value == factory(owner, salt)
    ensures answer.None? ==> after == before
    ensures answer.Some? ==> Key(K, owner, salt) in after && after[Key(K, owner, salt)] == answer.value
    ensures Key(K, owner, salt) in before ==> answer.Some? && after == before
    ensures Agrees(K, factory, after) && |after| <= maxSize
  {
    var key := Key(K, owner, salt);
    if key !in before && answer.Some? {
      StoringKeepsAgreement(K, factory, maxSize, before, owner, salt, after);
      StoringKeepsBound(maxSize, before, key, factory(owner, salt), after);
      StoringLosesAtMostOne(maxSize, before, key, factory(owner, salt), after);
    }
  }

  lemma {:induction false} ContentsAgree(
    K: Crypto, factory: Factory, maxSize: nat,
    contents: seq<Entries>, requests: seq<Request>, answers: seq<Option<Address>>, i: nat)
    requires 0 < maxSize && IsRun(K, factory, maxSize, contents, requests, answers) && i < |contents|
    ensures Agrees(K, factory, contents[i]) && |contents[i]| <= maxSize
  {
    if i != 0 {
      var k := i - 1;
      ContentsAgree(K, factory, maxSize, contents, requests, answers, k);
      LookupIsExact(K, factory, maxSize, contents[k], requests[k].owner, requests[k].salt, answers[k], contents[k + 1]);
    }
  }

  /**
   The cache is invisible: in every run from an empty cache, under every choice of evictions, a
   successful answer is the factory's address, and the contents always agree with the factory and
   stay within the bound. A failed lookup leaves the contents as they were.
   */
  lemma CachedLookupsAreExact(
    K: Crypto, factory: Factory, maxSize: nat,
    contents: seq<Entries>, requests: seq<Request>, answers: seq<Option<Address>>, i: nat)
    requires 0 < maxSize && IsRun(K, factory, maxSize, contents, requests, answers) && i < |requests|
    ensures answers[i].Some? ==> answers[i].value == factory(requests[i].owner, requests[i].salt)
    ensures answers[i].None? ==> contents[i + 1] == contents[i]
    ensures Agrees(K, factory, contents[i + 1]) && |contents[i + 1]| <= maxSize
  {
    ContentsAgree(K, factory, maxSize, contents, requests, answers, i);
    LookupIsExact(K, factory, maxSize, contents[i], requests[i].owner, requests[i].salt, answers[i], contents[i + 1]);
  }

  // Lookups by many threads. The cache locks itself for one Get or one Set; nothing is locked between
  // the miss, the query and the Set, so lookups overlap and may fetch and store the same address twice.

  type Thread = nat

  datatype Lookup = Idle | Missed(request: Request) | Fetched(request: Request, address: Address)

  datatype Answered = Answered(thread: Thread, request: Request, answer: Option<Address>)

  datatype Shared = Shared(entries: Entries, lookups: map<Thread, Lookup>, answered: seq<Answered>)

  datatype Action =
    | Get(thread: Thread, request: Request)
    | Query(thread: Thread, reachable: bool)
    | Set(thread: Thread)

  function LookupOf(s: Shared, t: Thread): Lookup {
    if t in s.lookups then s.lookups[t] else Idle
  }

  function Answer(s: Shared, t: Thread, request: Request, answer: Option<Address>): Shared {
    s.(lookups := s.lookups[t := Idle], answered := s.answered + [Answered(t, request, answer)])
  }

  function RequestKey(K: Crypto, r: Request): string {
    Key(K, r.owner, r.salt)
  }

  /** One step of one thread of a client with a cache. */
  ghost predicate SharedStep(K: Crypto, factory: Factory, maxSize: nat, s: Shared, a: Action, s': Shared) {
    var t, lookup := a.thread, LookupOf(s, a.thread);
    match a
    case Get(_, request) =>
      var key := RequestKey(K, request);
      && lookup.Idle?
      && s' == if key in s.entries then Answer(s, t, request, Some(s.entries[key]))
               else s.(lookups := s.lookups[t := Missed(request)])
    case Query(_, reachable) =>
      && lookup.Missed?
      && s' == if !reachable then Answer(s, t, lookup.request, None)
               else s.(lookups := s.lookups[
                         t := Fetched(lookup.request, factory(lookup.request.owner, lookup.request.salt))])
    case Set(_) =>
      && lookup.Fetched?
      && Stored(maxSize, s.entries, RequestKey(K, lookup.request), lookup.address, s'.entries)
      && s' == Answer(s, t, lookup.request, Some(lookup.address)).(entries := s'.entries)
  }

  /** An interleaving of lookups that starts with an empty cache and no lookup in progress. */
  ghost predicate IsInterleaving(
    K: Crypto, factory: Factory, maxSize: nat, states: seq<Shared>, schedule: seq<Action>)
  {
    && |states| == |schedule| + 1 && states[0] == Shared(map[], map[], [])
    && forall i :: 0 <= i < |schedule| ==> SharedStep(K, factory, maxSize, states[i], schedule[i], states[i + 1])
  }

  ghost predicate Exact(factory: Factory, a: Answered) {
    a.answer.Some? ==> a.answer.value == factory(a.request.owner, a.request.salt)
  }

  ghost predicate FetchedExactly(factory: Factory, l: Lookup) {
    l.Fetched? ==> l.address == factory(l.request.owner, l.request.salt)
  }

  ghost predicate AnswersExact(factory: Factory, s: Shared) {
    && (forall i :: 0 <= i < |s.answered| ==> Exact(factory, s.answered[i]))
    && (forall t :: t in s.lookups ==> FetchedExactly(factory, s.lookups[t]))
  }

  /** Some answered lookup was for this key and got an address. */
  ghost predicate WasAnswered(K: Crypto, s: Shared, key: string) {
    exists i :: 0 <= i < |s.answered| && s.answered[i].answer.Some? && RequestKey(K, s.answered[i].request) == key
  }

  ghost predicate SharedInv(K: Crypto, factory: Factory, maxSize: nat, s: Shared) {
    && Agrees(K, factory, s.entries) && |s.entries| <= maxSize
    && (forall key :: key in s.entries ==> WasAnswered(K, s, key))
    && AnswersExact(factory, s)
  }

  lemma AnswersStay(K: Crypto, s: Shared, t: Thread, request: Request, answer: Option<Address>, key: string)
    requires WasAnswered(K, s, key) || (answer.Some? && key == RequestKey(K, request))
    ensures WasAnswered(K, Answer(s, t, request, answer), key)
  {
    var s' := Answer(s, t, request, answer);
    if WasAnswered(K, s, key) {
      var i :| 0 <= i < |s.answered| && s.answered[i].answer.Some? && RequestKey(K, s.answered[i].request) == key;
      assert s'.answered[i] == s.answered[i];
    } else {
      assert s'.answered[|s.answered|] == Answered(t, request, answer);
    }
  }

  lemma ContentsStayExact(K: Crypto, factory: Factory, maxSize: nat, s: Shared, a: Action, s': Shared)
    requires 0 < maxSize && SharedInv(K, factory, maxSize, s) && SharedStep(K, factory, maxSize, s, a, s')
    ensures Agrees(K, factory, s'.entries) && |s'.entries| <= maxSize
  {
    if a.Set? {
      var lookup := LookupOf(s, a.thread);
      var r := lookup.request;
      StoringKeepsAgreement(K, factory, maxSize, s.entries, r.owner, r.salt, s'.entries);
      StoringKeepsBound(maxSize, s.entries, RequestKey(K, r), lookup.address, s'.entries);
    } else {
      assert s'.entries == s.entries;
    }
  }

  lemma ContentsStayAnswered(K: Crypto, factory: Factory, maxSize: nat, s: Shared, a: Action, s': Shared, key: string)
    requires key in s.entries ==> WasAnswered(K, s, key)
    requires SharedStep(K, factory, maxSize, s, a, s') && key in s'.entries
    ensures WasAnswered(K, s', key)
  {
    if s'.answered == s.answered {
      assert WasAnswered(K, s, key);
    } else {
      var last := s'.answered[|s.answered|];
      AnswersStay(K, s, last.thread, last.request, last.answer, key);
      assert s'.answered == Answer(s, last.thread, last.request, last.answer).answered;
    }
  }

  lemma AnswersStayExact(K: Crypto, factory: Factory, maxSize: nat, s: Shared, a: Action, s': Shared)
    requires AnswersExact(factory, s) && SharedStep(K, factory, maxSize, s, a, s')
    requires a.Get? && RequestKey(K, a.request) in s.entries ==>
               s.entries[RequestKey(K, a.request)] == factory(a.request.owner, a.request.salt)
    ensures AnswersExact(factory, s')
  {
    forall i | 0 <= i < |s'.answered|
      ensures Exact(factory, s'.answered[i])
    {
      if i < |s.answered| {
        assert s'.answered[i] == s.answered[i];
      } else if a.Set? {
        assert FetchedExactly(factory, s.lookups[a.thread]);
      }
    }
    forall t | t in s'.lookups
      ensures FetchedExactly(factory, s'.lookups[t])
    {
      assert t == a.thread || s'.lookups[t] == s.lookups[t];
    }
  }

  lemma StepKeepsInv(K: Crypto, factory: Factory, maxSize: nat, s: Shared, a: Action, s': Shared)
    requires 0 < maxSize && SharedInv(K, factory, maxSize, s) && SharedStep(K, factory, maxSize, s, a, s')
    ensures SharedInv(K, factory, maxSize, s')
  {
    ContentsStayExact(K, factory, maxSize, s, a, s');
    AnswersStayExact(K, factory, maxSize, s, a, s');
    forall key | key in s'.entries
      ensures WasAnswered(K, s', key)
    {
      ContentsStayAnswered(K, factory, maxSize, s, a, s', key);
    }
  }

  /**
   The cache is invisible however lookups overlap, and under every choice of evictions: each answer
   given is the factory's for the owner and salt asked for, the contents agree with the factory, hold
   only addresses that some lookup answered, and stay within the bound.
   */
  lemma {:induction false} OverlappingLookupsAreExact(
    K: Crypto, factory: Factory, maxSize: nat, states: seq<Shared>, schedule: seq<Action>, i: nat)
    requires 0 < maxSize && IsInterleaving(K, factory, maxSize, states, schedule) && i < |states|
    ensures SharedInv(K, factory, maxSize, states[i])
  {
    if i != 0 {
      var k := i - 1;
      OverlappingLookupsAreExact(K, factory, maxSize, states, schedule, k);
      assert SharedStep(K, factory, maxSize, states[k], schedule[k], states[k + 1]);
      StepKeepsInv(K, factory, maxSize, states[k], schedule[k], states[i]);
    }
  }
}
