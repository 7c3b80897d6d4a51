/**
 Request deduplication (backend/src/middleware/deduplicate.js) as a protocol
 over many requests: a completed-response cache, one in-flight entry per key, and
 waiters that receive the owner's response. A promise is named by the request that
 created it; it is settled when that request's patched `res.json` has run.
 */
module Deduplicate {
  import opened Wrappers
  import opened Http
  import opened DeduplicateKeys
  import BoundedCache
  import JsMap

  // ---------------------------------------------------------------- the protocol

  type RequestId = nat

  datatype Phase =
    | Bypassed
    | Executing(replied: Option<Response>, closed: bool)
    | Cached(answer: Response)
    | Coalesced(owner: RequestId, delivered: Option<Response>)

  datatype Entry = Entry(key: Option<string>, phase: Phase)

  datatype State = State(
    reqs: map<RequestId, Entry>,
    inflight: map<string, RequestId>,
    cache: BoundedCache.Store<Response>,
    now: int)

  datatype Config = Config(max: nat, ttl: nat)

  datatype Event =
    | Arrive(r: RequestId, key: Option<string>, t: int)
    | Json(r: RequestId, response: Response, t: int)
    | Close(r: RequestId, t: int)
    | Deliver(r: RequestId, t: int)
    | Sweep(t: int)

  function Initial(now: int): State { State(map[], map[], JsMap.Empty(), now) }

  predicate Is(s: State, r: RequestId, k: string) {
    r in s.reqs && s.reqs[r].key == Some(k)
  }

  predicate Executor(s: State, r: RequestId, k: string) {
    Is(s, r, k) && s.reqs[r].phase.Executing?
  }

  /** An executor that has neither replied nor closed. */
  predicate Running(s: State, r: RequestId, k: string) {
    Executor(s, r, k) && s.reqs[r].phase.replied.None? && !s.reqs[r].phase.closed
  }

  predicate Enabled(s: State, e: Event) {
    && s.now <= e.t
    && match e
       case Arrive(r, _, _) => r !in s.reqs
       case Json(r, _, _) =>
         r in s.reqs && s.reqs[r].key.Some? && s.reqs[r].phase.Executing? && s.reqs[r].phase.replied.None?
       case Close(r, _) =>
         r in s.reqs && s.reqs[r].key.Some? && s.reqs[r].phase.Executing? && !s.reqs[r].phase.closed
       case Deliver(r, _) =>
         && r in s.reqs && s.reqs[r].phase.Coalesced? && s.reqs[r].phase.delivered.None?
         && s.reqs[r].phase.owner in s.reqs
         && s.reqs[s.reqs[r].phase.owner].phase.Executing?
         && s.reqs[s.reqs[r].phase.owner].phase.replied.Some?
       case Sweep(_) => true
  }

  function Arrival(s: State, r: RequestId, key: Option<string>, t: int): State {
    match key
    case None => s.(reqs := s.reqs[r := Entry(None, Bypassed)], now := t)
    case Some(k) =>
      var cached := BoundedCache.Answer(s.cache, k, t);
      var cache := BoundedCache.Touch(s.cache, k, t);
      if cached.Some? then State(s.reqs[r := Entry(key, Cached(cached.value))], s.inflight, cache, t)
      else if k in s.inflight then
        State(s.reqs[r := Entry(key, Coalesced(s.inflight[k], None))], s.inflight, cache, t)
      else
        State(s.reqs[r := Entry(key, Executing(None, false))], s.inflight[k := r], cache, t)
  }

  /** The patched `res.json`: cache a success, settle the promise, drop the key's in-flight entry. */
  function Replied(s: State, c: Config, r: RequestId, response: Response, t: int): State
    requires c.max > 0
    requires r in s.reqs && s.reqs[r].key.Some? && s.reqs[r].phase.Executing?
  {
    var k := s.reqs[r].key.value;
    State(s.reqs[r := s.reqs[r].(phase := s.reqs[r].phase.(replied := Some(response)))],
          s.inflight - {k},
          if Successful(response) then BoundedCache.Insert(s.cache, c.max, k, response, t + c.ttl, t) else s.cache,
          t)
  }

  function Closed(s: State, r: RequestId, t: int): State
    requires r in s.reqs && s.reqs[r].key.Some? && s.reqs[r].phase.Executing?
  {
    s.(reqs := s.reqs[r := s.reqs[r].(phase := s.reqs[r].phase.(closed := true))],
       inflight := s.inflight - {s.reqs[r].key.value},
       now := t)
  }

  function Step(s: State, c: Config, e: Event): State
    requires c.max > 0 && Enabled(s, e)
  {
    match e
    case Arrive(r, key, t) => Arrival(s, r, key, t)
    case Json(r, response, t) => Replied(s, c, r, response, t)
    case Close(r, t) => Closed(s, r, t)
    case Deliver(r, t) =>
      var answer := s.reqs[s.reqs[r].phase.owner].phase.replied;
      s.(reqs := s.reqs[r := s.reqs[r].(phase := s.reqs[r].phase.(delivered := answer))], now := t)
    case Sweep(t) => s.(cache := BoundedCache.Cleanup(s.cache, t), now := t)
  }

  ghost predicate Admissible(s: State, c: Config, es: seq<Event>)
    requires c.max > 0
    decreases |es|
  {
    es == [] || (Enabled(s, es[0]) && Admissible(Step(s, c, es[0]), c, es[1..]))
  }

  ghost function Run(s: State, c: Config, es: seq<Event>): State
    requires c.max > 0 && Admissible(s, c, es)
    decreases |es|
  {
    if es == [] then s else Run(Step(s, c, es[0]), c, es[1..])
  }

  /** The response a request has received, if any. */
  function ReplyTo(s: State, r: RequestId): Option<Response>
    requires r in s.reqs
  {
    match s.reqs[r].phase
    case Bypassed => None
    case Executing(replied, _) => replied
    case Cached(answer) => Some(answer)
    case Coalesced(_, delivered) => delivered
  }

  // ---------------------------------------------------------------- soundness in every reachable state

  /** Some handler run under key `k` produced exactly this response. */
  ghost predicate ProducedUnder(s: State, k: string, response: Response) {
    exists x :: Executor(s, x, k) && s.reqs[x].phase.replied == Some(response)
  }

  ghost predicate InflightSound(s: State) {
    forall k :: k in s.inflight ==> Running(s, s.inflight[k], k)
  }

  /** The waiter's promise belongs to an executor of the same key, and settles to its response. */
  ghost predicate Served(s: State, w: RequestId, k: string)
    requires Is(s, w, k) && s.reqs[w].phase.Coalesced?
  {
    var p := s.reqs[w].phase;
    Executor(s, p.owner, k) && (p.delivered.Some? ==> s.reqs[p.owner].phase.replied == p.delivered)
  }

  ghost predicate WaitersSound(s: State) {
    forall w, k :: Is(s, w, k) && s.reqs[w].phase.Coalesced? ==> Served(s, w, k)
  }

  ghost predicate CacheSound(s: State) {
    && (forall k :: k in s.cache.entries ==>
          Successful(s.cache.entries[k].value) && ProducedUnder(s, k, s.cache.entries[k].value))
    && (forall r, k :: Is(s, r, k) && s.reqs[r].phase.Cached? ==>
          Successful(s.reqs[r].phase.answer) && ProducedUnder(s, k, s.reqs[r].phase.answer))
  }

  ghost predicate KeysMatch(s: State) {
    forall r :: r in s.reqs ==> (s.reqs[r].key.None? <==> s.reqs[r].phase.Bypassed?)
  }

  ghost predicate Inv(s: State, c: Config) {
    && InflightSound(s) && WaitersSound(s) && CacheSound(s) && KeysMatch(s)
    && |s.cache.order| <= c.max
  }

  /** Executors keep their key and, once given, their response. */
  ghost predicate Extends(s: State, s': State) {
    forall x, k :: Executor(s, x, k) ==>
      && Executor(s', x, k)
      && (s.reqs[x].phase.replied.Some? ==> s'.reqs[x].phase.replied == s.reqs[x].phase.replied)
  }

  lemma ProducedPersists(s: State, s': State, k: string, response: Response)
    requires Extends(s, s') && ProducedUnder(s, k, response)
    ensures ProducedUnder(s', k, response)
  {
    var x :| Executor(s, x, k) && s.reqs[x].phase.replied == Some(response);
    assert Executor(s', x, k);
  }

  lemma CacheStaysSound(s: State, s': State)
    requires CacheSound(s) && Extends(s, s')
    requires forall k :: k in s'.cache.entries ==>
               || (k in s.cache.entries && s'.cache.entries[k].value == s.cache.entries[k].value)
               || (Successful(s'.cache.entries[k].value) && ProducedUnder(s', k, s'.cache.entries[k].value))
    requires forall r, k :: Is(s', r, k) && s'.reqs[r].phase.Cached? ==>
               || (Is(s, r, k) && s.reqs[r].phase == s'.reqs[r].phase)
               || (k in s.cache.entries && s'.reqs[r].phase.answer == s.cache.entries[k].value)
    ensures CacheSound(s')
  {
    forall k | k in s'.cache.entries
      ensures Successful(s'.cache.entries[k].value) && ProducedUnder(s', k, s'.cache.entries[k].value)
    {
      if k in s.cache.entries && s'.cache.entries[k].value == s.cache.entries[k].value {
        ProducedPersists(s, s', k, s.cache.entries[k].value);
      }
    }
    forall r, k | Is(s', r, k) && s'.reqs[r].phase.Cached?
      ensures Successful(s'.reqs[r].phase.answer) && ProducedUnder(s', k, s'.reqs[r].phase.answer)
    {
      if Is(s, r, k) && s.reqs[r].phase == s'.reqs[r].phase {
        ProducedPersists(s, s', k, s.reqs[r].phase.answer);
      } else {
        ProducedPersists(s, s', k, s.cache.entries[k].value);
      }
    }
  }

  lemma WaitersStaySound(s: State, s': State)
    requires WaitersSound(s) && Extends(s, s')
    requires forall w, k :: Is(s', w, k) && s'.reqs[w].phase.Coalesced? ==>
               (Is(s, w, k) && s.reqs[w].phase == s'.reqs[w].phase) || Served(s', w, k)
    ensures WaitersSound(s')
  {
    forall w, k | Is(s', w, k) && s'.reqs[w].phase.Coalesced? ensures Served(s', w, k) {
      if Is(s, w, k) && s.reqs[w].phase == s'.reqs[w].phase {
        assert Served(s, w, k);
        assert Executor(s, s.reqs[w].phase.owner, k);
      }
    }
  }

  /** Reading the cache only loses entries. */
  ghost predicate Shrinks(a: BoundedCache.Store<Response>, b: BoundedCache.Store<Response>) {
    && |b.order| <= |a.order|
    && forall k :: k in b.entries ==> k in a.entries && b.entries[k].value == a.entries[k].value
  }

  /** Adding one request in a phase that is right from the start. */
  lemma NewRequestKeepsInv(s: State, c: Config, r: RequestId, e: Entry,
                           inflight: map<string, RequestId>, cache: BoundedCache.Store<Response>, t: int)
    requires Inv(s, c) && r !in s.reqs && Shrinks(s.cache, cache)
    requires e.key.None? <==> e.phase.Bypassed?
    requires e.phase.Executing? ==> e.phase == Executing(None, false)
    requires e.phase.Coalesced? ==> e.phase.delivered == None && Executor(s, e.phase.owner, e.key.value)
    requires e.phase.Cached? ==> e.key.value in s.cache.entries
                                 && s.cache.entries[e.key.value].value == e.phase.answer
    requires inflight == if e.phase.Executing? then s.inflight[e.key.value := r] else s.inflight
    ensures Inv(State(s.reqs[r := e], inflight, cache, t), c)
  {
    var s' := State(s.reqs[r := e], inflight, cache, t);
    assert Extends(s, s');
    assert forall k :: e.phase.Coalesced? && e.key == Some(k) ==> Executor(s', e.phase.owner, k);
    WaitersStaySound(s, s');
    CacheStaysSound(s, s');
  }

  lemma ShrinksRefl(cache: BoundedCache.Store<Response>)
    ensures Shrinks(cache, cache)
  {
  }

  lemma TouchShrinks(cache: BoundedCache.Store<Response>, k: string, t: int)
    ensures Shrinks(cache, BoundedCache.Touch(cache, k, t))
  {
    BoundedCache.TouchSize(cache, k, t);
  }

  lemma ArrivalKeepsInv(s: State, c: Config, r: RequestId, key: Option<string>, t: int)
    requires c.max > 0 && Inv(s, c) && Enabled(s, Arrive(r, key, t))
    ensures Inv(Arrival(s, r, key, t), c)
  {
    hide CacheSound, WaitersSound, KeysMatch, Shrinks, BoundedCache.Touch;
    if key.None? {
      ShrinksRefl(s.cache);
      hide Inv;
      NewRequestKeepsInv(s, c, r, Entry(None, Bypassed), s.inflight, s.cache, t);
    } else {
      var k := key.value;
      var s' := Arrival(s, r, key, t);
      TouchShrinks(s.cache, k, t);
      assert k in s.inflight ==> Running(s, s.inflight[k], k);
      hide Inv;
      NewRequestKeepsInv(s, c, r, s'.reqs[r], s'.inflight, s'.cache, t);
    }
  }

  lemma ReplyKeepsInv(s: State, c: Config, r: RequestId, response: Response, t: int)
    requires c.max > 0 && Inv(s, c) && Enabled(s, Json(r, response, t))
    ensures Inv(Replied(s, c, r, response, t), c)
  {
    var s' := Replied(s, c, r, response, t);
    var k := s.reqs[r].key.value;
    assert Extends(s, s');
    assert Executor(s', r, k) && s'.reqs[r].phase.replied == Some(response);
    assert ProducedUnder(s', k, response);
    WaitersStaySound(s, s');
    CacheStaysSound(s, s');
  }

  lemma CloseKeepsInv(s: State, c: Config, r: RequestId, t: int)
    requires c.max > 0 && Inv(s, c) && Enabled(s, Close(r, t))
    ensures Inv(Closed(s, r, t), c)
  {
    var s' := Closed(s, r, t);
    assert Extends(s, s');
    WaitersStaySound(s, s');
    CacheStaysSound(s, s');
  }

  lemma DeliverKeepsInv(s: State, c: Config, r: RequestId, t: int)
    requires c.max > 0 && Inv(s, c) && Enabled(s, Deliver(r, t))
    ensures Inv(Step(s, c, Deliver(r, t)), c)
  {
    var s' := Step(s, c, Deliver(r, t));
    assert Extends(s, s');
    assert Is(s, r, s.reqs[r].key.value);
    WaitersStaySound(s, s');
    CacheStaysSound(s, s');
  }

  lemma SweepKeepsInv(s: State, c: Config, t: int)
    requires c.max > 0 && Inv(s, c) && Enabled(s, Sweep(t))
    ensures Inv(Step(s, c, Sweep(t)), c)
  {
    var s' := Step(s, c, Sweep(t));
    forall k | k in s'.cache.entries
      ensures k in s.cache.entries && s'.cache.entries[k] == s.cache.entries[k]
    {
      BoundedCache.CleanupKeepsLive(s.cache, t, k);
    }
    BoundedCache.PurgeSize(s.cache, s.cache.order, t);
    assert Extends(s, s');
    WaitersStaySound(s, s');
    CacheStaysSound(s, s');
  }

  lemma StepKeepsInv(s: State, c: Config, e: Event)
    requires c.max > 0 && Inv(s, c) && Enabled(s, e)
    ensures Inv(Step(s, c, e), c)
  {
    match e
    case Arrive(r, key, t) => ArrivalKeepsInv(s, c, r, key, t);
    case Json(r, response, t) => ReplyKeepsInv(s, c, r, response, t);
    case Close(r, t) => CloseKeepsInv(s, c, r, t);
    case Deliver(r, t) => DeliverKeepsInv(s, c, r, t);
    case Sweep(t) => SweepKeepsInv(s, c, t);
  }

  lemma {:induction false} RunKeepsInv(s: State, c: Config, es: seq<Event>)
    requires c.max > 0 && Inv(s, c) && Admissible(s, c, es)
    ensures Inv(Run(s, c, es), c)
    decreases |es|
  {
    if es != [] {
      StepKeepsInv(s, c, es[0]);
      RunKeepsInv(Step(s, c, es[0]), c, es[1..]);
    }
  }

  /**
   In every reachable state: an in-flight entry's owner is still running; every response
   anyone received was produced by a handler run under that very key; and a waiter's
   response is its owner's.
   */
  lemma ReachableIsSound(now: int, c: Config, es: seq<Event>)
    requires c.max > 0 && Admissible(Initial(now), c, es)
    ensures var s := Run(Initial(now), c, es);
            && (forall k :: k in s.inflight ==> Running(s, s.inflight[k], k))
            && (forall r, k :: Is(s, r, k) && ReplyTo(s, r).Some? ==> ProducedUnder(s, k, ReplyTo(s, r).value))
            && (forall w, k :: Is(s, w, k) && s.reqs[w].phase.Coalesced? && ReplyTo(s, w).Some? ==>
                  && Executor(s, s.reqs[w].phase.owner, k)
                  && ReplyTo(s, w) == ReplyTo(s, s.reqs[w].phase.owner))
  {
    assert Inv(Initial(now), c);
    RunKeepsInv(Initial(now), c, es);
    var s := Run(Initial(now), c, es);
    forall r, k | Is(s, r, k) && ReplyTo(s, r).Some? ensures ProducedUnder(s, k, ReplyTo(s, r).value) {
      match s.reqs[r].phase
      case Executing(_, _) => assert Executor(s, r, k);
      case Coalesced(owner, _) => assert Executor(s, owner, k);
      case _ =>
    }
  }

  /** A request is answered from cache, joins a running owner, or runs its handler: one of the three. */
  lemma ArrivalOutcome(s: State, c: Config, r: RequestId, k: string, t: int)
    requires c.max > 0 && Inv(s, c) && Enabled(s, Arrive(r, Some(k), t))
    ensures var s' := Step(s, c, Arrive(r, Some(k), t));
            match s'.reqs[r].phase
            case Cached(answer) =>
              BoundedCache.Live(s.cache, k, t) && 200 <= answer.status < 300 && ProducedUnder(s, k, answer)
            case Coalesced(owner, d) => d == None && Running(s, owner, k) && !BoundedCache.Live(s.cache, k, t)
            case Executing(_, _) => Running(s', r, k) && s'.inflight[k] == r && k !in s.inflight
            case Bypassed => false
  {
  }

  // ---------------------------------------------------------------- single execution

  /** Every running handler is the registered owner of its key. */
  ghost predicate Owned(s: State) {
    forall x, k :: Running(s, x, k) ==> k in s.inflight && s.inflight[k] == x
  }

  lemma OwnedMeansOnePerKey(s: State, x: RequestId, y: RequestId, k: string)
    requires Owned(s) && Running(s, x, k) && Running(s, y, k)
    ensures x == y
  {
  }

  /** The event deletes an in-flight entry that belongs to another request. */
  predicate Trespasses(s: State, e: Event) {
    (e.Json? || e.Close?) && e.r in s.reqs && s.reqs[e.r].key.Some?
    && s.reqs[e.r].key.value in s.inflight && s.inflight[s.reqs[e.r].key.value] != e.r
  }

  /**
   Exactly when one-handler-per-key survives an event: when the reply or close does not
   delete an in-flight entry that another request owns.
   */
  lemma OwnershipKeptIff(s: State, c: Config, e: Event)
    requires c.max > 0 && Inv(s, c) && Owned(s) && Enabled(s, e)
    ensures Owned(Step(s, c, e)) <==> !Trespasses(s, e)
  {
    var s' := Step(s, c, e);
    if Trespasses(s, e) {
      var k := s.reqs[e.r].key.value;
      var x := s.inflight[k];
      assert Running(s, x, k);
      assert Running(s', x, k) && k !in s'.inflight;
    } else if e.Json? || e.Close? {
      var k := s.reqs[e.r].key.value;
      forall x, j | Running(s', x, j) ensures j in s'.inflight && s'.inflight[j] == x {
        assert x != e.r && Running(s, x, j);
      }
    } else {
      forall x, j | Running(s', x, j) ensures j in s'.inflight && s'.inflight[j] == x {
        if !(e.Arrive? && x == e.r) { assert Running(s, x, j); }
      }
    }
  }

  ghost predicate NoTrespass(s: State, c: Config, es: seq<Event>)
    requires c.max > 0 && Admissible(s, c, es)
    decreases |es|
  {
    es == [] || (!Trespasses(s, es[0]) && NoTrespass(Step(s, c, es[0]), c, es[1..]))
  }

  lemma {:induction false} RunKeepsOwned(s: State, c: Config, es: seq<Event>)
    requires c.max > 0 && Inv(s, c) && Owned(s) && Admissible(s, c, es) && NoTrespass(s, c, es)
    ensures Owned(Run(s, c, es))
    decreases |es|
  {
    hide Inv, Owned, Step, Trespasses;
    if es != [] {
      OwnershipKeptIff(s, c, es[0]);
      StepKeepsInv(s, c, es[0]);
      RunKeepsOwned(Step(s, c, es[0]), c, es[1..]);
    }
  }

  /** Over every run in which nobody deletes another's in-flight entry, at most one handler runs per key. */
  lemma OneHandlerPerKey(now: int, c: Config, es: seq<Event>)
    requires c.max > 0 && Admissible(Initial(now), c, es) && NoTrespass(Initial(now), c, es)
    ensures var s := Run(Initial(now), c, es);
            forall x, y, k :: Running(s, x, k) && Running(s, y, k) ==> x == y
  {
    assert Inv(Initial(now), c) && Owned(Initial(now));
    RunKeepsOwned(Initial(now), c, es);
    var s := Run(Initial(now), c, es);
    hide Inv, Run;
    forall x, y, k | Running(s, x, k) && Running(s, y, k) ensures x == y { OwnedMeansOnePerKey(s, x, y, k); }
  }

  /** A running handler without its in-flight entry has just lost it to another request. */
  lemma UnregisteredIff(s: State, c: Config, e: Event, k: string)
    requires c.max > 0 && Inv(s, c) && Owned(s) && Enabled(s, e)
    ensures (k !in Step(s, c, e).inflight && exists x :: Running(Step(s, c, e), x, k))
            <==> Trespasses(s, e) && s.reqs[e.r].key == Some(k)
  {
    hide CacheSound, WaitersSound, KeysMatch, BoundedCache.Insert, BoundedCache.Touch, BoundedCache.Cleanup;
    var s' := Step(s, c, e);
    if Trespasses(s, e) && s.reqs[e.r].key == Some(k) { assert Running(s', s.inflight[k], k); }
    if x :| k !in s'.inflight && Running(s', x, k) {
      assert Running(s, x, k);
    }
  }

  lemma ArrivesBeside(s: State, c: Config, r: RequestId, k: string, t: int)
    requires c.max > 0 && Enabled(s, Arrive(r, Some(k), t)) && !BoundedCache.Live(s.cache, k, t)
    ensures var after := Step(s, c, Arrive(r, Some(k), t));
            (Running(after, r, k) && exists x :: x != r && Running(after, x, k))
            <==> k !in s.inflight && exists x :: Running(s, x, k)
  {
    hide BoundedCache.Touch;
    var after := Step(s, c, Arrive(r, Some(k), t));
    if x :| Running(after, r, k) && x != r && Running(after, x, k) { assert Running(s, x, k); }
    if x :| k !in s.inflight && Running(s, x, k) { assert Running(after, x, k); }
  }

  /**
   The converse, key by key: after an event, a new request that finds no cached reply starts a
   handler beside a running one exactly if the event deleted that one's in-flight entry.
   */
  lemma SecondHandlerIff(s: State, c: Config, e: Event, r: RequestId, k: string, t: int)
    requires c.max > 0 && Inv(s, c) && Owned(s) && Enabled(s, e)
    requires Enabled(Step(s, c, e), Arrive(r, Some(k), t)) && !BoundedCache.Live(Step(s, c, e).cache, k, t)
    ensures var after := Step(Step(s, c, e), c, Arrive(r, Some(k), t));
            (Running(after, r, k) && exists x :: x != r && Running(after, x, k))
            <==> Trespasses(s, e) && s.reqs[e.r].key == Some(k)
  {
    ArrivesBeside(Step(s, c, e), c, r, k, t);
    UnregisteredIff(s, c, e, k);
  }

  /**
   A run where two handlers overlap on one key: the first request fails, the second starts,
   and the first one's late `close` removes the second one's entry before a third arrives.
   */
  lemma LateCloseLetsHandlersOverlap()
    ensures var c := Config(5000, 60000);
            var es := [Arrive(1, Some("k"), 0), Json(1, Response(500, "boom"), 1), Arrive(2, Some("k"), 2),
                       Close(1, 3), Arrive(3, Some("k"), 4)];
            && Admissible(Initial(0), c, es)
            && Running(Run(Initial(0), c, es), 2, "k")
            && Running(Run(Initial(0), c, es), 3, "k")
  {
    var c := Config(5000, 60000);
    var s0 := Initial(0);
    var s1 := Step(s0, c, Arrive(1, Some("k"), 0));
    var s2 := Step(s1, c, Json(1, Response(500, "boom"), 1));
    var s3 := Step(s2, c, Arrive(2, Some("k"), 2));
    var s4 := Step(s3, c, Close(1, 3));
    var s5 := Step(s4, c, Arrive(3, Some("k"), 4));
    assert Running(s5, 2, "k") && Running(s5, 3, "k");
    var e5 := [Arrive(3, Some("k"), 4)];
    var e4 := [Close(1, 3)] + e5;
    var e3 := [Arrive(2, Some("k"), 2)] + e4;
    var e2 := [Json(1, Response(500, "boom"), 1)] + e3;
    var e1 := [Arrive(1, Some("k"), 0)] + e2;
    assert e5[1..] == [] && e4[1..] == e5 && e3[1..] == e4 && e2[1..] == e3 && e1[1..] == e2;
    assert Admissible(s4, c, e5) && Run(s4, c, e5) == s5;
    assert Admissible(s3, c, e4) && Run(s3, c, e4) == s5;
    assert Admissible(s2, c, e3) && Run(s2, c, e3) == s5;
    assert Admissible(s1, c, e2) && Run(s1, c, e2) == s5;
    assert Admissible(s0, c, e1) && Run(s0, c, e1) == s5;
    assert e1 == [Arrive(1, Some("k"), 0), Json(1, Response(500, "boom"), 1), Arrive(2, Some("k"), 2),
                  Close(1, 3), Arrive(3, Some("k"), 4)];
  }

  // ---------------------------------------------------------------- waiters without a reply

  /** The request waits for `owner`, who has not replied. */
  predicate Waits(s: State, w: RequestId, owner: RequestId) {
    && w in s.reqs && s.reqs[w].phase == Coalesced(owner, None)
    && owner in s.reqs && s.reqs[owner].phase.Executing? && s.reqs[owner].phase.replied.None?
  }

  lemma WaitsOn(s: State, c: Config, w: RequestId, owner: RequestId, e: Event)
    requires c.max > 0 && Enabled(s, e) && Waits(s, w, owner)
    requires !(e.Json? && e.r == owner)
    ensures Waits(Step(s, c, e), w, owner)
  {
  }

  /**
   Nothing lets a waiter try on its own: over every run it gets a reply only if its owner runs
   `res.json`, so an owner that closes without one leaves it waiting for good.
   */
  lemma {:induction false} NoReplyWithoutOwner(s: State, c: Config, w: RequestId, owner: RequestId, es: seq<Event>)
    requires c.max > 0 && Admissible(s, c, es) && Waits(s, w, owner)
    requires forall i :: 0 <= i < |es| ==> !(es[i].Json? && es[i].r == owner)
    ensures Waits(Run(s, c, es), w, owner) && ReplyTo(Run(s, c, es), w).None?
    decreases |es|
  {
    if es != [] {
      WaitsOn(s, c, w, owner, es[0]);
      hide Step, Enabled, Waits;
      NoReplyWithoutOwner(Step(s, c, es[0]), c, w, owner, es[1..]);
    }
  }

  /** One retry window: its owner, key, response, deadline and the requests that predate it. */
  datatype Window = Window(owner: RequestId, key: string, response: Response, deadline: int,
                           earlier: set<RequestId>)

  /**
   What the window assumes of an event: the owner replies `response`, a success that stays
   cached until the deadline, before its connection closes; no other handler of the key
   replies, and none closes before the owner has replied; nothing is evicted.
   */
  predicate Expected(s: State, c: Config, w: Window, e: Event) {
    && e.t <= w.deadline
    && match e
       case Json(r, response, t) =>
         if r == w.owner then response == w.response && w.deadline <= t + c.ttl
         else
           && !Is(s, r, w.key)
           && (Successful(response) && r in s.reqs && s.reqs[r].key.Some? ==>
                 s.reqs[r].key.value in s.cache.entries || |s.cache.order| < c.max)
       case Close(r, _) => Is(s, r, w.key) ==> OwnerReplied(s, w)
       case _ => true
  }

  predicate OwnerReplied(s: State, w: Window) {
    w.owner in s.reqs && s.reqs[w.owner].phase.Executing? && s.reqs[w.owner].phase.replied.Some?
  }

  ghost predicate AllExpected(s: State, c: Config, w: Window, es: seq<Event>)
    requires c.max > 0 && Admissible(s, c, es)
    decreases |es|
  {
    es == [] || (Expected(s, c, w, es[0]) && AllExpected(Step(s, c, es[0]), c, w, es[1..]))
  }

  /** What holds throughout the window. */
  ghost predicate InWindow(s: State, w: Window) {
    && Executor(s, w.owner, w.key)
    && (forall x :: Executor(s, x, w.key) && x != w.owner ==> x in w.earlier)
    && (forall r :: Is(s, r, w.key) && r !in w.earlier && r != w.owner ==>
          || s.reqs[r].phase == Cached(w.response)
          || (s.reqs[r].phase.Coalesced? && s.reqs[r].phase.owner == w.owner))
    && (if s.reqs[w.owner].phase.replied.None? then
          && !s.reqs[w.owner].phase.closed
          && w.key !in s.cache.entries
          && w.key in s.inflight && s.inflight[w.key] == w.owner
        else
          && s.reqs[w.owner].phase.replied == Some(w.response)
          && w.key !in s.inflight
          && w.key in s.cache.entries
          && s.cache.entries[w.key].value == w.response
          && w.deadline <= s.cache.entries[w.key].expiresAt)
  }

  lemma WindowOpens(s: State, c: Config, r: RequestId, k: string, t: int, response: Response, deadline: int)
    requires c.max > 0 && Inv(s, c) && Enabled(s, Arrive(r, Some(k), t))
    requires Executor(Step(s, c, Arrive(r, Some(k), t)), r, k)
    ensures InWindow(Step(s, c, Arrive(r, Some(k), t)), Window(r, k, response, deadline, s.reqs.Keys))
  {
    var s' := Step(s, c, Arrive(r, Some(k), t));
    forall x | Executor(s', x, k) && x != r ensures x in s.reqs.Keys {
      assert Executor(s, x, k);
    }
  }

  /** Adding one request inside the window, with the owner's entry and the key's cache entry untouched. */
  lemma NewRequestKeepsWindow(s: State, w: Window, r: RequestId, e: Entry,
                              inflight: map<string, RequestId>, cache: BoundedCache.Store<Response>, t: int)
    requires InWindow(s, w) && r !in s.reqs && r !in w.earlier
    requires e.key == Some(w.key) ==>
               || e.phase == Cached(w.response)
               || (e.phase.Coalesced? && e.phase.owner == w.owner)
    requires (w.key in inflight) == (w.key in s.inflight)
    requires w.key in inflight ==> inflight[w.key] == s.inflight[w.key]
    requires (w.key in cache.entries) == (w.key in s.cache.entries)
    requires w.key in cache.entries ==> cache.entries[w.key].value == s.cache.entries[w.key].value
    requires w.key in cache.entries ==> cache.entries[w.key].expiresAt == s.cache.entries[w.key].expiresAt
    ensures InWindow(State(s.reqs[r := e], inflight, cache, t), w)
  {
    var s' := State(s.reqs[r := e], inflight, cache, t);
    forall x | Executor(s', x, w.key) && x != w.owner ensures x in w.earlier {
      assert x != r && Executor(s, x, w.key);
    }
    forall x | Is(s', x, w.key) && x !in w.earlier && x != w.owner
      ensures || s'.reqs[x].phase == Cached(w.response)
              || (s'.reqs[x].phase.Coalesced? && s'.reqs[x].phase.owner == w.owner)
    {
      if x != r { assert Is(s, x, w.key); }
    }
  }

  /** Reading the cache leaves every other key, and a live entry's value and deadline, as they were. */
  lemma TouchKeepsEntry(cache: BoundedCache.Store<Response>, k: string, t: int, j: string)
    requires j != k || j !in cache.entries || t <= cache.entries[j].expiresAt
    ensures var after := BoundedCache.Touch(cache, k, t);
            && (j in after.entries <==> j in cache.entries)
            && (j in after.entries ==> after.entries[j].value == cache.entries[j].value
                                       && after.entries[j].expiresAt == cache.entries[j].expiresAt)
  {
  }

  lemma ArrivalKeepsWindow(s: State, w: Window, r: RequestId, key: Option<string>, t: int)
    requires InWindow(s, w) && Enabled(s, Arrive(r, key, t))
    requires t <= w.deadline && w.earlier <= s.reqs.Keys
    ensures InWindow(Arrival(s, r, key, t), w)
  {
    hide BoundedCache.Touch;
    if key.None? {
      hide InWindow;
      NewRequestKeepsWindow(s, w, r, Entry(None, Bypassed), s.inflight, s.cache, t);
    } else {
      var s' := Arrival(s, r, key, t);
      TouchKeepsEntry(s.cache, key.value, t, w.key);
      assert key == Some(w.key) ==>
               (w.key in s.inflight && s.inflight[w.key] == w.owner && w.key !in s.cache.entries)
               || (w.key in s.cache.entries && s.cache.entries[w.key].value == w.response
                   && t <= s.cache.entries[w.key].expiresAt);
      hide InWindow;
      NewRequestKeepsWindow(s, w, r, s'.reqs[r], s'.inflight, s'.cache, t);
    }
  }

  lemma JsonKeepsWindow(s: State, c: Config, w: Window, r: RequestId, response: Response, t: int)
    requires c.max > 0 && Inv(s, c) && InWindow(s, w) && Enabled(s, Json(r, response, t))
    requires Expected(s, c, w, Json(r, response, t)) && Successful(w.response)
    ensures InWindow(Replied(s, c, r, response, t), w)
  {
    var s' := Replied(s, c, r, response, t);
    var k := s.reqs[r].key.value;
    if k == w.key {
      assert Is(s, r, w.key);
      assert r == w.owner;
    } else if Successful(response) {
      BoundedCache.InsertWithRoom(s.cache, c.max, k, response, t + c.ttl, t);
    }
    forall x | Executor(s', x, w.key) && x != w.owner ensures x in w.earlier {
      assert Executor(s, x, w.key);
    }
    forall x | Is(s', x, w.key) && x !in w.earlier && x != w.owner
      ensures || s'.reqs[x].phase == Cached(w.response)
              || (s'.reqs[x].phase.Coalesced? && s'.reqs[x].phase.owner == w.owner)
    {
      assert Is(s, x, w.key);
    }
  }

  lemma OtherKeepsWindow(s: State, c: Config, w: Window, e: Event)
    requires c.max > 0 && Inv(s, c) && InWindow(s, w) && Enabled(s, e) && Expected(s, c, w, e)
    requires e.Close? || e.Deliver? || e.Sweep?
    ensures InWindow(Step(s, c, e), w)
  {
    var s' := Step(s, c, e);
    if e.Sweep? { BoundedCache.CleanupKeepsLive(s.cache, e.t, w.key); }
    if e.Close? && s.reqs[e.r].key.value == w.key { assert Is(s, e.r, w.key) && OwnerReplied(s, w); }
    forall x | Executor(s', x, w.key) && x != w.owner ensures x in w.earlier {
      assert Executor(s, x, w.key);
    }
    forall x | Is(s', x, w.key) && x !in w.earlier && x != w.owner
      ensures || s'.reqs[x].phase == Cached(w.response)
              || (s'.reqs[x].phase.Coalesced? && s'.reqs[x].phase.owner == w.owner)
    {
      assert Is(s, x, w.key);
    }
  }

  lemma StepKeepsRequests(s: State, c: Config, e: Event)
    requires c.max > 0 && Enabled(s, e)
    ensures s.reqs.Keys <= Step(s, c, e).reqs.Keys
  {
  }

  lemma StepKeepsWindow(s: State, c: Config, w: Window, e: Event)
    requires c.max > 0 && Inv(s, c) && InWindow(s, w) && Enabled(s, e) && Expected(s, c, w, e)
    requires Successful(w.response) && w.earlier <= s.reqs.Keys
    ensures InWindow(Step(s, c, e), w)
  {
    hide Inv, InWindow;
    match e
    case Arrive(r, key, t) => ArrivalKeepsWindow(s, w, r, key, t);
    case Json(r, response, t) => JsonKeepsWindow(s, c, w, r, response, t);
    case _ => OtherKeepsWindow(s, c, w, e);
  }

  lemma {:induction false} RunKeepsWindow(s: State, c: Config, w: Window, es: seq<Event>)
    requires c.max > 0 && Inv(s, c) && InWindow(s, w) && Successful(w.response)
    requires w.earlier <= s.reqs.Keys
    requires Admissible(s, c, es) && AllExpected(s, c, w, es)
    ensures InWindow(Run(s, c, es), w) && Inv(Run(s, c, es), c)
    decreases |es|
  {
    hide Inv, InWindow, Step;
    if es != [] {
      StepKeepsWindow(s, c, w, es[0]);
      StepKeepsInv(s, c, es[0]);
      StepKeepsRequests(s, c, es[0]);
      RunKeepsWindow(Step(s, c, es[0]), c, w, es[1..]);
    }
  }

  lemma WindowAnswers(s: State, c: Config, w: Window)
    requires Inv(s, c) && InWindow(s, w) && w.owner !in w.earlier
    ensures forall x :: Is(s, x, w.key) && x !in w.earlier ==>
              && (s.reqs[x].phase.Executing? <==> x == w.owner)
              && (ReplyTo(s, x).Some? ==> ReplyTo(s, x) == Some(w.response))
  {
    forall x | Is(s, x, w.key) && x !in w.earlier
      ensures s.reqs[x].phase.Executing? <==> x == w.owner
      ensures ReplyTo(s, x).Some? ==> ReplyTo(s, x) == Some(w.response)
    {
      if x != w.owner && s.reqs[x].phase.Coalesced? { assert Served(s, x, w.key); }
    }
  }

  /**
   Single execution under retries. Once a request starts executing under a key and replies
   successfully before closing, every request with that key until the response expires is
   answered from the cache or joined to it: the handler runs once, and whoever gets a
   response gets the same status and body. Handlers of the key that were already abandoned
   may still be around: they must not reply, nor close before the owner has replied.
   */
  lemma SingleExecution(s: State, c: Config, r: RequestId, k: string, t: int, response: Response, deadline: int,
                        es: seq<Event>)
    requires c.max > 0 && Inv(s, c) && 200 <= response.status < 300
    requires Enabled(s, Arrive(r, Some(k), t)) && Executor(Step(s, c, Arrive(r, Some(k), t)), r, k)
    requires Admissible(Step(s, c, Arrive(r, Some(k), t)), c, es)
    requires AllExpected(Step(s, c, Arrive(r, Some(k), t)), c,
                         Window(r, k, response, deadline, s.reqs.Keys), es)
    ensures var s' := Run(Step(s, c, Arrive(r, Some(k), t)), c, es);
            forall x :: Is(s', x, k) && x !in s.reqs ==>
              && (s'.reqs[x].phase.Executing? <==> x == r)
              && (ReplyTo(s', x).Some? ==> ReplyTo(s', x) == Some(response))
  {
    hide Inv, InWindow;
    var w := Window(r, k, response, deadline, s.reqs.Keys);
    StepKeepsInv(s, c, Arrive(r, Some(k), t));
    StepKeepsRequests(s, c, Arrive(r, Some(k), t));
    WindowOpens(s, c, r, k, t, response, deadline);
    hide Step, Enabled, Executor;
    RunKeepsWindow(Step(s, c, Arrive(r, Some(k), t)), c, w, es);
    WindowAnswers(Run(Step(s, c, Arrive(r, Some(k), t)), c, es), c, w);
  }

  // ---------------------------------------------------------------- the middleware's state

  class Deduplicator {
    const config: Config
    const cache: BoundedCache.Cache<Response>
    var inflight: map<string, RequestId>
    var reqs: map<RequestId, Entry>
    var now: int

    ghost predicate Valid() reads this, cache {
      config.max > 0 && cache.max == config.max && cache.Valid()
    }

    ghost function View(): State reads this, cache { State(reqs, inflight, cache.store, now) }

    constructor (ttl: nat, start: int)
      ensures Valid() && fresh(cache) && config == Config(5000, ttl) && View() == Initial(start)
    {
      config := Config(5000, ttl);
      cache := new BoundedCache.Cache(5000, 60000);
      inflight := map[];
      reqs := map[];
      now := start;
    }

    /** The middleware body: cached response, in-flight join, or run the handler. */
    method Handle(r: RequestId, req: Request, names: seq<string>, digest: string -> string, t: int)
      requires Valid() && Enabled(View(), Arrive(r, KeyOf(req, names, digest), t))
      modifies this, cache
      ensures Valid() && View() == Step(old(View()), config, Arrive(r, KeyOf(req, names, digest), t))
    {
      now := t;
      var key := DedupKey(req, names, digest);
      if key.None? {
        reqs := reqs[r := Entry(None, Bypassed)];
        return;
      }
      var cached := cache.Get(key.value, t);
      if cached.Some? {
        reqs := reqs[r := Entry(key, Cached(cached.value))];
        return;
      }
      if key.value in inflight {
        reqs := reqs[r := Entry(key, Coalesced(inflight[key.value], None))];
        return;
      }
      inflight := inflight[key.value := r];
      reqs := reqs[r := Entry(key, Executing(None, false))];
    }

    /** The patched `res.json`. */
    method Reply(r: RequestId, response: Response, t: int)
      requires Valid() && Enabled(View(), Json(r, response, t))
      modifies this, cache
      ensures Valid() && View() == Step(old(View()), config, Json(r, response, t))
    {
      hide BoundedCache.Insert, BoundedCache.Evict;
      var k := reqs[r].key.value;
      now := t;
      if 200 <= response.status < 300 {
        cache.Put(k, response, Some(config.ttl), t);
      }
      reqs := reqs[r := reqs[r].(phase := reqs[r].phase.(replied := Some(response)))];
      inflight := inflight - {k};
    }

    /** The `close` listener. */
    method OnClose(r: RequestId, t: int)
      requires Valid() && Enabled(View(), Close(r, t))
      modifies this
      ensures Valid() && View() == Step(old(View()), config, Close(r, t))
    {
      now := t;
      inflight := inflight - {reqs[r].key.value};
      reqs := reqs[r := reqs[r].(phase := reqs[r].phase.(closed := true))];
    }
  }
}
