/**
 Account lockout (backend/src/middleware/accountLockout.js). Times are
 milliseconds of one non-decreasing clock.
 */
module AccountLockout {
  import opened Wrappers

  const DEFAULT_MAX_ATTEMPTS: nat := 10
  const DEFAULT_LOCKOUT_MS: nat := 15 * 60 * 1000
  const STALE_MS: nat := 30 * 60 * 1000

  datatype Entry = Entry(attempts: nat, lockedUntil: Option<int>, lastAttemptAt: int)

  /** What the store holds for one key. */
  type Slot = Option<Entry>

  datatype Verdict = Verdict(locked: bool, remaining: nat, lockedUntil: Option<int>)

  /** `opts.x || DEFAULTS.x`. */
  function OrDefault(x: nat, default_: nat): (r: nat)
    ensures x == 0 ==> r == default_
    ensures x > 0 ==> r == x
  {
    if x != 0 then x else default_
  }

  // ---------------------------------------------------------------- one key

  function Fail(slot: Slot, max: nat, lockMs: nat, now: int): Slot {
    var entry := if slot.Some? then slot.value else Entry(0, None, now);
    if entry.lockedUntil.Some? && entry.lockedUntil.value > now then Some(entry)
    else
      var n := entry.attempts + 1;
      Some(Entry(n, if n >= max then Some(now + lockMs) else entry.lockedUntil, now))
  }

  function FailVerdict(slot: Slot, max: nat, lockMs: nat, now: int): Verdict {
    var entry := if slot.Some? then slot.value else Entry(0, None, now);
    if entry.lockedUntil.Some? && entry.lockedUntil.value > now then Verdict(true, 0, entry.lockedUntil)
    else if entry.attempts + 1 >= max then Verdict(true, 0, Some(now + lockMs))
    else Verdict(false, max - (entry.attempts + 1), None)
  }

  predicate Locked(slot: Slot, now: int) {
    slot.Some? && slot.value.lockedUntil.Some? && now <= slot.value.lockedUntil.value
  }

  /** `isLocked` forgets a lock that has passed. */
  function Check(slot: Slot, now: int): Slot {
    if slot.Some? && slot.value.lockedUntil.Some? && slot.value.lockedUntil.value < now then None else slot
  }

  function Sweep(slot: Slot, now: int): Slot {
    if slot.None? then None
    else if slot.value.lockedUntil.Some? then (if slot.value.lockedUntil.value < now then None else slot)
    else if slot.value.lastAttemptAt < now - STALE_MS then None
    else slot
  }

  // ---------------------------------------------------------------- the store

  class LockoutStore {
    var lockouts: map<string, Entry>

    constructor ()
      ensures lockouts == map[]
    {
      lockouts := map[];
    }

    function At(key: string): Slot reads this {
      if key in lockouts then Some(lockouts[key]) else None
    }

    /** Every other key keeps its slot. */
    twostate predicate OnlyChanges(key: string) reads this {
      forall k :: k != key ==> At(k) == old(At(k))
    }

    method RecordFailure(key: string, maxAttempts: nat, lockoutMs: nat, now: int) returns (v: Verdict)
      modifies this
      ensures var max := OrDefault(maxAttempts, DEFAULT_MAX_ATTEMPTS);
              var lockMs := OrDefault(lockoutMs, DEFAULT_LOCKOUT_MS);
              && At(key) == Fail(old(At(key)), max, lockMs, now)
              && v == FailVerdict(old(At(key)), max, lockMs, now)
      ensures OnlyChanges(key)
    {
      var max := OrDefault(maxAttempts, DEFAULT_MAX_ATTEMPTS);
      var lockMs := OrDefault(lockoutMs, DEFAULT_LOCKOUT_MS);
      if key !in lockouts {
        lockouts := lockouts[key := Entry(0, None, now)];
      }
      var entry := lockouts[key];
      if entry.lockedUntil.Some? && entry.lockedUntil.value > now {
        return Verdict(true, 0, entry.lockedUntil);
      }
      entry := entry.(attempts := entry.attempts + 1, lastAttemptAt := now);
      lockouts := lockouts[key := entry];
      if entry.attempts >= max {
        entry := entry.(lockedUntil := Some(now + lockMs));
        lockouts := lockouts[key := entry];
        return Verdict(true, 0, entry.lockedUntil);
      }
      return Verdict(false, max - entry.attempts, None);
    }

    method ClearFailures(key: string)
      modifies this
      ensures At(key) == None && OnlyChanges(key)
    {
      lockouts := lockouts - {key};
    }

    method IsLocked(key: string, now: int) returns (locked: bool)
      modifies this
      ensures locked == Locked(old(At(key)), now)
      ensures At(key) == Check(old(At(key)), now) && OnlyChanges(key)
    {
      if key !in lockouts || lockouts[key].lockedUntil.None? { return false; }
      if lockouts[key].lockedUntil.value < now {
        lockouts := lockouts - {key};
        return false;
      }
      return true;
    }

    /** The interval callback: visits every key once, in any order. */
    method SweepAll(now: int)
      modifies this
      ensures forall k :: At(k) == Sweep(old(At(k)), now)
    {
      var todo := lockouts.Keys;
      while todo != {}
        invariant forall k :: k in todo ==> At(k) == old(At(k)) && k in lockouts
        invariant forall k :: k !in todo ==> At(k) == Sweep(old(At(k)), now)
        decreases todo
      {
        var key :| key in todo;
        var entry := lockouts[key];
        if entry.lockedUntil.Some? && entry.lockedUntil.value < now { lockouts := lockouts - {key}; }
        if entry.lockedUntil.None? && entry.lastAttemptAt < now - STALE_MS { lockouts := lockouts - {key}; }
        todo := todo - {key};
      }
    }

    /** The middleware before the handler: `Some(seconds)` refuses the request with 429. */
    method Begin(key: string, now: int) returns (refused: Option<int>)
      modifies this
      ensures refused.Some? <==> Locked(old(At(key)), now)
      ensures refused.Some? ==> refused.value == RetryAfter(old(At(key)), now)
      ensures At(key) == Check(old(At(key)), now) && OnlyChanges(key)
    {
      var locked := IsLocked(key, now);
      if locked { return Some((lockouts[key].lockedUntil.value - now + 999) / 1000); }
      return None;
    }

    /** The patched `res.json`: a failed attempt counts, a successful one clears. `locked` replaces the body. */
    method Finish(key: string, status: int, success: Option<bool>, maxAttempts: nat, lockoutMs: nat, now: int)
      returns (locked: bool)
      modifies this
      ensures locked <==>
                && 400 <= status < 500 && success == Some(false)
                && FailVerdict(old(At(key)), OrDefault(maxAttempts, DEFAULT_MAX_ATTEMPTS),
                               OrDefault(lockoutMs, DEFAULT_LOCKOUT_MS), now).locked
      ensures OnlyChanges(key)
      ensures At(key) ==
              if 400 <= status < 500 && success == Some(false) then
                Fail(old(At(key)), OrDefault(maxAttempts, DEFAULT_MAX_ATTEMPTS),
                     OrDefault(lockoutMs, DEFAULT_LOCKOUT_MS), now)
              else if 200 <= status < 300 && success != Some(false) then None
              else old(At(key))
    {
      locked := false;
      if 400 <= status < 500 && success == Some(false) {
        var result := RecordFailure(key, maxAttempts, lockoutMs, now);
        if result.locked { return true; }
      }
      if 200 <= status < 300 && success != Some(false) {
        ClearFailures(key);
      }
    }
  }

  /** `Math.ceil((lockedUntil - now) / 1000)`. */
  function RetryAfter(slot: Slot, now: int): int
    requires Locked(slot, now)
  {
    (slot.value.lockedUntil.value - now + 999) / 1000
  }

  /**
   Waiting the advertised number of seconds is enough exactly when the remaining time is not
   a whole number of seconds: the lock still holds at the very millisecond it ends.
   */
  lemma RetryAfterSufficesIff(slot: Slot, now: int)
    requires Locked(slot, now)
    ensures !Locked(slot, now + 1000 * RetryAfter(slot, now))
            <==> (slot.value.lockedUntil.value - now) % 1000 != 0
  {
    var left := slot.value.lockedUntil.value - now;
    assert left == 1000 * (left / 1000) + left % 1000;
    if left % 1000 == 0 {
      assert (left + 999) / 1000 == left / 1000;
    } else {
      assert (left + 999) / 1000 == left / 1000 + 1;
    }
  }

  // ---------------------------------------------------------------- the remaining count

  function FailAll(slot: Slot, max: nat, lockMs: nat, times: seq<int>): Slot
    decreases |times|
  {
    if times == [] then slot else FailAll(Fail(slot, max, lockMs, times[0]), max, lockMs, times[1..])
  }

  /** The announced `remaining` is exact: of the failures that follow, that one locks and none before it. */
  lemma {:induction false} RemainingIsExact(slot: Slot, max: nat, lockMs: nat, now: int, times: seq<int>)
    requires !FailVerdict(slot, max, lockMs, now).locked
    requires times != [] && Ascending([now] + times)
    requires |times| <= FailVerdict(slot, max, lockMs, now).remaining
    ensures var last := |times| - 1;
            var before := FailAll(Fail(slot, max, lockMs, now), max, lockMs, times[..last]);
            FailVerdict(before, max, lockMs, times[last]).locked
            <==> |times| == FailVerdict(slot, max, lockMs, now).remaining
    decreases |times|
  {
    var next := Fail(slot, max, lockMs, now);
    assert ([now] + times)[0] <= ([now] + times)[1];
    if |times| > 1 {
      var rest := times[1..];
      assert [times[0]] + rest == times;
      assert forall i :: 0 <= i < |times| ==> times[i] == ([now] + times)[i + 1];
      RemainingIsExact(next, max, lockMs, times[0], rest);
      assert times[..|times| - 1][1..] == rest[..|rest| - 1];
    }
  }

  lemma {:induction false} CountsUp(max: nat, lockMs: nat, times: seq<int>)
    requires 0 < |times| <= max
    ensures FailAll(None, max, lockMs, times)
            == Some(Entry(|times|, if |times| == max then Some(times[|times| - 1] + lockMs) else None,
                          times[|times| - 1]))
  {
    var (p, last) := (times[..|times| - 1], times[|times| - 1]);
    assert times == p + [last];
    FailAllSnoc(None, max, lockMs, p, last);
    if p != [] { CountsUp(max, lockMs, p); }
  }

  lemma {:induction false} FailAllSnoc(slot: Slot, max: nat, lockMs: nat, times: seq<int>, last: int)
    ensures FailAll(slot, max, lockMs, times + [last]) == Fail(FailAll(slot, max, lockMs, times), max, lockMs, last)
    decreases |times|
  {
    if times == [] {
      assert [] + [last] == [last] && [last][1..] == [];
    } else {
      assert (times + [last])[1..] == times[1..] + [last];
      FailAllSnoc(Fail(slot, max, lockMs, times[0]), max, lockMs, times[1..], last);
    }
  }

  /**
   A fresh key is never locked before its `max`-th failure; that one locks it up to and
   including the instant `lockMs` later, and no longer.
   */
  lemma LocksAtMax(max: nat, lockMs: nat, times: seq<int>, t: int)
    requires 0 < |times| <= max
    ensures Locked(FailAll(None, max, lockMs, times), t)
            <==> |times| == max && t <= times[|times| - 1] + lockMs
  {
    CountsUp(max, lockMs, times);
  }

  // ---------------------------------------------------------------- sweep transparency, exact lock

  function Answers(slot: Slot, times: seq<int>): seq<bool>
    decreases |times|
  {
    if times == [] then [] else [Locked(slot, times[0])] + Answers(Check(slot, times[0]), times[1..])
  }

  predicate Ascending(times: seq<int>) { forall i, j :: 0 <= i < j < |times| ==> times[i] <= times[j] }

  /** A sweep before any later sequence of `isLocked` calls cannot be noticed by them. */
  lemma {:induction false} SweepIsTransparent(slot: Slot, swept: int, times: seq<int>)
    requires Ascending(times) && forall i :: 0 <= i < |times| ==> swept <= times[i]
    ensures Answers(Sweep(slot, swept), times) == Answers(slot, times)
  {
    if times != [] {
      if Sweep(slot, swept) != slot {
        NeverLocked(Sweep(slot, swept), times);
        NeverLocked(slot, times);
      }
    }
  }

  lemma {:induction false} NeverLocked(slot: Slot, times: seq<int>)
    requires forall i :: 0 <= i < |times| ==> !Locked(slot, times[i])
    ensures Answers(slot, times) == seq(|times|, _ => false)
    decreases |times|
  {
    if times != [] {
      var rest := Check(slot, times[0]);
      forall i | 0 <= i < |times[1..]| ensures !Locked(rest, times[1..][i]) {
        assert times[1..][i] == times[i + 1];
      }
      NeverLocked(rest, times[1..]);
    }
  }

  datatype Op = FailOp(now: int) | CheckOp(now: int) | SweepOp(now: int)

  function Apply(slot: Slot, max: nat, lockMs: nat, op: Op): Slot {
    match op
    case FailOp(now) => Fail(slot, max, lockMs, now)
    case CheckOp(now) => Check(slot, now)
    case SweepOp(now) => Sweep(slot, now)
  }

  function ApplyAll(slot: Slot, max: nat, lockMs: nat, ops: seq<Op>): Slot
    decreases |ops|
  {
    if ops == [] then slot else ApplyAll(Apply(slot, max, lockMs, ops[0]), max, lockMs, ops[1..])
  }

  /** Once set, a lock is not moved by anything before it ends: not by failures, checks or sweeps. */
  lemma {:induction false} LockIsExact(slot: Slot, max: nat, lockMs: nat, ops: seq<Op>)
    requires slot.Some? && slot.value.lockedUntil.Some?
    requires forall i :: 0 <= i < |ops| ==> ops[i].now < slot.value.lockedUntil.value
    ensures ApplyAll(slot, max, lockMs, ops) == slot
  {
    if ops != [] {
      assert ops[0].now < slot.value.lockedUntil.value;
      assert Apply(slot, max, lockMs, ops[0]) == slot;
      LockIsExact(slot, max, lockMs, ops[1..]);
    }
  }

  // ---------------------------------------------------------------- the rate bound

  /** The requests for one key and the sweeps between them. `Refail` counts a failed attempt. */
  datatype Event =
    | Enter(t: int)      // a request reaches the lock check
    | FailEnd(t: int)    // an admitted handler answers a failed attempt
    | OtherEnd(t: int)   // an admitted handler answers neither success nor a counted failure
    | SweepAt(t: int)

  datatype State = State(slot: Slot, busy: nat, last: int)

  /** `exclusive`: a request only enters once the previous one has ended. */
  predicate Enabled(s: State, e: Event, exclusive: bool) {
    && s.last <= e.t
    && match e
       case Enter(_) => exclusive ==> s.busy == 0
       case FailEnd(_) => s.busy > 0
       case OtherEnd(_) => s.busy > 0
       case SweepAt(_) => true
  }

  function Step(s: State, max: nat, lockMs: nat, e: Event): State {
    match e
    case Enter(t) => State(Check(s.slot, t), if Locked(s.slot, t) then s.busy else s.busy + 1, t)
    case FailEnd(t) => State(Fail(s.slot, max, lockMs, t), if s.busy > 0 then s.busy - 1 else 0, t)
    case OtherEnd(t) => State(s.slot, if s.busy > 0 then s.busy - 1 else 0, t)
    case SweepAt(t) => State(Sweep(s.slot, t), s.busy, t)
  }

  predicate Admissible(s: State, max: nat, lockMs: nat, es: seq<Event>, exclusive: bool)
    decreases |es|
  {
    es == []
    || (Enabled(s, es[0], exclusive) && Admissible(Step(s, max, lockMs, es[0]), max, lockMs, es[1..], exclusive))
  }

  /** Failing handler runs in the closed window from `lo` to `hi`. */
  function Failures(es: seq<Event>, lo: int, hi: int): nat {
    if es == [] then 0
    else (if es[0].FailEnd? && lo <= es[0].t <= hi then 1 else 0) + Failures(es[1..], lo, hi)
  }

  predicate Within(es: seq<Event>, lo: int, lockMs: nat, max: nat) {
    Failures(es, lo, lo + lockMs) <= max
  }

  ghost predicate Bounded(max: nat, lockMs: nat, exclusive: bool) {
    forall es, start, lo :: Admissible(State(None, 0, start), max, lockMs, es, exclusive) ==>
      Within(es, lo, lockMs, max)
  }

  /** With requests one at a time: below the maximum while unlocked, and nobody inside while locked. */
  predicate Orderly(s: State, max: nat) {
    && s.busy <= 1
    && (s.slot.Some? ==>
          if s.slot.value.lockedUntil.None? then s.slot.value.attempts < max else s.busy == 0)
  }

  /** `n` failures seen since `lo`: the entry remembers them, or a lock covers the rest of the window. */
  predicate Remembers(s: State, max: nat, lockMs: nat, lo: int, n: nat) {
    n > 0 ==>
      && s.slot.Some? && n <= max && lo <= s.last
      && match s.slot.value.lockedUntil
         case None => n <= s.slot.value.attempts && lo <= s.slot.value.lastAttemptAt
         case Some(u) => lo + lockMs <= u
  }

  lemma StepRemembers(s: State, max: nat, lockMs: nat, e: Event, lo: int, n: nat)
    requires max == 1 || (max > 0 && lockMs <= STALE_MS)
    requires Orderly(s, max) && Enabled(s, e, true) && Remembers(s, max, lockMs, lo, n)
    requires e.t <= lo + lockMs
    ensures var s' := Step(s, max, lockMs, e);
            && Orderly(s', max)
            && Remembers(s', max, lockMs, lo, n + Failures([e], lo, lo + lockMs))
  {
    assert [e][1..] == [];
    assert Failures([e], lo, lo + lockMs) == if e.FailEnd? && lo <= e.t then 1 else 0;
  }

  lemma {:induction false} NothingAfter(s: State, max: nat, lockMs: nat, es: seq<Event>, lo: int, hi: int)
    requires Admissible(s, max, lockMs, es, true) && hi < s.last
    ensures Failures(es, lo, hi) == 0
    decreases |es|
  {
    if es != [] { NothingAfter(Step(s, max, lockMs, es[0]), max, lockMs, es[1..], lo, hi); }
  }

  lemma {:induction false} WindowBound(s: State, max: nat, lockMs: nat, es: seq<Event>, lo: int, n: nat)
    requires max == 1 || (max > 0 && lockMs <= STALE_MS)
    requires Orderly(s, max) && Admissible(s, max, lockMs, es, true) && Remembers(s, max, lockMs, lo, n)
    ensures n + Failures(es, lo, lo + lockMs) <= max
    decreases |es|
  {
    if es != [] {
      var e := es[0];
      if e.t <= lo + lockMs {
        StepRemembers(s, max, lockMs, e, lo, n);
        assert [e][1..] == [];
        WindowBound(Step(s, max, lockMs, e), max, lockMs, es[1..], lo, n + Failures([e], lo, lo + lockMs));
      } else {
        NothingAfter(Step(s, max, lockMs, e), max, lockMs, es[1..], lo, lo + lockMs);
      }
    }
  }

  /** At most `max` failing handler runs in any window as long as the lock itself. */
  lemma RateBound(max: nat, lockMs: nat)
    requires max == 1 || (max > 0 && lockMs <= STALE_MS)
    ensures Bounded(max, lockMs, true)
  {
    forall es, start, lo | Admissible(State(None, 0, start), max, lockMs, es, true)
      ensures Within(es, lo, lockMs, max)
    {
      WindowBound(State(None, 0, start), max, lockMs, es, lo, 0);
    }
  }

  // ---------------------------------------------------------------- when the bound fails

  /** `n` requests one after the other at time `t`, all failing. */
  function Burst(n: nat, t: int): seq<Event> {
    if n == 0 then [] else [Enter(t), FailEnd(t)] + Burst(n - 1, t)
  }

  lemma {:induction false} BurstRuns(s: State, max: nat, lockMs: nat, n: nat, t: int)
    requires s.busy == 0 && s.last <= t
    requires s.slot.Some? ==> s.slot.value.lockedUntil.None?
    requires (if s.slot.Some? then s.slot.value.attempts else 0) + n <= max
    ensures Admissible(s, max, lockMs, Burst(n, t), true)
    decreases n
  {
    if n > 0 {
      var s1 := Step(s, max, lockMs, Enter(t));
      var s2 := Step(s1, max, lockMs, FailEnd(t));
      var rest := Burst(n - 1, t);
      assert Burst(n, t)[1..] == [FailEnd(t)] + rest && Burst(n, t)[1..][1..] == rest;
      if n > 1 {
        BurstRuns(s2, max, lockMs, n - 1, t);
      } else {
        assert rest == [];
      }
    }
  }

  lemma {:induction false} BurstCount(n: nat, t: int, lo: int, hi: int)
    requires lo <= t <= hi
    ensures Failures(Burst(n, t), lo, hi) == n
  {
    if n > 0 {
      var rest := Burst(n - 1, t);
      assert Burst(n, t)[1..] == [FailEnd(t)] + rest && ([FailEnd(t)] + rest)[1..] == rest;
      BurstCount(n - 1, t, lo, hi);
    }
  }

  lemma SweepForgets(max: nat, lockMs: nat)
    requires max >= 2 && lockMs > STALE_MS
    ensures !Bounded(max, lockMs, true)
  {
    var t := STALE_MS + 1;
    var s0 := State(None, 0, 0);
    var s1 := Step(s0, max, lockMs, Enter(0));
    var s2 := Step(s1, max, lockMs, FailEnd(0));
    var s3 := Step(s2, max, lockMs, SweepAt(t));
    assert s3 == State(None, 0, t);
    var tail := Burst(max, t);
    BurstRuns(s3, max, lockMs, max, t);
    BurstCount(max, t, 0, lockMs);
    var es := [Enter(0), FailEnd(0), SweepAt(t)] + tail;
    assert es[1..] == [FailEnd(0), SweepAt(t)] + tail && es[1..][1..] == [SweepAt(t)] + tail;
    assert es[1..][1..][1..] == tail;
    assert Admissible(s2, max, lockMs, es[1..][1..], true);
    assert Admissible(s1, max, lockMs, es[1..], true);
    assert Admissible(s0, max, lockMs, es, true);
    assert Failures(es[1..][1..], 0, lockMs) == max;
    assert Failures(es, 0, 0 + lockMs) == max + 1;
    assert !Within(es, 0, lockMs, max);
  }

  /** The bound holds exactly for locks no longer than the sweep's memory, and for a single attempt always. */
  lemma RateBoundIff(max: nat, lockMs: nat)
    requires max > 0
    ensures Bounded(max, lockMs, true) <==> max == 1 || lockMs <= STALE_MS
  {
    if max == 1 || lockMs <= STALE_MS { RateBound(max, lockMs); } else { SweepForgets(max, lockMs); }
  }

  function Enters(n: nat): seq<Event> { if n == 0 then [] else [Enter(0)] + Enters(n - 1) }

  function FailEnds(n: nat): seq<Event> { if n == 0 then [] else [FailEnd(0)] + FailEnds(n - 1) }

  lemma {:induction false} FailEndsRun(s: State, max: nat, lockMs: nat, n: nat)
    requires s.busy == n && s.last == 0
    ensures Admissible(s, max, lockMs, FailEnds(n), false)
    ensures Failures(FailEnds(n), 0, lockMs) == n
    decreases n
  {
    if n > 0 {
      assert FailEnds(n)[1..] == FailEnds(n - 1);
      FailEndsRun(Step(s, max, lockMs, FailEnd(0)), max, lockMs, n - 1);
    }
  }

  lemma {:induction false} EntersRun(s: State, max: nat, lockMs: nat, n: nat)
    requires s.slot == None && s.last == 0
    ensures Admissible(s, max, lockMs, Enters(n) + FailEnds(s.busy + n), false)
    ensures Failures(Enters(n) + FailEnds(s.busy + n), 0, lockMs) == s.busy + n
    decreases n
  {
    var es := Enters(n) + FailEnds(s.busy + n);
    if n == 0 {
      assert es == FailEnds(s.busy);
      FailEndsRun(s, max, lockMs, s.busy);
    } else {
      assert es[1..] == Enters(n - 1) + FailEnds(s.busy + 1 + (n - 1));
      EntersRun(Step(s, max, lockMs, Enter(0)), max, lockMs, n - 1);
    }
  }

  /** Requests that overlap all pass the check before the first failure is recorded: no bound at all. */
  lemma OverlapEscapesBound(max: nat, lockMs: nat)
    ensures !Bounded(max, lockMs, false)
  {
    var s := State(None, 0, 0);
    EntersRun(s, max, lockMs, max + 1);
    var es := Enters(max + 1) + FailEnds(max + 1);
    assert Admissible(s, max, lockMs, es, false);
    assert !Within(es, 0, lockMs, max);
  }
}
