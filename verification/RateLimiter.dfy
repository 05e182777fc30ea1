/**
 The in-memory fixed-window rate limiter: its `Allow` as a function of the limiter's state, the
 class that runs it, how many calls a key can get through in any span of time, and why the
 periodic cleanup cannot be noticed. Times and durations are integer nanoseconds.
 */
module RateLimiter {
  import opened Common

  const CLEANUP_EVERY_N_CALLS: nat := 256
  const MAX_ENTRIES: nat := 50_000

  datatype Policy = Policy(maxRequests: int, window: int) {
    /** A policy without a positive count and window switches its limit off. */
    predicate Limits() {
      maxRequests > 0 && window > 0
    }
  }

  datatype Entry = Entry(count: int, resetAt: int)

  type Entries = map<string, Entry>

  datatype State = State(entries: Entries, calls: nat)

  datatype Decision = Decision(allowed: bool, retryAfter: int)

  function Swept(entries: Entries, now: int): Entries {
    map k | k in entries && now < entries[k].resetAt :: entries[k]
  }

  /** The call is counted, and every 256th one sweeps the expired entries first. */
  function Counted(s: State, now: int): State {
    if (s.calls + 1) % CLEANUP_EVERY_N_CALLS == 0 then State(Swept(s.entries, now), 0)
    else State(s.entries, s.calls + 1)
  }

  /** The limiter finds no room for a key it does not know. */
  predicate Full(entries: Entries, key: string) {
    key !in entries && |entries| >= MAX_ENTRIES
  }

  function Admit(entries: Entries, key: string, p: Policy, now: int): (Entries, Decision) {
    if Full(entries, key) then (entries, Decision(false, p.window))
    else if key !in entries || now >= entries[key].resetAt then
      (entries[key := Entry(1, now + p.window)], Decision(true, 0))
    else if entries[key].count < p.maxRequests then
      (entries[key := entries[key].(count := entries[key].count + 1)], Decision(true, 0))
    else (entries, Decision(false, Max(0, entries[key].resetAt - now)))
  }

  function Decide(s: State, key: string, p: Policy, now: int): (State, Decision) {
    if !p.Limits() then (s, Decision(true, 0))
    else
      var s1 := Counted(s, now);
      var (entries, d) := Admit(s1.entries, key, p, now);
      (State(entries, s1.calls), d)
  }

  class FixedWindowRateLimiter {
    var entries: Entries
    var calls: nat

    function Abstract(): State
      reads this
    {
      State(entries, calls)
    }

    constructor ()
      ensures Abstract() == State(map[], 0)
    {
      entries, calls := map[], 0;
    }

    method Allow(bucketKey: string, policy: Policy, now: int) returns (allowed: bool, retryAfter: int)
      modifies this
      ensures (Abstract(), Decision(allowed, retryAfter)) == Decide(old(Abstract()), bucketKey, policy, now)
      ensures policy.maxRequests <= 0 || policy.window <= 0 ==> allowed && retryAfter == 0 && Abstract() == old(Abstract())
    {
      if policy.maxRequests <= 0 || policy.window <= 0 {
        return true, 0;
      }
      calls := calls + 1;
      if calls % CLEANUP_EVERY_N_CALLS == 0 {
        CleanupExpired(now);
        calls := 0;
      }
      if bucketKey !in entries {
        if |entries| >= MAX_ENTRIES {
          return false, policy.window;
        }
        entries := entries[bucketKey := Entry(1, now + policy.window)];
        return true, 0;
      }
      var entry := entries[bucketKey];
      if !(now < entry.resetAt) {
        entries := entries[bucketKey := Entry(1, now + policy.window)];
        return true, 0;
      }
      if entry.count < policy.maxRequests {
        entry := entry.(count := entry.count + 1);
        entries := entries[bucketKey := entry];
        return true, 0;
      }
      retryAfter := entry.resetAt - now;
      if retryAfter < 0 {
        retryAfter := 0;
      }
      return false, retryAfter;
    }

    method CleanupExpired(now: int)
      modifies this`entries
      ensures entries == Swept(old(entries), now)
      ensures forall k :: k in entries <==> k in old(entries) && now < old(entries)[k].resetAt
      ensures forall k :: k in entries ==> entries[k] == old(entries)[k]
    {
      var keys := entries.Keys;
      while keys != {}
        invariant keys <= old(entries).Keys
        invariant entries == map k | k in old(entries) && (k in keys || now < old(entries)[k].resetAt) :: old(entries)[k]
        decreases |keys|
      {
        ghost var someKey := MemberOf(keys);
        var key :| key in keys;
        if !(now < entries[key].resetAt) {
          entries := entries - {key};
        }
        keys := keys - {key};
      }
    }
  }

  // ----- runs

  datatype Call = Call(key: string, policy: Policy, now: int)

  function After(s: State, c: Call): State {
    Decide(s, c.key, c.policy, c.now).0
  }

  function DecisionOf(s: State, c: Call): Decision {
    Decide(s, c.key, c.policy, c.now).1
  }

  function Decisions(s: State, calls: seq<Call>): seq<Decision>
    decreases |calls|
  {
    if calls == [] then [] else [DecisionOf(s, calls[0])] + Decisions(After(s, calls[0]), calls[1..])
  }

  ghost predicate InTimeOrder(calls: seq<Call>) {
    forall i, j :: 0 <= i < j < |calls| ==> calls[i].now <= calls[j].now
  }

  /** Every call for `key` comes with policy `p`. */
  ghost predicate UnderPolicy(calls: seq<Call>, key: string, p: Policy) {
    forall i :: 0 <= i < |calls| && calls[i].key == key ==> calls[i].policy == p
  }

  /** How many calls for `key` are let through at a time between `from` and `to`. */
  ghost function Accepted(s: State, calls: seq<Call>, key: string, from: int, to: int): nat
    decreases |calls|
  {
    if calls == [] then 0
    else
      var c := calls[0];
      (if c.key == key && from <= c.now <= to && DecisionOf(s, c).allowed then 1 else 0)
      + Accepted(After(s, c), calls[1..], key, from, to)
  }

  ghost predicate StateOk(s: State) {
    |s.entries| <= MAX_ENTRIES && forall k :: k in s.entries ==> s.entries[k].count >= 1
  }

  lemma SweptIsSmaller(entries: Entries, now: int)
    ensures |Swept(entries, now)| <= |entries|
  {
    SubsetSize(Swept(entries, now).Keys, entries.Keys);
  }

  /** A call leaves the table with at most 50000 entries ... */
  lemma CapacityIsKept(s: State, c: Call)
    requires StateOk(s)
    ensures StateOk(After(s, c))
  {
    SweptIsSmaller(s.entries, c.now);
    var e := Counted(s, c.now).entries;
    if c.policy.Limits() {
      var (entries, d) := Admit(e, c.key, c.policy, c.now);
      SubsetSize(entries.Keys, e.Keys + {c.key});
    }
  }

  function AfterAll(s: State, calls: seq<Call>): State
    decreases |calls|
  {
    if calls == [] then s else AfterAll(After(s, calls[0]), calls[1..])
  }

  /** ... however many calls are made. */
  lemma {:induction false} CapacityIsNeverExceeded(calls: seq<Call>, s: State)
    requires StateOk(s)
    ensures |AfterAll(s, calls).entries| <= 50_000
    decreases |calls|
  {
    if calls != [] {
      CapacityIsKept(s, calls[0]);
      CapacityIsNeverExceeded(calls[1..], After(s, calls[0]));
    }
  }

  // ----- the sliding-window bound

  /** How many windows of length `w` can be opened from time `start` to time `to`, both included. */
  function WindowsFrom(start: int, to: int, w: int): nat
    requires w > 0
    decreases Max(0, to - start + 1)
  {
    if start > to then 0 else 1 + WindowsFrom(start + w, to, w)
  }

  /** The calls for `key` that can still be let through from `now` until `to`. */
  function Budget(entries: Entries, key: string, p: Policy, now: int, to: int): int
    requires p.Limits()
  {
    if key in entries && now < entries[key].resetAt then
      Max(0, p.maxRequests - entries[key].count) + p.maxRequests * WindowsFrom(entries[key].resetAt, to, p.window)
    else p.maxRequests * WindowsFrom(now, to, p.window)
  }

  lemma ProductIsMonotonic(m: int, a: nat, b: nat)
    requires m > 0 && a <= b
    ensures 0 <= m * a <= m * b
    decreases b - a
  {
    if a < b {
      ProductIsMonotonic(m, a, b - 1);
      assert m * b == m * (b - 1) + m;
    }
  }

  lemma {:induction false} LaterOpensFewer(start: int, later: int, to: int, w: int)
    requires w > 0 && start <= later
    ensures WindowsFrom(later, to, w) <= WindowsFrom(start, to, w)
    decreases Max(0, to - start + 1)
  {
    if later <= to {
      LaterOpensFewer(start + w, later + w, to, w);
    }
  }

  lemma LaterIsFewer(m: int, start: int, later: int, to: int, w: int)
    requires m > 0 && w > 0 && start <= later
    ensures 0 <= m * WindowsFrom(later, to, w) <= m * WindowsFrom(start, to, w)
  {
    LaterOpensFewer(start, later, to, w);
    ProductIsMonotonic(m, WindowsFrom(later, to, w), WindowsFrom(start, to, w));
  }

  lemma OpeningCostsOne(m: int, start: int, to: int, w: int)
    requires w > 0 && start <= to
    ensures m * WindowsFrom(start, to, w) == m + m * WindowsFrom(start + w, to, w)
  {
    OneMore(m, WindowsFrom(start + w, to, w));
  }

  lemma OneMore(m: int, n: int)
    ensures m * (n + 1) == m * n + m
  {
  }

  /** Waiting and sweeping never add to the budget. */
  lemma BudgetOverTime(entries: Entries, swept: bool, key: string, p: Policy, now: int, later: int, to: int)
    requires p.Limits() && now <= later
    ensures Budget(if swept then Swept(entries, later) else entries, key, p, later, to) <= Budget(entries, key, p, now, to)
  {
    if key in entries && now < entries[key].resetAt {
      if entries[key].resetAt <= later {
        LaterIsFewer(p.maxRequests, entries[key].resetAt, later, to, p.window);
      }
    } else {
      LaterIsFewer(p.maxRequests, now, later, to, p.window);
    }
  }

  /** An accepted call inside the span uses up one unit of the budget. */
  lemma AdmitUsesBudget(entries: Entries, key: string, p: Policy, now: int, to: int)
    requires p.Limits() && now <= to
    ensures var (entries', d) := Admit(entries, key, p, now);
            Budget(entries', key, p, now, to) + (if d.allowed then 1 else 0) <= Budget(entries, key, p, now, to)
  {
    if key !in entries || now >= entries[key].resetAt {
      OpeningCostsOne(p.maxRequests, now, to, p.window);
    }
  }

  lemma StepUsesBudget(s: State, c: Call, key: string, p: Policy, now: int, to: int)
    requires p.Limits() && now <= c.now <= to && (c.key == key ==> c.policy == p)
    ensures Budget(After(s, c).entries, key, p, c.now, to) + (if c.key == key && DecisionOf(s, c).allowed then 1 else 0)
            <= Budget(s.entries, key, p, now, to)
  {
    if c.policy.Limits() {
      var sweeps := (s.calls + 1) % CLEANUP_EVERY_N_CALLS == 0;
      BudgetOverTime(s.entries, sweeps, key, p, now, c.now, to);
      var e := Counted(s, c.now).entries;
      if c.key == key {
        AdmitUsesBudget(e, key, p, c.now, to);
      }
    } else {
      BudgetOverTime(s.entries, false, key, p, now, c.now, to);
    }
  }

  lemma {:induction false} NothingAfter(s: State, calls: seq<Call>, key: string, from: int, to: int)
    requires InTimeOrder(calls) && calls != [] && to < calls[0].now
    ensures Accepted(s, calls, key, from, to) == 0
    decreases |calls|
  {
    if |calls| > 1 {
      assert calls[0].now <= calls[1].now && InTimeOrder(calls[1..]);
      NothingAfter(After(s, calls[0]), calls[1..], key, from, to);
    }
  }

  lemma BudgetIsNatural(entries: Entries, key: string, p: Policy, now: int, to: int)
    requires p.Limits()
    ensures Budget(entries, key, p, now, to) >= 0
  {
    LaterIsFewer(p.maxRequests, now, now, to, p.window);
    if key in entries {
      LaterIsFewer(p.maxRequests, entries[key].resetAt, entries[key].resetAt, to, p.window);
    }
  }

  lemma {:induction false} AcceptedWithinBudget(s: State, calls: seq<Call>, key: string, p: Policy, from: int, now: int, to: int)
    requires p.Limits() && InTimeOrder(calls) && UnderPolicy(calls, key, p)
    requires calls != [] ==> now <= calls[0].now
    ensures Accepted(s, calls, key, from, to) <= Budget(s.entries, key, p, now, to)
    decreases |calls|
  {
    BudgetIsNatural(s.entries, key, p, now, to);
    if calls != [] {
      var c := calls[0];
      if to < c.now {
        NothingAfter(s, calls, key, from, to);
      } else {
        StepUsesBudget(s, c, key, p, now, to);
        assert |calls| > 1 ==> calls[1..][0] == calls[1] && calls[0].now <= calls[1].now;
        AcceptedWithinBudget(After(s, c), calls[1..], key, p, from, c.now, to);
      }
    }
  }

  function CeilDiv(d: nat, w: int): nat
    requires w > 0
  {
    (d + w - 1) / w
  }

  lemma {:induction false} WindowsOfSpan(from: int, d: nat, w: int)
    requires w > 0
    ensures WindowsFrom(from + 1, from + d, w) == CeilDiv(d, w)
    decreases d
  {
    if d > w {
      WindowsOfSpan(from + w, d - w, w);
      DivStep(d - 1, w);
    } else if d > 0 {
      DivStep(d - 1, w);
      assert (d - 1) / w == 0;
    } else {
      assert (w - 1) / w == 0;
    }
  }

  lemma DivStep(x: nat, w: int)
    requires w > 0
    ensures (x + w) / w == x / w + 1
  {
    var q, r := x / w, x % w;
    assert x + w == (q + 1) * w + r;
    QuotientIs(x + w, w, q + 1, r);
  }

  lemma QuotientIs(x: int, w: int, q: int, r: int)
    requires w > 0 && 0 <= r < w && x == q * w + r
    ensures x / w == q
  {
    var k := x / w - q;
    assert k * w == x / w * w - q * w == r - x % w;
    assert k * w < w && -w < k * w;
    SmallMultiple(k, w);
  }

  lemma SmallMultiple(k: int, w: int)
    requires w > 0 && -w < k * w < w
    ensures k == 0
  {
    if k >= 1 {
      ProductIsMonotonic(w, 1, k);
      assert false;
    } else if k <= -1 {
      assert w * -k == -(k * w);
      ProductIsMonotonic(w, 1, -k);
      assert false;
    }
  }

  lemma WindowsMoved(start: int, to: int, shift: int, w: int)
    requires w > 0
    ensures WindowsFrom(start + shift, to + shift, w) == WindowsFrom(start, to, w)
    decreases Max(0, to - start + 1)
  {
    if start <= to {
      WindowsMoved(start + w, to, shift, w);
    }
  }

  lemma CeilDivOfRest(d: nat, w: int)
    requires w > 0
    ensures CeilDiv(d + 1, w) == d / w + 1
    ensures CeilDiv(d, w) == d / w + (if d % w == 0 then 0 else 1)
  {
    DivStep(d, w);
    if d % w == 0 {
      QuotientIs(d + w - 1, w, d / w, w - 1);
    } else {
      assert d + w - 1 == (d / w + 1) * w + (d % w - 1);
      QuotientIs(d + w - 1, w, d / w + 1, d % w - 1);
    }
  }

  /** Windows opened inside the span: one more than the whole windows that fit into it. */
  lemma WindowsInside(from: int, d: nat, w: int)
    requires w > 0
    ensures WindowsFrom(from, from + d, w) == CeilDiv(d, w) + (if d % w == 0 then 1 else 0)
  {
    WindowsMoved(from, from + d, 1, w);
    WindowsOfSpan(from, d + 1, w);
    CeilDivOfRest(d, w);
  }

  /** maxRequests * (ceil(d / window) + 1), and one less unless `d` is a whole number of windows. */
  function Most(p: Policy, d: nat): int
    requires p.Limits()
  {
    p.maxRequests * (CeilDiv(d, p.window) + 1) - (if d % p.window == 0 then 0 else 1)
  }

  lemma BudgetOfSpan(s: State, key: string, p: Policy, from: int, now: int, d: nat)
    requires p.Limits() && StateOk(s) && from <= now
    ensures Budget(s.entries, key, p, now, from + d) <= Most(p, d)
  {
    var m, w, n := p.maxRequests, p.window, CeilDiv(d, p.window);
    OneMore(m, n);
    WindowsOfSpan(from, d, w);
    if key in s.entries && now < s.entries[key].resetAt {
      LaterIsFewer(m, from + 1, s.entries[key].resetAt, from + d, w);
    } else {
      LaterIsFewer(m, from, now, from + d, w);
      WindowsInside(from, d, w);
    }
  }

  /**
   The sliding-window bound: whatever the other keys do, whatever cleanup and the capacity limit
   do, in every span of length `d` a key gets at most Most(p, d) calls through. Where `d` is no
   whole number of windows the one call less is the one that opened a window before the span.
   */
  lemma {:induction false} SlidingWindowBound(s: State, calls: seq<Call>, key: string, p: Policy, from: int, d: nat)
    requires p.Limits() && StateOk(s) && InTimeOrder(calls) && UnderPolicy(calls, key, p)
    ensures Accepted(s, calls, key, from, from + d) <= Most(p, d)
    decreases |calls|
  {
    if calls == [] || from <= calls[0].now {
      var now := if calls == [] then from else calls[0].now;
      AcceptedWithinBudget(s, calls, key, p, from, now, from + d);
      BudgetOfSpan(s, key, p, from, now, d);
    } else {
      CapacityIsKept(s, calls[0]);
      assert InTimeOrder(calls[1..]) && UnderPolicy(calls[1..], key, p);
      SlidingWindowBound(After(s, calls[0]), calls[1..], key, p, from, d);
    }
  }

  // ----- the bound is reached

  /** `n` calls for one key at one time. */
  function Burst(key: string, p: Policy, now: int, n: nat): seq<Call> {
    seq(n, _ => Call(key, p, now))
  }

  /** `k + 1` full bursts, one window apart. */
  function Bursts(key: string, p: Policy, now: int, k: nat): seq<Call>
    decreases k
  {
    Burst(key, p, now, if p.maxRequests > 0 then p.maxRequests else 0)
    + (if k == 0 then [] else Bursts(key, p, now + p.window, k - 1))
  }

  /** Only `key` is known, and it has `left` calls left in the window that began at `begun`. */
  ghost predicate OnlyKey(s: State, key: string, p: Policy, begun: int, left: int) {
    && s.entries.Keys <= {key}
    && if left == p.maxRequests then key in s.entries ==> s.entries[key].resetAt <= begun
       else key in s.entries && s.entries[key] == Entry(p.maxRequests - left, begun + p.window)
  }

  /** The first call opens the window, the others come while it is open. */
  predicate During(p: Policy, begun: int, left: int, now: int) {
    if left == p.maxRequests then now == begun else begun <= now < begun + p.window
  }

  lemma BurstStep(s: State, key: string, p: Policy, begun: int, left: int, now: int)
    requires p.Limits() && 0 < left <= p.maxRequests && OnlyKey(s, key, p, begun, left) && During(p, begun, left, now)
    ensures var c := Call(key, p, now);
            DecisionOf(s, c).allowed && OnlyKey(After(s, c), key, p, begun, left - 1)
  {
    SubsetSize(s.entries.Keys, {key});
    SweptIsSmaller(s.entries, now);
  }

  lemma {:induction false} BurstIsAccepted(
    s: State, key: string, p: Policy, begun: int, left: nat, now: int, rest: seq<Call>, from: int, to: int)
    returns (s': State)
    requires p.Limits() && left <= p.maxRequests && OnlyKey(s, key, p, begun, left) && During(p, begun, left, now)
    requires from <= now <= to
    ensures OnlyKey(s', key, p, begun, 0)
    ensures Accepted(s, Burst(key, p, now, left) + rest, key, from, to) == left + Accepted(s', rest, key, from, to)
    decreases left
  {
    if left == 0 {
      assert Burst(key, p, now, 0) + rest == rest;
      s' := s;
    } else {
      var c := Call(key, p, now);
      BurstStep(s, key, p, begun, left, now);
      var calls := Burst(key, p, now, left) + rest;
      assert calls[0] == c && calls[1..] == Burst(key, p, now, left - 1) + rest;
      s' := BurstIsAccepted(After(s, c), key, p, begun, left - 1, now, rest, from, to);
    }
  }

  /** One burst, then whatever `rest` gets through in a state that starts the next window afresh. */
  lemma FirstBurst(s: State, key: string, p: Policy, now: int, rest: seq<Call>, from: int, to: int) returns (s': State)
    requires p.Limits() && OnlyKey(s, key, p, now, p.maxRequests) && from <= now <= to
    ensures OnlyKey(s', key, p, now + p.window, p.maxRequests)
    ensures Accepted(s, Burst(key, p, now, p.maxRequests) + rest, key, from, to) == p.maxRequests + Accepted(s', rest, key, from, to)
  {
    s' := BurstIsAccepted(s, key, p, now, p.maxRequests, now, rest, from, to);
    NextWindow(s', key, p, now);
  }

  /** The last of `k + 1` bursts comes in time. */
  predicate InTime(p: Policy, now: int, k: nat, to: int)
    decreases k
  {
    now <= to && (k == 0 || InTime(p, now + p.window, k - 1, to))
  }

  lemma {:induction false} WindowsAreInTime(p: Policy, now: int, k: nat, to: int)
    requires p.Limits() && now + p.window * k <= to
    ensures InTime(p, now, k, to)
    decreases k
  {
    ProductIsMonotonic(p.window, 0, k);
    if k > 0 {
      OneMore(p.window, k - 1);
      WindowsAreInTime(p, now + p.window, k - 1, to);
    }
  }

  lemma OneBurstIsAccepted(s: State, key: string, p: Policy, now: int, from: int, to: int)
    requires p.Limits() && OnlyKey(s, key, p, now, p.maxRequests) && from <= now <= to
    ensures Accepted(s, Bursts(key, p, now, 0), key, from, to) == p.maxRequests
  {
    var s' := FirstBurst(s, key, p, now, [], from, to);
    assert Bursts(key, p, now, 0) == Burst(key, p, now, p.maxRequests) + [];
  }

  lemma BurstsBegin(key: string, p: Policy, now: int, k: nat)
    requires p.Limits() && k > 0
    ensures Bursts(key, p, now, k) == Burst(key, p, now, p.maxRequests) + Bursts(key, p, now + p.window, k - 1)
  {
  }

  lemma MoreBurstsAreAccepted(s: State, key: string, p: Policy, now: int, k: nat, from: int, to: int) returns (s': State)
    requires p.Limits() && OnlyKey(s, key, p, now, p.maxRequests) && from <= now <= to && k > 0
    ensures OnlyKey(s', key, p, now + p.window, p.maxRequests)
    ensures Accepted(s, Bursts(key, p, now, k), key, from, to)
            == p.maxRequests + Accepted(s', Bursts(key, p, now + p.window, k - 1), key, from, to)
  {
    var rest := Bursts(key, p, now + p.window, k - 1);
    s' := FirstBurst(s, key, p, now, rest, from, to);
    BurstsBegin(key, p, now, k);
  }

  function Times(m: int, n: nat): int {
    if n == 0 then 0 else m + Times(m, n - 1)
  }

  lemma {:induction false} TimesIsProduct(m: int, n: nat)
    ensures Times(m, n) == m * n
  {
    if n > 0 {
      TimesIsProduct(m, n - 1);
      OneMore(m, n - 1);
    }
  }

  lemma {:induction false} BurstsAreAccepted(s: State, key: string, p: Policy, now: int, k: nat, from: int, to: int)
    requires p.Limits() && OnlyKey(s, key, p, now, p.maxRequests) && from <= now && InTime(p, now, k, to)
    ensures Accepted(s, Bursts(key, p, now, k), key, from, to) == Times(p.maxRequests, k + 1)
    decreases k
  {
    if k == 0 {
      OneBurstIsAccepted(s, key, p, now, from, to);
    } else {
      var s' := MoreBurstsAreAccepted(s, key, p, now, k, from, to);
      BurstsAreAccepted(s', key, p, now + p.window, k - 1, from, to);
    }
  }

  lemma NextWindow(s: State, key: string, p: Policy, now: int)
    requires p.Limits() && OnlyKey(s, key, p, now, 0)
    ensures OnlyKey(s, key, p, now + p.window, p.maxRequests)
  {
  }

  lemma {:induction false} BurstsAreInOrder(key: string, p: Policy, now: int, k: nat)
    requires p.Limits()
    ensures InTimeOrder(Bursts(key, p, now, k)) && UnderPolicy(Bursts(key, p, now, k), key, p)
    ensures forall i :: 0 <= i < |Bursts(key, p, now, k)| ==> now <= Bursts(key, p, now, k)[i].now
    decreases k
  {
    if k > 0 {
      BurstsAreInOrder(key, p, now + p.window, k - 1);
    }
  }

  /**
   The worst case for a span of `k` whole windows and a part: one call opens a window before the
   span, the rest of its calls come at its very end, where the span begins, and then come full bursts.
   */
  function LateBursts(key: string, p: Policy, k: nat): seq<Call>
    requires p.Limits()
  {
    [Call(key, p, 0)] + (Burst(key, p, p.window - 1, p.maxRequests - 1) + Bursts(key, p, p.window, k))
  }

  lemma LateBurstsAreInOrder(key: string, p: Policy, k: nat)
    requires p.Limits()
    ensures InTimeOrder(LateBursts(key, p, k)) && UnderPolicy(LateBursts(key, p, k), key, p)
  {
    BurstsAreInOrder(key, p, p.window, k);
  }

  /** The opener comes before the span, the rest of its window inside. */
  lemma LateWindow(key: string, p: Policy, rest: seq<Call>, to: int) returns (s: State)
    requires p.Limits() && 1 < p.window <= to
    ensures OnlyKey(s, key, p, 0, 0)
    ensures var calls := [Call(key, p, 0)] + (Burst(key, p, p.window - 1, p.maxRequests - 1) + rest);
            Accepted(State(map[], 0), calls, key, p.window - 1, to) == p.maxRequests - 1 + Accepted(s, rest, key, p.window - 1, to)
  {
    var c, inside := Call(key, p, 0), Burst(key, p, p.window - 1, p.maxRequests - 1) + rest;
    assert ([c] + inside)[0] == c && ([c] + inside)[1..] == inside;
    BurstStep(State(map[], 0), key, p, 0, p.maxRequests, 0);
    s := BurstIsAccepted(After(State(map[], 0), c), key, p, 0, p.maxRequests - 1, p.window - 1, rest, p.window - 1, to);
  }

  lemma LateBurstsAreAccepted(key: string, p: Policy, k: nat, to: int)
    requires p.Limits() && p.window > 1 && InTime(p, p.window, k, to)
    ensures Accepted(State(map[], 0), LateBursts(key, p, k), key, p.window - 1, to) == Times(p.maxRequests, k + 2) - 1
  {
    var s := LateWindow(key, p, Bursts(key, p, p.window, k), to);
    NextWindow(s, key, p, 0);
    BurstsAreAccepted(s, key, p, p.window, k, p.window - 1, to);
  }

  /** The worst case for a span of length `d`, and where the span begins. */
  function WorstCase(key: string, p: Policy, d: nat): (seq<Call>, int)
    requires p.Limits()
  {
    if d % p.window == 0 then (Bursts(key, p, 0, d / p.window), 0) else (LateBursts(key, p, d / p.window), p.window - 1)
  }

  lemma WholeWindows(key: string, p: Policy, d: nat)
    requires p.Limits() && d % p.window == 0
    ensures Accepted(State(map[], 0), Bursts(key, p, 0, d / p.window), key, 0, d) == p.maxRequests * (d / p.window + 1)
  {
    var k := d / p.window;
    assert p.window * k == d;
    WindowsAreInTime(p, 0, k, d);
    TimesIsProduct(p.maxRequests, k + 1);
    BurstsAreAccepted(State(map[], 0), key, p, 0, k, 0, d);
  }

  lemma PartOfWindow(key: string, p: Policy, d: nat)
    requires p.Limits() && d % p.window != 0
    ensures Accepted(State(map[], 0), LateBursts(key, p, d / p.window), key, p.window - 1, p.window - 1 + d)
            == p.maxRequests * (d / p.window + 2) - 1
  {
    var k := d / p.window;
    assert p.window * k + d % p.window == d && 0 < d % p.window < p.window;
    WindowsAreInTime(p, p.window, k, p.window - 1 + d);
    TimesIsProduct(p.maxRequests, k + 2);
    LateBurstsAreAccepted(key, p, k, p.window - 1 + d);
  }

  /**
   The boundary burst, exactly: for every limit and every length of span a run from the empty
   limiter reaches the sliding-window bound, so no smaller one holds. For one window that is
   2 * maxRequests calls, for any shorter span that has a length one call less.
   */
  lemma BoundIsReached(key: string, p: Policy, d: nat)
    requires p.Limits()
    ensures var (calls, from) := WorstCase(key, p, d);
            && InTimeOrder(calls) && UnderPolicy(calls, key, p)
            && Accepted(State(map[], 0), calls, key, from, from + d) == Most(p, d)
  {
    CeilDivOfRest(d, p.window);
    if d % p.window == 0 {
      BurstsAreInOrder(key, p, 0, d / p.window);
      WholeWindows(key, p, d);
    } else {
      LateBurstsAreInOrder(key, p, d / p.window);
      PartOfWindow(key, p, d);
    }
  }

  // ----- cleanup cannot be noticed

  /** The limiter one would write without cleanup and without a capacity limit. */
  function SimpleAllow(entries: Entries, c: Call): (Entries, Decision) {
    if !c.policy.Limits() then (entries, Decision(true, 0))
    else if c.key !in entries || c.now >= entries[c.key].resetAt then
      (entries[c.key := Entry(1, c.now + c.policy.window)], Decision(true, 0))
    else if entries[c.key].count < c.policy.maxRequests then
      (entries[c.key := Entry(entries[c.key].count + 1, entries[c.key].resetAt)], Decision(true, 0))
    else (entries, Decision(false, entries[c.key].resetAt - c.now))
  }

  function SimpleDecisions(entries: Entries, calls: seq<Call>): seq<Decision>
    decreases |calls|
  {
    if calls == [] then []
    else var (entries', d) := SimpleAllow(entries, calls[0]); [d] + SimpleDecisions(entries', calls[1..])
  }

  /** Call `c` meets a full table that does not know its key, after the sweep if one is due. */
  ghost predicate FindsFull(s: State, c: Call) {
    c.policy.Limits() && Full(Counted(s, c.now).entries, c.key)
  }

  ghost predicate NeverFindsFull(s: State, calls: seq<Call>)
    decreases |calls|
  {
    calls != [] ==> !FindsFull(s, calls[0]) && NeverFindsFull(After(s, calls[0]), calls[1..])
  }

  /** The simple limiter remembers what the real one does, and besides that only expired entries. */
  ghost predicate Remembers(simple: Entries, entries: Entries, now: int) {
    && (forall k :: k in entries ==> k in simple && simple[k] == entries[k])
    && (forall k :: k in simple && k !in entries ==> simple[k].resetAt <= now)
  }

  /** One call: the two limiters differ exactly when the call finds the table full. */
  lemma SameDecisionUnlessFull(s: State, simple: Entries, c: Call, now: int)
    requires Remembers(simple, s.entries, now) && now <= c.now
    ensures FindsFull(s, c) <==> DecisionOf(s, c) != SimpleAllow(simple, c).1
    ensures FindsFull(s, c) <==>
              && c.policy.maxRequests > 0 && c.policy.window > 0
              && c.key !in Counted(s, c.now).entries && |Counted(s, c.now).entries| >= 50_000
    ensures FindsFull(s, c) ==> DecisionOf(s, c) == Decision(false, c.policy.window)
    ensures !FindsFull(s, c) ==> Remembers(SimpleAllow(simple, c).0, After(s, c).entries, c.now)
  {
  }

  /**
   Lazy expiry and the sweep every 256 calls are unobservable: decisions and retry times are those
   of the limiter that never deletes anything if and only if no call finds the table full.
   */
  lemma {:induction false} CleanupIsUnobservable(s: State, simple: Entries, calls: seq<Call>, now: int)
    requires Remembers(simple, s.entries, now) && InTimeOrder(calls) && (calls != [] ==> now <= calls[0].now)
    ensures NeverFindsFull(s, calls) <==> Decisions(s, calls) == SimpleDecisions(simple, calls)
    decreases |calls|
  {
    if calls != [] {
      var c, rest := calls[0], calls[1..];
      SameDecisionUnlessFull(s, simple, c, now);
      assert Decisions(s, calls)[0] == DecisionOf(s, c) && Decisions(s, calls)[1..] == Decisions(After(s, c), rest);
      var (simple', d) := SimpleAllow(simple, c);
      assert SimpleDecisions(simple, calls)[0] == d && SimpleDecisions(simple, calls)[1..] == SimpleDecisions(simple', rest);
      if !FindsFull(s, c) {
        assert InTimeOrder(rest) && (rest != [] ==> c.now <= rest[0].now);
        CleanupIsUnobservable(After(s, c), simple', rest, c.now);
        assert Decisions(s, calls) == [d] + Decisions(After(s, c), rest);
      }
    }
  }

  // ----- what a refused caller is told

  /** The key has used up its window, which ends at `reset`. */
  ghost predicate Exhausted(s: State, key: string, p: Policy, reset: int) {
    key in s.entries && s.entries[key].count >= p.maxRequests && s.entries[key].resetAt == reset
  }

  lemma StaysExhausted(s: State, c: Call, key: string, p: Policy, reset: int)
    requires p.Limits() && Exhausted(s, key, p, reset) && c.now < reset && (c.key == key ==> c.policy == p)
    ensures Exhausted(After(s, c), key, p, reset)
    ensures c.key == key ==> DecisionOf(s, c) == Decision(false, reset - c.now)
  {
  }

  lemma {:induction false} StayExhausted(s: State, calls: seq<Call>, key: string, p: Policy, reset: int)
    requires p.Limits() && Exhausted(s, key, p, reset) && UnderPolicy(calls, key, p)
    requires forall i :: 0 <= i < |calls| ==> calls[i].now < reset
    ensures Exhausted(AfterAll(s, calls), key, p, reset)
    decreases |calls|
  {
    if calls != [] {
      StaysExhausted(s, calls[0], key, p, reset);
      StayExhausted(After(s, calls[0]), calls[1..], key, p, reset);
    }
  }

  /** A known key is refused only when its window is used up, and is told when the window ends. */
  lemma RefusedIsExhausted(s: State, c: Call)
    requires !DecisionOf(s, c).allowed && !FindsFull(s, c)
    ensures c.policy.Limits() && DecisionOf(s, c).retryAfter > 0
    ensures Exhausted(After(s, c), c.key, c.policy, c.now + DecisionOf(s, c).retryAfter)
  {
  }

  /**
   The retry time is exact: whatever calls come in between, a refused caller who comes back is
   let through if and only if the time it was told is over, unless the table is full then.
   */
  lemma RetryAfterIsExact(s: State, c: Call, calls: seq<Call>, now: int)
    requires !DecisionOf(s, c).allowed && !FindsFull(s, c) && UnderPolicy(calls, c.key, c.policy)
    requires forall i :: 0 <= i < |calls| ==> calls[i].now < c.now + DecisionOf(s, c).retryAfter
    ensures var s' := AfterAll(After(s, c), calls); var again := Call(c.key, c.policy, now);
            DecisionOf(s', again).allowed <==> now >= c.now + DecisionOf(s, c).retryAfter && !FindsFull(s', again)
  {
    var reset := c.now + DecisionOf(s, c).retryAfter;
    RefusedIsExhausted(s, c);
    StayExhausted(After(s, c), calls, c.key, c.policy, reset);
    var s' := AfterAll(After(s, c), calls);
    if now < reset {
      StaysExhausted(s', Call(c.key, c.policy, now), c.key, c.policy, reset);
    }
  }

  // ----- the sweep

  /** Every entry runs out later than `time`. */
  ghost predicate RunsOutAfter(s: State, time: int) {
    forall k :: k in s.entries ==> time < s.entries[k].resetAt
  }

  lemma NewEntriesRunOutLater(s: State, c: Call, time: int)
    requires RunsOutAfter(s, time) && time <= c.now
    ensures RunsOutAfter(After(s, c), time)
  {
  }

  lemma {:induction false} SweptStaySwept(s: State, calls: seq<Call>, time: int)
    requires RunsOutAfter(s, time) && forall i :: 0 <= i < |calls| ==> time <= calls[i].now
    ensures RunsOutAfter(AfterAll(s, calls), time)
    decreases |calls|
  {
    if calls != [] {
      NewEntriesRunOutLater(s, calls[0], time);
      SweptStaySwept(After(s, calls[0]), calls[1..], time);
    }
  }

  /** Within 256 limited calls the table is swept: what had run out when they began is gone when they are over. */
  lemma {:induction false} ExpiredAreSwept(s: State, calls: seq<Call>, time: int)
    requires s.calls < 256 && |calls| >= 256 - s.calls && forall i :: 0 <= i < |calls| ==> time <= calls[i].now && calls[i].policy.Limits()
    ensures RunsOutAfter(AfterAll(s, calls), time) && AfterAll(s, calls).calls < 256
    decreases |calls|
  {
    var c, rest := calls[0], calls[1..];
    var s' := After(s, c);
    if s.calls + 1 == 256 {
      assert RunsOutAfter(s', time);
      SweptStaySwept(s', rest, time);
      CounterIsBounded(s', rest);
    } else {
      assert s'.calls == s.calls + 1;
      ExpiredAreSwept(s', rest, time);
    }
  }

  lemma {:induction false} CounterIsBounded(s: State, calls: seq<Call>)
    requires s.calls < 256
    ensures AfterAll(s, calls).calls < 256
    decreases |calls|
  {
    if calls != [] {
      CounterIsBounded(After(s, calls[0]), calls[1..]);
    }
  }
}
