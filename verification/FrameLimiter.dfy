// The frame rate limiter of one connection: a counter restarted when a second has passed.
module FrameLimiter {

  const SECOND: nat := 1_000_000_000

  datatype Window = Window(max: nat, count: nat, start: nat)

  function Current(w: Window, now: nat): Window {
    if now - w.start >= SECOND then Window(w.max, 0, now) else w
  }

  predicate Admits(w: Window, now: nat) {
    Current(w, now).count < w.max
  }

  function After(w: Window, now: nat): Window {
    var c := Current(w, now);
    if c.count < c.max then c.(count := c.count + 1) else c
  }

  class FrameRateLimiter {
    const max: nat
    var count: nat
    var windowStart: nat

    constructor (max: nat, now: nat)
      ensures State() == Window(max, 0, now)
    {
      this.max, count, windowStart := max, 0, now;
    }

    function State(): Window
      reads this
    {
      Window(max, count, windowStart)
    }

    method Allow(now: nat) returns (ok: bool)
      modifies this
      ensures ok == Admits(old(State()), now) && State() == After(old(State()), now)
      ensures ok <==> (if now >= old(windowStart) + 1_000_000_000 then 0 else old(count)) < max
      ensures windowStart == if now >= old(windowStart) + 1_000_000_000 then now else old(windowStart)
      ensures count == (if windowStart == old(windowStart) then old(count) else 0) + if ok then 1 else 0
    {
      if now - windowStart >= SECOND {
        count, windowStart := 0, now;
      }
      if count >= max {
        return false;
      }
      count := count + 1;
      return true;
    }
  }

  // ---- runs -------------------------------------------------------------------------------------------------

  datatype Trace = Trace(window: Window, admitted: seq<nat>)

  // The trace after one more frame.
  function Next(before: Trace, now: nat): Trace {
    Trace(After(before.window, now), if Admits(before.window, now) then before.admitted + [now] else before.admitted)
  }

  // The frames arriving at the given times on a fresh limiter.
  function Run(max: nat, start: nat, times: seq<nat>): Trace {
    if times == [] then Trace(Window(max, 0, start), []) else
      Next(Run(max, start, times[..|times| - 1]), times[|times| - 1])
  }

  ghost predicate Ordered(start: nat, times: seq<nat>) {
    && (forall i | 0 <= i < |times| :: start <= times[i])
    && (forall i, j | 0 <= i <= j < |times| :: times[i] <= times[j])
  }

  // How many of the times lie in the half-open span.
  function Within(times: seq<nat>, from: nat, end: nat): nat {
    if times == [] then 0 else
      Within(times[..|times| - 1], from, end) + if from <= times[|times| - 1] < end then 1 else 0
  }

  // How many windows can have touched the span before the one that starts at w.
  function Earlier(w: nat, from: nat): nat {
    if w < from then 0 else (w - from) / SECOND + 1
  }

  lemma EarlierGrows(w: nat, later: nat, from: nat)
    requires later - w >= SECOND && later >= from
    ensures Earlier(later, from) >= Earlier(w, from) + 1
  {
  }

  lemma EarlierBound(w: nat, from: nat, n: nat)
    requires w < from + n * SECOND
    ensures Earlier(w, from) <= n
  {
  }

  // Frames admitted in the span: what the earlier windows may owe, and the present one's count.
  ghost predicate Paid(t: Trace, from: nat, end: nat, owed: nat, cap: nat) {
    && t.window.count <= t.window.max
    && Within(t.admitted, from, end) <= cap
    && (t.window.start < end ==> Within(t.admitted, from, end) <= owed + t.window.count)
  }

  lemma OneMore(times: seq<nat>, now: nat, from: nat, end: nat)
    ensures Within(times + [now], from, end) == Within(times, from, end) + if from <= now < end then 1 else 0
  {
    assert (times + [now])[..|times|] == times;
  }

  // The frame falls into the present window.
  lemma SameWindow(before: Trace, now: nat, from: nat, end: nat, owed: nat, cap: nat)
    requires Paid(before, from, end, owed, cap) && before.window.start <= now < before.window.start + SECOND
    requires before.window.start < end ==> owed + before.window.max <= cap
    ensures Paid(Next(before, now), from, end, owed, cap)
  {
    OneMore(before.admitted, now, from, end);
  }

  // The frame opens a window; what the one before held is owed from now on.
  lemma NewWindow(before: Trace, now: nat, from: nat, end: nat, owed: nat, owedNow: nat, cap: nat)
    requires Paid(before, from, end, owed, cap) && before.window.start + SECOND <= now
    requires now < from ==> Within(before.admitted, from, end) == 0
    requires now < end ==> owedNow + before.window.max <= cap && (now >= from ==> owed + before.window.max <= owedNow)
    ensures Paid(Next(before, now), from, end, owedNow, cap)
  {
    OneMore(before.admitted, now, from, end);
  }

  lemma Product(a: nat, b: nat, max: nat)
    requires a + 1 <= b
    ensures a * max + max <= b * max
  {
    assert (a + 1) * max <= b * max;
  }

  lemma {:induction false} NoneYet(times: seq<nat>, from: nat, end: nat)
    requires forall x | x in times :: x < from
    ensures Within(times, from, end) == 0
  {
    if times != [] {
      var prefix := times[..|times| - 1];
      assert times[|times| - 1] in times;
      forall x | x in prefix ensures x < from {
        assert x in times;
      }
      NoneYet(prefix, from, end);
    }
  }

  lemma Owing(w: nat, from: nat, n: nat, max: nat)
    ensures w < from + n * SECOND ==> Earlier(w, from) * max + max <= (n + 1) * max
  {
    if w < from + n * SECOND {
      EarlierBound(w, from, n);
      Product(Earlier(w, from), n + 1, max);
    }
  }

  lemma OwingMore(w: nat, now: nat, from: nat, max: nat)
    requires now - w >= SECOND && now >= from
    ensures Earlier(w, from) * max + max <= Earlier(now, from) * max
  {
    EarlierGrows(w, now, from);
    Product(Earlier(w, from), Earlier(now, from), max);
  }

  // What the windows before the one that starts at w owe, and the most that can be owed in all.
  ghost function Owed(w: nat, from: nat, max: nat): nat {
    Earlier(w, from) * max
  }

  ghost function Cap(n: nat, max: nat): nat {
    (n + 1) * max
  }

  ghost predicate PaidAll(t: Trace, from: nat, n: nat) {
    Paid(t, from, from + n * SECOND, Owed(t.window.start, from, t.window.max), Cap(n, t.window.max))
  }

  lemma SameStart(before: Trace, now: nat, from: nat, n: nat)
    requires PaidAll(before, from, n) && before.window.start <= now < before.window.start + SECOND
    ensures PaidAll(Next(before, now), from, n)
  {
    var w, max := before.window.start, before.window.max;
    Owing(w, from, n, max);
    SameWindow(before, now, from, from + n * SECOND, Owed(w, from, max), Cap(n, max));
  }

  lemma NewStart(before: Trace, now: nat, from: nat, n: nat)
    requires PaidAll(before, from, n) && before.window.start + SECOND <= now && forall x | x in before.admitted :: x <= now
    ensures PaidAll(Next(before, now), from, n)
  {
    var w, max, end := before.window.start, before.window.max, from + n * SECOND;
    Owing(now, from, n, max);
    if now < from {
      NoneYet(before.admitted, from, end);
    } else {
      OwingMore(w, now, from, max);
    }
    NewWindow(before, now, from, end, Owed(w, from, max), Owed(now, from, max), Cap(n, max));
  }

  lemma {:induction false} RunPays(max: nat, start: nat, times: seq<nat>, from: nat, n: nat)
    requires Ordered(start, times)
    ensures var t := Run(max, start, times);
            && t.window.max == max
            && PaidAll(t, from, n)
            && (forall x | x in t.admitted :: x in times)
            && (t.window.start == start || t.window.start in times)
  {
    if times != [] {
      var prefix, now := times[..|times| - 1], times[|times| - 1];
      RunPays(max, start, prefix, from, n);
      var before := Run(max, start, prefix);
      assert forall x | x in prefix :: x in times && x <= now;
      if now - before.window.start < SECOND {
        SameStart(before, now, from, n);
      } else {
        NewStart(before, now, from, n);
      }
    }
  }

  // Whenever the frames come, no half-open span of n seconds has more than (n + 1) * max of
  // them admitted.
  lemma SpanBound(max: nat, start: nat, times: seq<nat>, from: nat, n: nat)
    requires Ordered(start, times)
    ensures Within(Run(max, start, times).admitted, from, from + n * SECOND) <= (n + 1) * max
  {
    RunPays(max, start, times, from, n);
  }

  // ---- who is turned away -------------------------------------------------------------------------------------

  // The counter is that of the frames admitted since its window was opened.
  ghost predicate Counts(t: Trace, end: nat) {
    && t.window.count == Within(t.admitted, t.window.start, end)
    && forall x | x in t.admitted :: x < t.window.start + SECOND
  }

  lemma CountsNext(before: Trace, now: nat, end: nat)
    requires Counts(before, end) && before.window.start <= now < end
    ensures Counts(Next(before, now), end)
  {
    OneMore(before.admitted, now, Next(before, now).window.start, end);
    if now - before.window.start >= SECOND {
      NoneYet(before.admitted, now, end);
    }
  }

  lemma {:induction false} RunCounts(max: nat, start: nat, times: seq<nat>, end: nat)
    requires Ordered(start, times) && forall x | x in times :: x < end
    ensures Counts(Run(max, start, times), end)
  {
    if times != [] {
      var prefix, now := times[..|times| - 1], times[|times| - 1];
      assert now in times && forall x | x in prefix :: x in times && x <= now;
      RunCounts(max, start, prefix, end);
      RunPays(max, start, prefix, 0, 0);
      CountsNext(Run(max, start, prefix), now, end);
    }
  }

  lemma OrderedBefore(start: nat, times: seq<nat>, now: nat)
    requires Ordered(start, times + [now])
    ensures Ordered(start, times) && start <= now && forall x | x in times :: x <= now
  {
    var all := times + [now];
    assert all[|times|] == now;
    forall i | 0 <= i < |times| ensures start <= times[i] <= now {
      assert all[i] == times[i];
    }
    forall i, j | 0 <= i <= j < |times| ensures times[i] <= times[j] {
      assert all[i] == times[i] && all[j] == times[j];
    }
  }

  // A frame is turned away only when max frames have been admitted within the second before it.
  lemma TurnedAwayIsFull(max: nat, start: nat, times: seq<nat>, now: nat)
    requires max > 0 && Ordered(start, times + [now]) && !Admits(Run(max, start, times).window, now)
    ensures var t := Run(max, start, times);
            t.window.start <= now < t.window.start + 1_000_000_000 && Within(t.admitted, t.window.start, now + 1) >= max
  {
    OrderedBefore(start, times, now);
    RunCounts(max, start, times, now + 1);
    RunPays(max, start, times, 0, 0);
  }

  // ---- the bound is attained ----------------------------------------------------------------------------------

  function Copies(at: nat, k: nat): seq<nat> {
    seq(k, i => at)
  }

  // A burst at the end of the first window, and one at the start of each of the next n.
  function Bursts(max: nat, n: nat): seq<nat> {
    if n == 0 then Copies(SECOND - 1, max) else Bursts(max, n - 1) + Copies(n * SECOND, max)
  }

  lemma RunOneMore(max: nat, start: nat, times: seq<nat>, now: nat)
    ensures Run(max, start, times + [now]) == Next(Run(max, start, times), now)
  {
    assert (times + [now])[..|times|] == times;
  }

  lemma {:induction false} BurstAdmitted(max: nat, times: seq<nat>, at: nat, k: nat)
    requires 1 <= k <= max && Run(max, 0, times).window.max == max && Current(Run(max, 0, times).window, at).count == 0
    ensures Run(max, 0, times + Copies(at, k)) ==
            Trace(Window(max, k, Current(Run(max, 0, times).window, at).start), Run(max, 0, times).admitted + Copies(at, k))
  {
    if k == 1 {
      assert Copies(at, k) == [at];
      RunOneMore(max, 0, times, at);
    } else {
      BurstAdmitted(max, times, at, k - 1);
      assert times + Copies(at, k) == (times + Copies(at, k - 1)) + [at];
      RunOneMore(max, 0, times + Copies(at, k - 1), at);
      assert Run(max, 0, times).admitted + Copies(at, k) == (Run(max, 0, times).admitted + Copies(at, k - 1)) + [at];
    }
  }

  lemma {:induction false} AllBurstsAdmitted(max: nat, n: nat)
    requires max >= 1
    ensures Run(max, 0, Bursts(max, n)) == Trace(Window(max, max, n * SECOND), Bursts(max, n))
  {
    if n == 0 {
      BurstAdmitted(max, [], SECOND - 1, max);
      assert [] + Copies(SECOND - 1, max) == Copies(SECOND - 1, max);
    } else {
      AllBurstsAdmitted(max, n - 1);
      BurstAdmitted(max, Bursts(max, n - 1), n * SECOND, max);
    }
  }

  lemma {:induction false} WithinBurst(times: seq<nat>, at: nat, k: nat, from: nat, end: nat)
    requires from <= at < end
    ensures Within(times + Copies(at, k), from, end) == Within(times, from, end) + k
  {
    if k == 0 {
      assert times + Copies(at, 0) == times;
    } else {
      WithinBurst(times, at, k - 1, from, end);
      assert times + Copies(at, k) == (times + Copies(at, k - 1)) + [at];
      OneMore(times + Copies(at, k - 1), at, from, end);
    }
  }

  lemma {:induction false} BurstsOrdered(max: nat, n: nat)
    ensures Ordered(0, Bursts(max, n)) && forall i | 0 <= i < |Bursts(max, n)| :: Bursts(max, n)[i] < (n + 1) * SECOND
  {
    if n > 0 {
      BurstsOrdered(max, n - 1);
    }
  }

  lemma {:induction false} BurstsWithin(max: nat, n: nat, end: nat)
    requires end >= SECOND && n * SECOND < end
    ensures Within(Bursts(max, n), SECOND - 1, end) == |Bursts(max, n)|
  {
    if n == 0 {
      WithinBurst([], SECOND - 1, max, SECOND - 1, end);
      assert [] + Copies(SECOND - 1, max) == Copies(SECOND - 1, max);
    } else {
      BurstsWithin(max, n - 1, end);
      WithinBurst(Bursts(max, n - 1), n * SECOND, max, SECOND - 1, end);
    }
  }

  lemma {:induction false} BurstsLength(max: nat, n: nat)
    ensures |Bursts(max, n)| == (n + 1) * max
  {
    if n > 0 {
      BurstsLength(max, n - 1);
      assert (n + 1) * max == n * max + max;
    }
  }

  // For every n >= 1 some arrivals attain the bound.
  lemma SpanBoundIsSharp(max: nat, n: nat)
    requires max >= 1 && n >= 1
    ensures Ordered(0, Bursts(max, n))
    ensures Within(Run(max, 0, Bursts(max, n)).admitted, SECOND - 1, SECOND - 1 + n * SECOND) == (n + 1) * max
  {
    BurstsOrdered(max, n);
    AllBurstsAdmitted(max, n);
    BurstsWithin(max, n, SECOND - 1 + n * SECOND);
    BurstsLength(max, n);
  }
}
