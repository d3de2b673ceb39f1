// How many violations lead to a ban: at least 10 within a minute for every ban, and no more
// than 17 within any minute without one. The window restarts, it does not slide, which is why
// the second number is not 9.
module BanBound {
  import opened Options
  import opened TokenBucket
  import opened IpRateLimiter

  // ---- one address on its own -----------------------------------------------------------------

  // The violation window after recording violations at the times ts, with no cleaner.
  function Window(ts: seq<nat>): Option<Violation> {
    if ts == [] then None else Count(Window(ts[..|ts| - 1]), ts[|ts| - 1]).0
  }

  // Does recording ts[r], after the ones before it, ban?
  predicate BansAt(ts: seq<nat>, r: nat)
    requires r < |ts|
  {
    Count(Window(ts[..r]), ts[r]).1
  }

  ghost predicate Ascending(ts: seq<nat>) {
    forall i, j | 0 <= i <= j < |ts| :: ts[i] <= ts[j]
  }

  lemma WindowStep(ts: seq<nat>, r: nat)
    requires r < |ts|
    ensures Window(ts[..r + 1]) == Count(Window(ts[..r]), ts[r]).0
  {
    assert ts[..r + 1][..r] == ts[..r];
  }

  // An open window counts the last `count` violations, the first of which opened it.
  lemma {:induction false} WindowShape(ts: seq<nat>)
    ensures var v := Window(ts);
            v.Some? ==> 1 <= v.value.count < BAN_VIOLATION_THRESHOLD && v.value.count <= |ts|
                        && v.value.windowStart == ts[|ts| - v.value.count]
  {
    if ts != [] {
      WindowShape(ts[..|ts| - 1]);
    }
  }

  lemma BanNeedsTen(ts: seq<nat>, r: nat)
    requires Ascending(ts) && r < |ts| && BansAt(ts, r)
    ensures r + 1 >= BAN_VIOLATION_THRESHOLD
    ensures forall i | r + 1 - BAN_VIOLATION_THRESHOLD <= i <= r :: ts[r] - BAN_VIOLATION_WINDOW <= ts[i] <= ts[r]
  {
    WindowShape(ts[..r]);
  }

  // A window opened by ts[q] keeps counting while it is open and nothing is banned.
  lemma {:induction false} WindowGrows(ts: seq<nat>, q: nat, r: nat)
    requires q <= r < |ts| && Window(ts[..q + 1]) == Some(Violation(1, ts[q]))
    requires Ascending(ts) && ts[r] - ts[q] <= BAN_VIOLATION_WINDOW
    requires forall i | q < i <= r :: !BansAt(ts, i)
    ensures Window(ts[..r + 1]) == Some(Violation(r - q + 1, ts[q]))
  {
    if q < r {
      WindowGrows(ts, q, r - 1);
      WindowStep(ts, r);
      assert !BansAt(ts, r);
    }
  }

  // Within nine violations without a ban, a new window is opened.
  lemma {:induction false} WindowRestarts(ts: seq<nat>, p: nat, n: nat) returns (q: nat)
    requires p + n < |ts| && n < BAN_VIOLATION_THRESHOLD
    requires forall i | p <= i <= p + n :: !BansAt(ts, i)
    ensures p <= q <= p + n || q == |ts|
    ensures q < |ts| ==> Window(ts[..q + 1]) == Some(Violation(1, ts[q]))
    ensures q == |ts| ==> Window(ts[..p + n + 1]).Some? && Window(ts[..p + n + 1]).value.count >= n + 2
  {
    WindowStep(ts, p + n);
    WindowShape(ts[..p + n]);
    assert !BansAt(ts, p + n);
    if Window(ts[..p + n + 1]) == Some(Violation(1, ts[p + n])) {
      return p + n;
    }
    if n == 0 {
      return |ts|;
    }
    q := WindowRestarts(ts, p, n - 1);
  }

  lemma EighteenBan(ts: seq<nat>, p: nat) returns (r: nat)
    requires Ascending(ts) && p + 17 < |ts| && ts[p + 17] <= ts[p] + BAN_VIOLATION_WINDOW
    ensures p <= r <= p + 17 && BansAt(ts, r)
  {
    if i :| p <= i <= p + 8 && BansAt(ts, i) {
      return i;
    }
    var q := WindowRestarts(ts, p, 8);
    WindowShape(ts[..p + 9]);
    if i :| q < i <= q + 8 && BansAt(ts, i) {
      return i;
    }
    WindowGrows(ts, q, q + 8);
    r := q + 9;
  }

  function Times(n: nat, at: nat): seq<nat> {
    seq(n, _ => at)
  }

  // One violation just before the minute, 8 at its start, 9 at its end.
  const SEVENTEEN: seq<nat> := [0] + Times(8, 1) + Times(9, BAN_VIOLATION_WINDOW + 1)

  lemma {:induction false} CountUp(ts: seq<nat>, q: nat, r: nat)
    requires Ascending(ts) && q <= r < |ts| && r - q + 1 < BAN_VIOLATION_THRESHOLD
    requires Window(ts[..q + 1]) == Some(Violation(1, ts[q])) && ts[r] - ts[q] <= BAN_VIOLATION_WINDOW
    ensures Window(ts[..r + 1]) == Some(Violation(r - q + 1, ts[q]))
    ensures q < r ==> !BansAt(ts, r)
  {
    if q < r {
      CountUp(ts, q, r - 1);
      WindowStep(ts, r);
    }
  }

  // These 17 violations (all but the first) fall in one closed minute.
  lemma SeventeenBanNothing()
    ensures Ascending(SEVENTEEN) && |SEVENTEEN| == 18 && SEVENTEEN[17] == SEVENTEEN[1] + BAN_VIOLATION_WINDOW
    ensures forall r | 0 <= r < |SEVENTEEN| :: !BansAt(SEVENTEEN, r)
  {
    var ts := SEVENTEEN;
    WindowStep(ts, 0);
    CountUp(ts, 0, 8);
    WindowStep(ts, 9);
    forall r | 0 <= r < 18 ensures !BansAt(ts, r) {
      if 0 < r < 9 {
        CountUp(ts, 0, r);
      } else if 9 < r {
        CountUp(ts, 9, r);
      }
    }
  }

  // ---- the whole limiter ------------------------------------------------------------------------

  // Event e makes a refused request of ip record its violation.
  predicate Notes(sys: System, e: Event, ip: string) {
    e.Advance? && e.id in sys.requests && sys.requests[e.id] == Request(ip, Refused)
  }

  predicate Bans(sys: System, e: Event, ip: string) {
    Notes(sys, e, ip) && NoteViolation(sys.lim, ip, e.at).1
  }

  // The times of ip's recorded violations in a run.
  function Records(cfg: Config, log: seq<Event>, ip: string, cleaning: bool): seq<nat> {
    if log == [] then [] else
      var prefix, e := log[..|log| - 1], log[|log| - 1];
      Records(cfg, prefix, ip, cleaning) + if Notes(Run(cfg, prefix, cleaning), e, ip) then [e.at] else []
  }

  lemma {:induction false} RecordsAscend(cfg: Config, log: seq<Event>, ip: string, cleaning: bool)
    requires Monotone(log)
    ensures var ts := Records(cfg, log, ip, cleaning); Ascending(ts) && forall t | t in ts :: t <= Clock(log)
  {
    if log != [] {
      var prefix, e := log[..|log| - 1], log[|log| - 1];
      RecordsAscend(cfg, prefix, ip, cleaning);
      assert Clock(prefix) <= e.at;
      var ts := Records(cfg, prefix, ip, cleaning);
      assert forall i | 0 <= i < |ts| :: ts[i] in ts;
    }
  }

  ghost function Live(v: Option<Violation>, now: nat): Option<Violation> {
    if v.Some? && now - v.value.windowStart <= BAN_VIOLATION_WINDOW then v else None
  }

  lemma StepWindow(cfg: Config, sys: System, e: Event, ip: string, cleaning: bool)
    ensures LiveWindow(Step(cfg, sys, e, cleaning).lim, ip, e.at) ==
            if Notes(sys, e, ip) then Live(Count(LiveWindow(sys.lim, ip, e.at), e.at).0, e.at)
            else LiveWindow(sys.lim, ip, e.at)
  {
    if Notes(sys, e, ip) {
      assert Count(if ip in sys.lim.violations then Some(sys.lim.violations[ip]) else None, e.at)
          == Count(LiveWindow(sys.lim, ip, e.at), e.at);
    }
  }

  // Neither the cleaner nor other addresses matter to ip's window.
  lemma {:induction false} WindowOfRun(cfg: Config, log: seq<Event>, ip: string, cleaning: bool)
    requires Monotone(log)
    ensures LiveWindow(Run(cfg, log, cleaning).lim, ip, Clock(log)) ==
            Live(Window(Records(cfg, log, ip, cleaning)), Clock(log))
  {
    if log != [] {
      var prefix, e := log[..|log| - 1], log[|log| - 1];
      WindowOfRun(cfg, prefix, ip, cleaning);
      assert Clock(prefix) <= e.at;
      var sys, ts := Run(cfg, prefix, cleaning), Records(cfg, prefix, ip, cleaning);
      WindowLater(sys.lim, ip, Window(ts), Clock(prefix), e.at);
      StepWindow(cfg, sys, e, ip, cleaning);
      assert (ts + [e.at])[..|ts|] == ts && ts + [] == ts;
      assert Count(Live(Window(ts), e.at), e.at) == Count(Window(ts), e.at);
      assert Window(ts + [e.at]) == Count(Window(ts), e.at).0;
    }
  }

  lemma WindowLater(s: State, ip: string, v: Option<Violation>, now: nat, later: nat)
    requires LiveWindow(s, ip, now) == Live(v, now) && now <= later
    ensures LiveWindow(s, ip, later) == Live(v, later)
  {
    if ip in s.violations && later - s.violations[ip].windowStart <= BAN_VIOLATION_WINDOW {
      assert LiveWindow(s, ip, now) == Some(s.violations[ip]);
    }
  }

  lemma BanOfRun(cfg: Config, log: seq<Event>, ip: string, cleaning: bool, n: nat)
    requires Monotone(log) && n < |log| && Notes(Run(cfg, log[..n], cleaning), log[n], ip)
    ensures var ts := Records(cfg, log[..n + 1], ip, cleaning);
            ts != [] && ts[|ts| - 1] == log[n].at
            && (Bans(Run(cfg, log[..n], cleaning), log[n], ip) <==> BansAt(ts, |ts| - 1))
  {
    assert log[..n + 1][..n] == log[..n];
    WindowOfRun(cfg, log[..n], ip, cleaning);
    var ts := Records(cfg, log[..n], ip, cleaning);
    assert (ts + [log[n].at])[..|ts|] == ts;
  }

  lemma {:induction false} RecordsOfPrefix(cfg: Config, log: seq<Event>, ip: string, cleaning: bool, r: nat) returns (n: nat)
    requires r < |Records(cfg, log, ip, cleaning)|
    ensures n < |log| && Notes(Run(cfg, log[..n], cleaning), log[n], ip)
    ensures Records(cfg, log[..n + 1], ip, cleaning) == Records(cfg, log, ip, cleaning)[..r + 1]
  {
    var prefix := log[..|log| - 1];
    if r < |Records(cfg, prefix, ip, cleaning)| {
      n := RecordsOfPrefix(cfg, prefix, ip, cleaning, r);
      assert log[..n] == prefix[..n] && log[..n + 1] == prefix[..n + 1];
    } else {
      n := |log| - 1;
      assert log[..n + 1] == log;
    }
  }

  // Every ban of ip has 10 of its violations in the minute that ends with the ban.
  lemma EveryBanHasTenViolations(cfg: Config, log: seq<Event>, ip: string, cleaning: bool, n: nat)
    requires Monotone(log) && n < |log| && Bans(Run(cfg, log[..n], cleaning), log[n], ip)
    ensures var ts := Records(cfg, log[..n + 1], ip, cleaning);
            |ts| >= BAN_VIOLATION_THRESHOLD &&
            forall i | |ts| - BAN_VIOLATION_THRESHOLD <= i < |ts| ::
              log[n].at - BAN_VIOLATION_WINDOW <= ts[i] <= log[n].at
  {
    BanOfRun(cfg, log, ip, cleaning, n);
    RecordsAscend(cfg, log[..n + 1], ip, cleaning);
    var ts := Records(cfg, log[..n + 1], ip, cleaning);
    BanNeedsTen(ts, |ts| - 1);
  }

  // 18 violations of ip within a closed minute: one of them bans it.
  lemma EighteenViolationsBan(cfg: Config, log: seq<Event>, ip: string, cleaning: bool, p: nat) returns (n: nat)
    requires Monotone(log)
    requires var ts := Records(cfg, log, ip, cleaning);
             p + 17 < |ts| && ts[p + 17] <= ts[p] + BAN_VIOLATION_WINDOW
    ensures n < |log| && Bans(Run(cfg, log[..n], cleaning), log[n], ip)
    ensures var ts := Records(cfg, log, ip, cleaning); ts[p] <= log[n].at <= ts[p] + BAN_VIOLATION_WINDOW
  {
    var ts := Records(cfg, log, ip, cleaning);
    RecordsAscend(cfg, log, ip, cleaning);
    var r := EighteenBan(ts, p);
    n := RecordsOfPrefix(cfg, log, ip, cleaning, r);
    BanOfRun(cfg, log, ip, cleaning, n);
    assert ts[..r + 1][..r] == ts[..r];
    assert log[n].at == ts[r] && ts[p] <= ts[r] <= ts[p + 17];
  }

  lemma BanSurvives(cfg: Config, sys: System, e: Event, ip: string, since: nat, cleaning: bool)
    requires ip in sys.lim.bans && sys.lim.bans[ip] >= since + BAN_DURATION && since <= e.at <= since + BAN_DURATION
    ensures var lim := Step(cfg, sys, e, cleaning).lim; ip in lim.bans && lim.bans[ip] >= since + BAN_DURATION
  {
  }

  lemma Snoc(log: seq<Event>, more: seq<Event>)
    requires log != [] && more != [] && Monotone(log + more)
    ensures log + more == (log + more[..|more| - 1]) + [more[|more| - 1]]
    ensures (log + more)[..|log + more| - 1] == log + more[..|more| - 1]
    ensures Monotone(log + more[..|more| - 1]) && Clock(log) <= more[|more| - 1].at
  {
    var whole, fewer := log + more, log + more[..|more| - 1];
    assert whole == fewer + [more[|more| - 1]];
    assert forall i | 0 <= i < |fewer| :: fewer[i] == whole[i];
    assert whole[|log| - 1] == log[|log| - 1] && whole[|whole| - 1] == more[|more| - 1];
  }

  // A banned address is turned away until its ban is over, cleaner or not.
  lemma {:induction false} BanHolds(cfg: Config, log: seq<Event>, more: seq<Event>, ip: string, cleaning: bool)
    requires log != [] && Monotone(log + more)
    requires Bans(Run(cfg, log[..|log| - 1], cleaning), log[|log| - 1], ip)
    requires forall e | e in more :: e.at <= Clock(log) + BAN_DURATION
    ensures var lim := Run(cfg, log + more, cleaning).lim;
            && ip in lim.bans && lim.bans[ip] >= Clock(log) + BAN_DURATION
            && forall t: nat | t <= Clock(log) + BAN_DURATION :: BanCheck(lim, ip, t).1
  {
    if more == [] {
      assert log + more == log;
    } else {
      var fewer, last := more[..|more| - 1], more[|more| - 1];
      Snoc(log, more);
      BanHolds(cfg, log, fewer, ip, cleaning);
      assert last in more;
      BanSurvives(cfg, Run(cfg, log + fewer, cleaning), last, ip, Clock(log), cleaning);
    }
  }
}
