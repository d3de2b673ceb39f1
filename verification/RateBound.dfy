// What the user limiter lets through: a bound on every stretch of every run, and a wait that is
// always long enough.
module RateBound {
  import opened TokenBucket
  import opened UserRateLimiter

  // Event e is a request of the user that passes.
  predicate LetsThrough(cfg: Config, s: State, e: Event, user: string) {
    e.Ask? && e.user == user && Decide(cfg, s.limiters, user, e.at).1
  }

  // How many requests of the user pass during span, in a run that starts with before.
  function Passes(cfg: Config, expiry: nat, before: seq<Event>, span: seq<Event>, user: string, cleaning: bool): nat {
    if span == [] then 0 else
      var fewer, e := span[..|span| - 1], span[|span| - 1];
      Passes(cfg, expiry, before, fewer, user, cleaning)
      + if LetsThrough(cfg, Run(cfg, expiry, before + fewer, cleaning), e, user) then 1 else 0
  }

  // The credit spent on the requests that pass: one interval each.
  function Spent(cfg: Config, expiry: nat, before: seq<Event>, span: seq<Event>, user: string, cleaning: bool): nat {
    if span == [] then 0 else
      var fewer, e := span[..|span| - 1], span[|span| - 1];
      Spent(cfg, expiry, before, fewer, user, cleaning)
      + if LetsThrough(cfg, Run(cfg, expiry, before + fewer, cleaning), e, user) then cfg.interval else 0
  }

  lemma {:induction false} SpentIsPasses(cfg: Config, expiry: nat, before: seq<Event>, span: seq<Event>, user: string, cleaning: bool)
    ensures Spent(cfg, expiry, before, span, user, cleaning) == cfg.interval * Passes(cfg, expiry, before, span, user, cleaning)
  {
    if span != [] {
      SpentIsPasses(cfg, expiry, before, span[..|span| - 1], user, cleaning);
      Distribute(cfg.interval, Passes(cfg, expiry, before, span[..|span| - 1], user, cleaning));
    }
  }

  lemma Distribute(interval: nat, n: nat)
    ensures interval * (n + 1) == interval * n + interval
  {
  }

  lemma CreditGrows(cfg: Config, b: Bucket, now: nat, later: nat)
    requires now <= later
    ensures Credit(cfg, b, later) <= Credit(cfg, b, now) + (later - now)
  {
  }

  // One event: a pass costs the interval, anything else costs at most nothing.
  lemma EventCost(cfg: Config, expiry: nat, s: State, e: Event, user: string, now: nat, cleaning: bool)
    requires Sane(s.limiters, now) && now <= e.at && user != "" && (cleaning ==> cfg.Cap() <= expiry + 1)
    ensures CreditOf(cfg, Step(cfg, expiry, s, e, cleaning).limiters, user, e.at)
            + (if LetsThrough(cfg, s, e, user) then cfg.interval else 0)
            <= CreditOf(cfg, s.limiters, user, now) + (e.at - now)
  {
    CreditGrows(cfg, EntryOf(cfg, s.limiters, user).bucket, now, e.at);
    if e.Clean? && cleaning {
      SweepSame(cfg, s.limiters, e.at, expiry);
    }
  }

  lemma {:induction false} RunIsSane(cfg: Config, expiry: nat, log: seq<Event>, cleaning: bool)
    requires Monotone(log)
    ensures Sane(Run(cfg, expiry, log, cleaning).limiters, Clock(log))
  {
    if log != [] {
      RunIsSane(cfg, expiry, log[..|log| - 1], cleaning);
      assert Clock(log[..|log| - 1]) <= Clock(log);
    }
  }

  lemma Snoc(before: seq<Event>, span: seq<Event>)
    requires span != [] && Monotone(before + span)
    ensures (before + span)[..|before + span| - 1] == before + span[..|span| - 1]
    ensures (before + span)[|before + span| - 1] == span[|span| - 1]
    ensures Monotone(before + span[..|span| - 1])
    ensures |span| > 1 ==> span[|span| - 2].at <= span[|span| - 1].at && Clock(before + span[..|span| - 1]) == span[|span| - 2].at
    ensures |span| == 1 ==> before + span[..|span| - 1] == before && Clock(before) <= span[0].at
  {
    var whole := before + span;
    assert before + span[..|span| - 1] == whole[..|whole| - 1];
    assert |span| > 1 ==> whole[|whole| - 2] == span[|span| - 2];
    assert before != [] ==> whole[|before| - 1] == before[|before| - 1];
    assert whole[|whole| - 1] == span[|span| - 1];
  }

  // What passes is paid from the credit at the start of the span and the time gone by since.
  lemma {:induction false} PassesArePaid(cfg: Config, expiry: nat, before: seq<Event>, span: seq<Event>, user: string, cleaning: bool)
    requires Monotone(before + span) && span != [] && user != "" && (cleaning ==> cfg.Cap() <= expiry + 1)
    ensures Spent(cfg, expiry, before, span, user, cleaning)
            + CreditOf(cfg, Run(cfg, expiry, before + span, cleaning).limiters, user, Clock(span))
            <= cfg.Cap() + (Clock(span) - span[0].at)
  {
    var fewer, e := span[..|span| - 1], span[|span| - 1];
    var s := Run(cfg, expiry, before + fewer, cleaning);
    Snoc(before, span);
    RunIsSane(cfg, expiry, before + fewer, cleaning);
    if |span| == 1 {
      RunIsSane(cfg, expiry, before, cleaning);
      assert Sane(s.limiters, e.at);
      EventCost(cfg, expiry, s, e, user, e.at, cleaning);
    } else {
      PassesArePaid(cfg, expiry, before, fewer, user, cleaning);
      EventCost(cfg, expiry, s, e, user, Clock(fewer), cleaning);
    }
  }

  // In any stretch of any run, a user gets the burst and one more for every interval gone by.
  lemma RateIsBounded(cfg: Config, expiry: nat, before: seq<Event>, span: seq<Event>, user: string, cleaning: bool)
    requires Monotone(before + span) && span != [] && user != "" && (cleaning ==> cfg.Cap() <= expiry + 1)
    ensures cfg.interval * Passes(cfg, expiry, before, span, user, cleaning)
            <= cfg.interval * cfg.burst + (Clock(span) - span[0].at)
  {
    PassesArePaid(cfg, expiry, before, span, user, cleaning);
    SpentIsPasses(cfg, expiry, before, span, user, cleaning);
  }

  lemma {:induction false} LastSeenIsAnAsk(cfg: Config, expiry: nat, log: seq<Event>, user: string, cleaning: bool)
    requires user in Run(cfg, expiry, log, cleaning).limiters
    ensures Ask(user, Run(cfg, expiry, log, cleaning).limiters[user].lastSeen) in log
  {
    var prefix, e := log[..|log| - 1], log[|log| - 1];
    assert e in log && forall x | x in prefix :: x in log;
    if user in Run(cfg, expiry, prefix, cleaning).limiters {
      LastSeenIsAnAsk(cfg, expiry, prefix, user, cleaning);
    }
  }

  // A bucket that is full, or has waited one interval, has a token.
  lemma OneToken(cfg: Config, b: Bucket, now: nat)
    requires cfg.burst >= 1 && (b.level == cfg.Cap() || b.last + cfg.interval <= now)
    ensures Allow(cfg, b, now).1
  {
    AtLeastOne(cfg.interval, cfg.burst);
  }

  lemma AtLeastOne(interval: nat, burst: nat)
    requires burst >= 1
    ensures interval * burst >= interval
  {
  }

  // Nobody who has been silent for one interval is refused.
  lemma WaitingHelps(cfg: Config, expiry: nat, log: seq<Event>, user: string, now: nat, cleaning: bool)
    requires Monotone(log) && Clock(log) <= now && cfg.burst >= 1
    requires forall at: nat | Ask(user, at) in log :: at + cfg.interval <= now
    ensures Decide(cfg, Run(cfg, expiry, log, cleaning).limiters, user, now).1
  {
    var m := Run(cfg, expiry, log, cleaning).limiters;
    RunIsSane(cfg, expiry, log, cleaning);
    if user in m {
      LastSeenIsAnAsk(cfg, expiry, log, user, cleaning);
    }
    OneToken(cfg, EntryOf(cfg, m, user).bucket, now);
  }
}
