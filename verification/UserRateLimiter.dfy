// The per-user message limiter: one bucket per user id, with a cleaner.
module UserRateLimiter {
  import opened TokenBucket

  const USER_MESSAGES_PER_MINUTE: nat := 30
  const USER_LIMITER_BURST: nat := 5
  const USER_LIMITER_EXPIRY: nat := 600_000_000_000
  const MINUTE: nat := 60_000_000_000

  class UserRateLimiter {
    const cfg: Config
    var limiters: Table

    constructor (perMin: nat, burst: nat)
      requires perMin > 0
      ensures limiters == map[]
      ensures cfg == Config(MINUTE / perMin, burst)
    {
      cfg := Config(MINUTE / perMin, burst);
      limiters := map[];
    }

    method Allow(userID: string, now: nat) returns (ok: bool)
      modifies this`limiters
      ensures (limiters, ok) == Decide(cfg, old(limiters), userID, now)
      ensures userID == "" ==> ok && limiters == old(limiters)
      ensures userID != "" ==> limiters.Keys == old(limiters.Keys) + {userID} && limiters[userID].lastSeen == now
      ensures forall k | k in old(limiters) && k != userID :: k in limiters && limiters[k] == old(limiters)[k]
    {
      if userID == "" {
        return true;
      }
      var e := EntryOf(cfg, limiters, userID);
      var (b, allowed) := TokenBucket.Allow(cfg, e.bucket, now);
      limiters := limiters[userID := Entry(b, now)];
      ok := allowed;
    }

    method Cleanup(now: nat)
      modifies this`limiters
      ensures limiters == Sweep(old(limiters), now, USER_LIMITER_EXPIRY)
      ensures forall k :: k in limiters <==> k in old(limiters) && now <= old(limiters)[k].lastSeen + 600_000_000_000
      ensures forall k | k in limiters :: limiters[k] == old(limiters)[k]
    {
      limiters := EvictIdle(limiters, now, USER_LIMITER_EXPIRY);
    }
  }

  // ---- runs ------------------------------------------------------------------------------

  datatype Event = Ask(user: string, at: nat) | Clean(at: nat)

  datatype State = State(limiters: Table, outcomes: seq<bool>)

  // Requests without a user id always pass.
  function Decide(cfg: Config, m: Table, user: string, at: nat): (Table, bool) {
    if user == "" then (m, true) else Take(cfg, m, user, at)
  }

  // With cleaning == false the cleaner never does anything.
  function Step(cfg: Config, expiry: nat, s: State, e: Event, cleaning: bool): State {
    match e
    case Ask(user, at) =>
      var (m, ok) := Decide(cfg, s.limiters, user, at);
      State(m, s.outcomes + [ok])
    case Clean(at) =>
      if cleaning then s.(limiters := Sweep(s.limiters, at, expiry)) else s
  }

  function Run(cfg: Config, expiry: nat, log: seq<Event>, cleaning: bool): State {
    if log == [] then State(map[], [])
    else Step(cfg, expiry, Run(cfg, expiry, log[..|log| - 1], cleaning), log[|log| - 1], cleaning)
  }

  ghost predicate Monotone(log: seq<Event>) {
    forall i, j | 0 <= i < j < |log| :: log[i].at <= log[j].at
  }

  ghost function Clock(log: seq<Event>): nat {
    if log == [] then 0 else log[|log| - 1].at
  }

  lemma {:induction false} CleanedRunsAgree(cfg: Config, expiry: nat, log: seq<Event>)
    requires Monotone(log) && cfg.Cap() <= expiry + 1
    ensures var c, u := Run(cfg, expiry, log, true), Run(cfg, expiry, log, false);
            && c.outcomes == u.outcomes
            && Sane(c.limiters, Clock(log)) && Sane(u.limiters, Clock(log))
            && SameCredit(cfg, c.limiters, u.limiters, Clock(log))
  {
    if log != [] {
      var prefix, e := log[..|log| - 1], log[|log| - 1];
      CleanedRunsAgree(cfg, expiry, prefix);
      var c, u := Run(cfg, expiry, prefix, true).limiters, Run(cfg, expiry, prefix, false).limiters;
      assert Clock(prefix) <= e.at;
      SameCreditLater(cfg, c, u, Clock(prefix), e.at);
      match e
      case Ask(user, at) =>
        if user != "" { TakeSame(cfg, c, u, user, at); }
      case Clean(at) =>
        SweepSame(cfg, c, at, expiry);
        SameCreditTrans(cfg, Sweep(c, at, expiry), c, u, at);
    }
  }

  // ---- refused requests leave no trace ---------------------------------------------------

  // Two runs from here on: same answers to come, after n and n' answers so far.
  ghost predicate SameFromHere(cfg: Config, s: State, s': State, n: nat, n': nat, now: nat) {
    && Sane(s.limiters, now) && Sane(s'.limiters, now) && SameCredit(cfg, s.limiters, s'.limiters, now)
    && n <= |s.outcomes| && n' <= |s'.outcomes| && s.outcomes[n..] == s'.outcomes[n'..]
  }

  lemma StepSame(cfg: Config, expiry: nat, s: State, s': State, n: nat, n': nat, now: nat, e: Event, cleaning: bool)
    requires SameFromHere(cfg, s, s', n, n', now) && now <= e.at && (cleaning ==> cfg.Cap() <= expiry + 1)
    ensures SameFromHere(cfg, Step(cfg, expiry, s, e, cleaning), Step(cfg, expiry, s', e, cleaning), n, n', e.at)
  {
    SameCreditLater(cfg, s.limiters, s'.limiters, now, e.at);
    match e
    case Ask(user, at) =>
      if user != "" { TakeSame(cfg, s.limiters, s'.limiters, user, at); }
      AnswersSame(s.outcomes, s'.outcomes, n, n', Decide(cfg, s.limiters, user, at).1);
    case Clean(at) =>
      if cleaning { SweepsSame(cfg, s.limiters, s'.limiters, at, expiry); }
  }

  lemma AnswersSame(a: seq<bool>, b: seq<bool>, n: nat, n': nat, ok: bool)
    requires n <= |a| && n' <= |b| && a[n..] == b[n'..]
    ensures (a + [ok])[n..] == (b + [ok])[n'..]
  {
    assert (a + [ok])[n..] == a[n..] + [ok] && (b + [ok])[n'..] == b[n'..] + [ok];
  }

  lemma SweepsSame(cfg: Config, m: Table, m': Table, now: nat, expiry: nat)
    requires Sane(m, now) && Sane(m', now) && SameCredit(cfg, m, m', now) && cfg.Cap() <= expiry + 1
    ensures Sane(Sweep(m, now, expiry), now) && Sane(Sweep(m', now, expiry), now)
    ensures SameCredit(cfg, Sweep(m, now, expiry), Sweep(m', now, expiry), now)
  {
    SweepSame(cfg, m, now, expiry);
    SweepSame(cfg, m', now, expiry);
    forall k: string ensures CreditOf(cfg, Sweep(m, now, expiry), k, now) == CreditOf(cfg, Sweep(m', now, expiry), k, now) {
      assert CreditOf(cfg, Sweep(m, now, expiry), k, now) == CreditOf(cfg, m, k, now) == CreditOf(cfg, m', k, now);
    }
  }

  function RunOn(cfg: Config, expiry: nat, s: State, more: seq<Event>, cleaning: bool): State {
    if more == [] then s
    else Step(cfg, expiry, RunOn(cfg, expiry, s, more[..|more| - 1], cleaning), more[|more| - 1], cleaning)
  }

  lemma {:induction false} RunOnSame(cfg: Config, expiry: nat, s: State, s': State, n: nat, n': nat, now: nat,
                                     more: seq<Event>, cleaning: bool)
    requires SameFromHere(cfg, s, s', n, n', now) && Monotone(more) && (cleaning ==> cfg.Cap() <= expiry + 1)
    requires more != [] ==> now <= more[0].at
    ensures SameFromHere(cfg, RunOn(cfg, expiry, s, more, cleaning), RunOn(cfg, expiry, s', more, cleaning), n, n',
                         if more == [] then now else Clock(more))
  {
    if more != [] {
      var fewer, e := more[..|more| - 1], more[|more| - 1];
      RunOnSame(cfg, expiry, s, s', n, n', now, fewer, cleaning);
      assert fewer != [] ==> fewer[0] == more[0];
      StepSame(cfg, expiry, RunOn(cfg, expiry, s, fewer, cleaning), RunOn(cfg, expiry, s', fewer, cleaning), n, n',
               if fewer == [] then now else Clock(fewer), e, cleaning);
    }
  }

  // Had a refused request not been made, every later one would have had the same answer.
  lemma RefusedLeavesNoTrace(cfg: Config, expiry: nat, s: State, user: string, at: nat, more: seq<Event>, cleaning: bool)
    requires Sane(s.limiters, at) && Monotone(more) && (more != [] ==> at <= more[0].at) && (cleaning ==> cfg.Cap() <= expiry + 1)
    requires !Decide(cfg, s.limiters, user, at).1
    ensures var with, without := RunOn(cfg, expiry, s, [Ask(user, at)] + more, cleaning), RunOn(cfg, expiry, s, more, cleaning);
            && |with.outcomes| == |without.outcomes| + 1 && |without.outcomes| >= |s.outcomes|
            && with.outcomes[|s.outcomes| + 1..] == without.outcomes[|s.outcomes|..]
  {
    var n, s' := |s.outcomes|, Step(cfg, expiry, s, Ask(user, at), cleaning);
    forall k: string ensures CreditOf(cfg, s'.limiters, k, at) == CreditOf(cfg, s.limiters, k, at) {
      TakeCosts(cfg, s.limiters, user, at, k, at);
    }
    assert s'.outcomes[n + 1..] == [] == s.outcomes[n..];
    RunOnSame(cfg, expiry, s', s, n + 1, n, at, more, cleaning);
    RunOnFrom(cfg, expiry, s, Ask(user, at), more, cleaning);
  }

  lemma {:induction false} RunOnFrom(cfg: Config, expiry: nat, s: State, e: Event, more: seq<Event>, cleaning: bool)
    ensures RunOn(cfg, expiry, s, [e] + more, cleaning) == RunOn(cfg, expiry, Step(cfg, expiry, s, e, cleaning), more, cleaning)
  {
    var all := [e] + more;
    if more == [] {
      assert all == [e] && all[..0] == [];
    } else {
      assert all[..|all| - 1] == [e] + more[..|more| - 1];
      RunOnFrom(cfg, expiry, s, e, more[..|more| - 1], cleaning);
    }
  }

  function Burst(user: string, n: nat, at: nat): (r: seq<Event>)
    ensures |r| == n && forall e | e in r :: e.at == at
  {
    seq(n, _ => Ask(user, at))
  }

  // n requests at one instant on one table: the n-th passes iff there was credit for all n.
  function Drain(cfg: Config, m: Table, user: string, n: nat, at: nat): (Table, bool) {
    if n == 0 then (m, true) else Take(cfg, Drain(cfg, m, user, n - 1, at).0, user, at)
  }

  lemma {:induction false} DrainOutcome(cfg: Config, m: Table, user: string, n: nat, at: nat)
    requires n > 0 && (user in m ==> m[user].bucket.last <= at)
    ensures var (after, ok) := Drain(cfg, m, user, n, at);
            var credit := CreditOf(cfg, m, user, at);
            && ok == (n * cfg.interval <= credit)
            && user in after && after[user].bucket.last <= at
            && (if ok then after[user] == Entry(Bucket(credit - n * cfg.interval, at), at)
                else CreditOf(cfg, after, user, at) < cfg.interval)
  {
    if n > 1 {
      DrainOutcome(cfg, m, user, n - 1, at);
      assert (n - 1) * cfg.interval == n * cfg.interval - cfg.interval;
    }
  }

  // A new user gets the burst at once, and no more.
  lemma NewUserHasBurst(cfg: Config, user: string, n: nat, at: nat)
    requires n > 0 && cfg.interval > 0
    ensures Drain(cfg, map[], user, n, at).1 <==> n <= cfg.burst
  {
    DrainOutcome(cfg, map[], user, n, at);
    Cancel(cfg.interval, n, cfg.burst);
  }

  lemma Cancel(interval: nat, n: nat, burst: nat)
    requires interval > 0
    ensures n * interval <= interval * burst <==> n <= burst
  {
    if n > burst {
      assert (n - burst) * interval > 0;
      assert n * interval == (n - burst) * interval + interval * burst;
    } else {
      assert (burst - n) * interval >= 0;
      assert n * interval == interval * burst - (burst - n) * interval;
    }
  }

  lemma {:induction false} RunBurst(cfg: Config, expiry: nat, log: seq<Event>, user: string, n: nat, at: nat, cleaning: bool)
    requires user != ""
    ensures var before, after := Run(cfg, expiry, log, cleaning), Run(cfg, expiry, log + Burst(user, n, at), cleaning);
            && after.limiters == Drain(cfg, before.limiters, user, n, at).0
            && |after.outcomes| == |before.outcomes| + n
            && (n > 0 ==> after.outcomes[|after.outcomes| - 1] == Drain(cfg, before.limiters, user, n, at).1)
  {
    var whole := log + Burst(user, n, at);
    if n == 0 {
      assert whole == log;
    } else {
      assert whole[..|whole| - 1] == log + Burst(user, n - 1, at);
      RunBurst(cfg, expiry, log, user, n - 1, at, cleaning);
    }
  }

  // Drain one bucket, clean as soon as the cleaner may evict it, ask for a full burst again.
  function Revealing(cfg: Config, expiry: nat): seq<Event> {
    Burst("u", cfg.burst, 0) + [Clean(expiry + 1)] + Burst("u", cfg.burst, expiry + 1)
  }

  lemma FullBurst(cfg: Config, m: Table, user: string, at: nat)
    requires cfg.burst > 0 && (user in m ==> m[user].bucket.last <= at)
    ensures Drain(cfg, m, user, cfg.burst, at).1 == (cfg.Cap() <= CreditOf(cfg, m, user, at))
  {
    DrainOutcome(cfg, m, user, cfg.burst, at);
    assert cfg.burst * cfg.interval == cfg.Cap();
  }

  // A drained bucket is full again after the cleaner, and holds the time gone by without it.
  lemma AfterCleaning(cfg: Config, expiry: nat, cleaning: bool)
    requires cfg.Cap() > expiry + 1
    ensures var m := Run(cfg, expiry, Burst("u", cfg.burst, 0) + [Clean(expiry + 1)], cleaning).limiters;
            && CreditOf(cfg, m, "u", expiry + 1) == (if cleaning then cfg.Cap() else expiry + 1)
            && ("u" in m ==> m["u"].bucket.last <= expiry + 1)
  {
    assert cfg.burst > 0 && cfg.burst * cfg.interval == cfg.Cap();
    var drain := Burst("u", cfg.burst, 0);
    assert [] + drain == drain;
    RunBurst(cfg, expiry, [], "u", cfg.burst, 0, cleaning);
    DrainOutcome(cfg, map[], "u", cfg.burst, 0);
    assert (drain + [Clean(expiry + 1)])[..|drain|] == drain;
    assert Run(cfg, expiry, drain, cleaning).limiters["u"] == Entry(Bucket(0, 0), 0);
  }

  // If a drained bucket is still short of full when it may be evicted, the cleaner shows.
  lemma RevealingOutcome(cfg: Config, expiry: nat, cleaning: bool)
    requires cfg.Cap() > expiry + 1
    ensures var r := Run(cfg, expiry, Revealing(cfg, expiry), cleaning).outcomes;
            r != [] && r[|r| - 1] == cleaning
  {
    assert cfg.burst > 0;
    var cleaned := Burst("u", cfg.burst, 0) + [Clean(expiry + 1)];
    AfterCleaning(cfg, expiry, cleaning);
    RunBurst(cfg, expiry, cleaned, "u", cfg.burst, expiry + 1, cleaning);
    FullBurst(cfg, Run(cfg, expiry, cleaned, cleaning).limiters, "u", expiry + 1);
  }

  // The cleaner is unobservable exactly when an empty bucket is full again by the time it
  // may be evicted.
  lemma CleanerInvisibleIff(cfg: Config, expiry: nat)
    ensures cfg.Cap() <= expiry + 1 <==>
            forall log | Monotone(log) ::
              Run(cfg, expiry, log, true).outcomes == Run(cfg, expiry, log, false).outcomes
  {
    if cfg.Cap() <= expiry + 1 {
      forall log | Monotone(log)
        ensures Run(cfg, expiry, log, true).outcomes == Run(cfg, expiry, log, false).outcomes
      {
        CleanedRunsAgree(cfg, expiry, log);
      }
    } else {
      RevealingOutcome(cfg, expiry, true);
      RevealingOutcome(cfg, expiry, false);
      assert Monotone(Revealing(cfg, expiry));
    }
  }

  lemma ProductionCleanerInvisible(log: seq<Event>)
    requires Monotone(log)
    ensures var cfg := Config(MINUTE / USER_MESSAGES_PER_MINUTE, USER_LIMITER_BURST);
            Run(cfg, USER_LIMITER_EXPIRY, log, true).outcomes == Run(cfg, USER_LIMITER_EXPIRY, log, false).outcomes
  {
    CleanedRunsAgree(Config(MINUTE / USER_MESSAGES_PER_MINUTE, USER_LIMITER_BURST), USER_LIMITER_EXPIRY, log);
  }
}
