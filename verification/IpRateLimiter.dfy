// The per-address REST limiter: token buckets, violation windows, timed bans and a cleaner
// that deletes entries from all three maps.
module IpRateLimiter {
  import opened Options
  import opened TokenBucket

  const MINUTE: nat := 60_000_000_000
  const API_REQUESTS_PER_MINUTE: nat := 60
  const API_LIMITER_BURST: nat := 10
  const LIMITER_EXPIRY: nat := 5 * MINUTE
  const BAN_VIOLATION_THRESHOLD: nat := 10
  const BAN_VIOLATION_WINDOW: nat := MINUTE
  const BAN_DURATION: nat := 5 * MINUTE

  datatype Violation = Violation(count: nat, windowStart: nat)

  // ---- what each mutex-protected section does ----------------------------------------------

  datatype State = State(limiters: Table, violations: map<string, Violation>, bans: map<string, nat>)

  function BanCheck(s: State, ip: string, now: nat): (State, bool) {
    if ip !in s.bans then (s, false)
    else if now > s.bans[ip] then (s.(bans := s.bans - {ip}), false)
    else (s, true)
  }

  function DrawToken(cfg: Config, s: State, ip: string, now: nat): (State, bool) {
    var (m, ok) := Take(cfg, s.limiters, ip, now);
    (s.(limiters := m), ok)
  }

  // The violation window restarts on the first violation after it has run out; it never slides.
  function Count(v: Option<Violation>, now: nat): (Option<Violation>, bool) {
    if v.None? || now - v.value.windowStart > BAN_VIOLATION_WINDOW then (Some(Violation(1, now)), false)
    else if v.value.count + 1 >= BAN_VIOLATION_THRESHOLD then (None, true)
    else (Some(v.value.(count := v.value.count + 1)), false)
  }

  function NoteViolation(s: State, ip: string, now: nat): (State, bool) {
    var (v, banned) := Count(if ip in s.violations then Some(s.violations[ip]) else None, now);
    (State(s.limiters,
           if v.None? then s.violations - {ip} else s.violations[ip := v.value],
           if banned then s.bans[ip := now + BAN_DURATION] else s.bans), banned)
  }

  function Clean(s: State, now: nat): State {
    State(Sweep(s.limiters, now, LIMITER_EXPIRY),
          map ip | ip in s.violations && now - s.violations[ip].windowStart <= BAN_VIOLATION_WINDOW :: s.violations[ip],
          map ip | ip in s.bans && now <= s.bans[ip] :: s.bans[ip])
  }

  datatype Status = Passed | TooManyRequests | Forbidden

  // What a violation recorded now does: it is the first of a new window, unless the address has one
  // opened at most a minute ago; there it is one more, and the tenth bans for five minutes and
  // closes the window.
  ghost predicate Noted(before: map<string, Violation>, bans: map<string, nat>, after: map<string, Violation>,
                        bans': map<string, nat>, ip: string, now: nat, banned: bool) {
    if ip !in before || now > before[ip].windowStart + 60_000_000_000 then
      !banned && after == before[ip := Violation(1, now)] && bans' == bans
    else if before[ip].count < 9 then
      !banned && after == before[ip := Violation(before[ip].count + 1, before[ip].windowStart)] && bans' == bans
    else
      banned && after == before - {ip} && bans' == bans[ip := now + 5 * 60_000_000_000]
  }

  // One request whose sections run at t1, t2 and t3 with nothing in between.
  function Respond(cfg: Config, s: State, ip: string, t1: nat, t2: nat, t3: nat): (State, Status) {
    var (s1, banned) := BanCheck(s, ip, t1);
    if banned then (s1, Forbidden)
    else
      var (s2, ok) := DrawToken(cfg, s1, ip, t2);
      if ok then (s2, Passed) else (NoteViolation(s2, ip, t3).0, TooManyRequests)
  }

  // The cleaner's loops over the windows and the bans.
  method EvictWindows(m: map<string, Violation>, now: nat) returns (r: map<string, Violation>)
    ensures r == map ip | ip in m && now - m[ip].windowStart <= BAN_VIOLATION_WINDOW :: m[ip]
  {
    r := m;
    var todo := m.Keys;
    while todo != {}
      invariant todo <= m.Keys
      invariant r == map ip | ip in m && (ip in todo || now - m[ip].windowStart <= BAN_VIOLATION_WINDOW) :: m[ip]
    {
      var ip :| ip in todo;
      todo := todo - {ip};
      if now - r[ip].windowStart > BAN_VIOLATION_WINDOW {
        r := r - {ip};
      }
    }
  }

  method EvictBans(m: map<string, nat>, now: nat) returns (r: map<string, nat>)
    ensures r == map ip | ip in m && now <= m[ip] :: m[ip]
  {
    r := m;
    var todo := m.Keys;
    while todo != {}
      invariant todo <= m.Keys && r == map ip | ip in m && (ip in todo || now <= m[ip]) :: m[ip]
    {
      var ip :| ip in todo;
      todo := todo - {ip};
      if now > r[ip] {
        r := r - {ip};
      }
    }
  }

  class IPRateLimiter {
    const cfg: Config
    var limiters: Table
    var violations: map<string, Violation>
    var bans: map<string, nat>

    ghost function Abs(): State
      reads this
    {
      State(limiters, violations, bans)
    }

    constructor (perMin: nat, burst: nat)
      requires perMin > 0
      ensures Abs() == State(map[], map[], map[]) && cfg == Config(MINUTE / perMin, burst)
    {
      cfg := Config(MINUTE / perMin, burst);
      limiters, violations, bans := map[], map[], map[];
    }

    method IsBanned(ip: string, now: nat) returns (banned: bool)
      modifies this
      ensures (Abs(), banned) == BanCheck(old(Abs()), ip, now)
      ensures banned <==> ip in old(bans) && now <= old(bans)[ip]
      ensures limiters == old(limiters) && violations == old(violations)
      ensures bans == if banned then old(bans) else old(bans) - {ip}
    {
      if ip !in bans {
        return false;
      }
      if now > bans[ip] {
        bans := bans - {ip};
        return false;
      }
      return true;
    }

    // getLimiter followed by Allow on what it returns.
    method TakeToken(ip: string, now: nat) returns (ok: bool)
      modifies this
      ensures (Abs(), ok) == DrawToken(cfg, old(Abs()), ip, now)
      ensures violations == old(violations) && bans == old(bans)
      ensures limiters.Keys == old(limiters.Keys) + {ip} && limiters[ip].lastSeen == now
      ensures forall k | k in old(limiters) && k != ip :: limiters[k] == old(limiters)[k]
    {
      if ip !in limiters {
        limiters := limiters[ip := Entry(Bucket(cfg.Cap(), 0), now)];
      }
      limiters := limiters[ip := limiters[ip].(lastSeen := now)];
      var (b, allowed) := Allow(cfg, limiters[ip].bucket, now);
      limiters := limiters[ip := limiters[ip].(bucket := b)];
      ok := allowed;
      assert limiters == old(limiters)[ip := Entry(b, now)];
    }

    method RecordViolation(ip: string, now: nat) returns (banned: bool)
      modifies this
      ensures (Abs(), banned) == NoteViolation(old(Abs()), ip, now)
      ensures Noted(old(violations), old(bans), violations, bans, ip, now, banned) && limiters == old(limiters)
    {
      if ip !in violations || now - violations[ip].windowStart > BAN_VIOLATION_WINDOW {
        violations := violations[ip := Violation(1, now)];
        return false;
      }
      violations := violations[ip := violations[ip].(count := violations[ip].count + 1)];
      if violations[ip].count >= BAN_VIOLATION_THRESHOLD {
        bans := bans[ip := now + BAN_DURATION];
        violations := violations - {ip};
        assert violations == old(violations) - {ip};
        return true;
      }
      return false;
    }

    method Cleanup(now: nat)
      modifies this
      ensures Abs() == Clean(old(Abs()), now)
      ensures limiters == map k | k in old(limiters) && now <= old(limiters)[k].lastSeen + 5 * 60_000_000_000 :: old(limiters)[k]
      ensures violations == map k | k in old(violations) && now <= old(violations)[k].windowStart + 60_000_000_000 :: old(violations)[k]
      ensures bans == map k | k in old(bans) && now <= old(bans)[k] :: old(bans)[k]
    {
      limiters := EvictIdle(limiters, now, LIMITER_EXPIRY);
      violations := EvictWindows(violations, now);
      bans := EvictBans(bans, now);
    }

    // Middleware: 403 when banned, 429 (recorded as a violation) when out of tokens.
    method Serve(ip: string, t1: nat, t2: nat, t3: nat) returns (status: Status)
      modifies this
      ensures (Abs(), status) == Respond(cfg, old(Abs()), ip, t1, t2, t3)
      ensures status.Forbidden? <==> ip in old(bans) && t1 <= old(bans)[ip]
      ensures status.Forbidden? ==> Abs() == old(Abs())
      ensures status.Passed? ==> violations == old(violations) && bans == old(bans) - {ip}
      ensures status.TooManyRequests? ==>
                exists banned :: Noted(old(violations), old(bans) - {ip}, violations, bans, ip, t3, banned)
    {
      var banned := IsBanned(ip, t1);
      if banned {
        return Forbidden;
      }
      var ok := TakeToken(ip, t2);
      if ok {
        return Passed;
      }
      var _ := RecordViolation(ip, t3);
      return TooManyRequests;
    }
  }

  // ---- interleaved requests ------------------------------------------------------------------

  // A request in flight has passed the ban check, or has been refused a token and has yet to
  // record its violation.
  datatype Phase = NotBanned | Refused | Answered(status: Status)

  datatype Request = Request(ip: string, phase: Phase)

  datatype System = System(lim: State, requests: map<nat, Request>)

  // Advance runs the next section of request id (ip matters on its first section only).
  datatype Event = Advance(id: nat, ip: string, at: nat) | CleanUp(at: nat)

  function Step(cfg: Config, sys: System, e: Event, cleaning: bool): System {
    match e
    case CleanUp(at) => if cleaning then sys.(lim := Clean(sys.lim, at)) else sys
    case Advance(id, ip, at) =>
      if id !in sys.requests then
        var (lim, banned) := BanCheck(sys.lim, ip, at);
        System(lim, sys.requests[id := Request(ip, if banned then Answered(Forbidden) else NotBanned)])
      else
        var r := sys.requests[id];
        match r.phase
        case NotBanned =>
          var (lim, ok) := DrawToken(cfg, sys.lim, r.ip, at);
          System(lim, sys.requests[id := r.(phase := if ok then Answered(Passed) else Refused)])
        case Refused =>
          System(NoteViolation(sys.lim, r.ip, at).0, sys.requests[id := r.(phase := Answered(TooManyRequests))])
        case Answered(_) => sys
  }

  function Run(cfg: Config, log: seq<Event>, cleaning: bool): System {
    if log == [] then System(State(map[], map[], map[]), map[])
    else Step(cfg, Run(cfg, log[..|log| - 1], cleaning), log[|log| - 1], cleaning)
  }

  ghost predicate Monotone(log: seq<Event>) {
    forall i, j | 0 <= i < j < |log| :: log[i].at <= log[j].at
  }

  ghost function Clock(log: seq<Event>): nat {
    if log == [] then 0 else log[|log| - 1].at
  }

  // ---- the cleaner is unobservable -----------------------------------------------------------

  // A window that has run out counts as no window, an expired ban as no ban.
  ghost function LiveWindow(s: State, ip: string, now: nat): Option<Violation> {
    if ip in s.violations && now - s.violations[ip].windowStart <= BAN_VIOLATION_WINDOW
    then Some(s.violations[ip]) else None
  }

  ghost function LiveBan(s: State, ip: string, now: nat): Option<nat> {
    if ip in s.bans && now <= s.bans[ip] then Some(s.bans[ip]) else None
  }

  ghost predicate Alike(cfg: Config, s: State, s': State, now: nat) {
    && Sane(s.limiters, now) && Sane(s'.limiters, now)
    && SameCredit(cfg, s.limiters, s'.limiters, now)
    && (forall ip: string :: LiveWindow(s, ip, now) == LiveWindow(s', ip, now))
    && (forall ip: string :: LiveBan(s, ip, now) == LiveBan(s', ip, now))
  }

  lemma AlikeLater(cfg: Config, s: State, s': State, now: nat, later: nat)
    requires Alike(cfg, s, s', now) && now <= later
    ensures Alike(cfg, s, s', later)
  {
    SameCreditLater(cfg, s.limiters, s'.limiters, now, later);
    forall ip: string
      ensures LiveWindow(s, ip, later) == LiveWindow(s', ip, later)
      ensures LiveBan(s, ip, later) == LiveBan(s', ip, later)
    {
      assert LiveWindow(s, ip, now) == LiveWindow(s', ip, now);
      assert LiveBan(s, ip, now) == LiveBan(s', ip, now);
    }
  }

  lemma BanCheckAlike(cfg: Config, s: State, s': State, ip: string, now: nat)
    requires Alike(cfg, s, s', now)
    ensures BanCheck(s, ip, now).1 == BanCheck(s', ip, now).1
    ensures Alike(cfg, BanCheck(s, ip, now).0, BanCheck(s', ip, now).0, now)
  {
    assert LiveBan(s, ip, now) == LiveBan(s', ip, now);
    var t, t' := BanCheck(s, ip, now).0, BanCheck(s', ip, now).0;
    forall k: string
      ensures LiveWindow(t, k, now) == LiveWindow(t', k, now)
      ensures LiveBan(t, k, now) == LiveBan(t', k, now)
    {
      assert LiveWindow(s, k, now) == LiveWindow(s', k, now);
      assert LiveBan(s, k, now) == LiveBan(s', k, now);
    }
  }

  lemma DrawTokenAlike(cfg: Config, s: State, s': State, ip: string, now: nat)
    requires Alike(cfg, s, s', now)
    ensures DrawToken(cfg, s, ip, now).1 == DrawToken(cfg, s', ip, now).1
    ensures Alike(cfg, DrawToken(cfg, s, ip, now).0, DrawToken(cfg, s', ip, now).0, now)
  {
    TakeSame(cfg, s.limiters, s'.limiters, ip, now);
    var t, t' := DrawToken(cfg, s, ip, now).0, DrawToken(cfg, s', ip, now).0;
    forall k: string
      ensures LiveWindow(t, k, now) == LiveWindow(t', k, now)
      ensures LiveBan(t, k, now) == LiveBan(t', k, now)
    {
      assert LiveWindow(s, k, now) == LiveWindow(s', k, now);
      assert LiveBan(s, k, now) == LiveBan(s', k, now);
    }
  }

  lemma NoteViolationAlike(cfg: Config, s: State, s': State, ip: string, now: nat)
    requires Alike(cfg, s, s', now)
    ensures NoteViolation(s, ip, now).1 == NoteViolation(s', ip, now).1
    ensures Alike(cfg, NoteViolation(s, ip, now).0, NoteViolation(s', ip, now).0, now)
  {
    assert LiveWindow(s, ip, now) == LiveWindow(s', ip, now);
    var t, t' := NoteViolation(s, ip, now).0, NoteViolation(s', ip, now).0;
    forall k: string
      ensures LiveWindow(t, k, now) == LiveWindow(t', k, now)
      ensures LiveBan(t, k, now) == LiveBan(t', k, now)
    {
      assert LiveWindow(s, k, now) == LiveWindow(s', k, now);
      assert LiveBan(s, k, now) == LiveBan(s', k, now);
    }
  }

  lemma CleanAlike(cfg: Config, s: State, s': State, now: nat)
    requires Alike(cfg, s, s', now) && cfg.Cap() <= LIMITER_EXPIRY + 1
    ensures Alike(cfg, Clean(s, now), s', now)
  {
    SweepSame(cfg, s.limiters, now, LIMITER_EXPIRY);
    SameCreditTrans(cfg, Sweep(s.limiters, now, LIMITER_EXPIRY), s.limiters, s'.limiters, now);
    forall k: string
      ensures LiveWindow(Clean(s, now), k, now) == LiveWindow(s', k, now)
      ensures LiveBan(Clean(s, now), k, now) == LiveBan(s', k, now)
    {
      assert LiveWindow(s, k, now) == LiveWindow(s', k, now);
      assert LiveBan(s, k, now) == LiveBan(s', k, now);
    }
  }

  lemma {:induction false} CleanedRunsAlike(cfg: Config, log: seq<Event>)
    requires Monotone(log) && cfg.Cap() <= LIMITER_EXPIRY + 1
    ensures Run(cfg, log, true).requests == Run(cfg, log, false).requests
    ensures Alike(cfg, Run(cfg, log, true).lim, Run(cfg, log, false).lim, Clock(log))
  {
    if log != [] {
      var prefix, e := log[..|log| - 1], log[|log| - 1];
      CleanedRunsAlike(cfg, prefix);
      var c, u := Run(cfg, prefix, true), Run(cfg, prefix, false);
      assert Clock(prefix) <= e.at;
      AlikeLater(cfg, c.lim, u.lim, Clock(prefix), e.at);
      match e
      case CleanUp(at) =>
        CleanAlike(cfg, c.lim, u.lim, at);
      case Advance(id, ip, at) =>
        if id !in c.requests {
          BanCheckAlike(cfg, c.lim, u.lim, ip, at);
        } else if c.requests[id].phase.NotBanned? {
          DrawTokenAlike(cfg, c.lim, u.lim, c.requests[id].ip, at);
        } else if c.requests[id].phase.Refused? {
          NoteViolationAlike(cfg, c.lim, u.lim, c.requests[id].ip, at);
        }
    }
  }

  // Cleaning at any points of any interleaving leaves every answer unchanged.
  lemma CleanerInvisible(cfg: Config, log: seq<Event>)
    requires Monotone(log) && cfg.Cap() <= LIMITER_EXPIRY + 1
    ensures Run(cfg, log, true).requests == Run(cfg, log, false).requests
  {
    CleanedRunsAlike(cfg, log);
  }

  lemma ProductionCleanerInvisible(log: seq<Event>)
    requires Monotone(log)
    ensures var cfg := Config(MINUTE / API_REQUESTS_PER_MINUTE, API_LIMITER_BURST);
            Run(cfg, log, true).requests == Run(cfg, log, false).requests
  {
    CleanedRunsAlike(Config(MINUTE / API_REQUESTS_PER_MINUTE, API_LIMITER_BURST), log);
  }
}
