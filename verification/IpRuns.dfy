// Runs of requests from one address, each answered before the next: what shows that the bounds
// and conditions for the address limiter are exact.
module IpRuns {
  import opened Options
  import opened TokenBucket
  import opened IpRateLimiter
  import opened BanBound

  // All the sections of request id; the third changes nothing when the second let it through.
  function Visit(id: nat, ip: string, at: nat): seq<Event> {
    [Advance(id, ip, at), Advance(id, ip, at), Advance(id, ip, at)]
  }

  // The log with n visits more, numbered from first on.
  function Extend(log: seq<Event>, first: nat, n: nat, ip: string, at: nat): seq<Event> {
    if n == 0 then log else Extend(log, first, n - 1, ip, at) + Visit(first + n - 1, ip, at)
  }

  // No request has a number of first or above.
  ghost predicate IdsBelow(sys: System, first: nat) {
    forall id | id in sys.requests :: id < first
  }

  // What an event adds to the recorded violations of ip.
  function Noted(sys: System, e: Event, ip: string): seq<nat> {
    if Notes(sys, e, ip) then [e.at] else []
  }

  lemma RunSnoc(cfg: Config, log: seq<Event>, e: Event, ip: string, cleaning: bool)
    ensures Run(cfg, log + [e], cleaning) == Step(cfg, Run(cfg, log, cleaning), e, cleaning)
    ensures Records(cfg, log + [e], ip, cleaning) == Records(cfg, log, ip, cleaning) + Noted(Run(cfg, log, cleaning), e, ip)
  {
    assert (log + [e])[..|log|] == log;
  }

  lemma VisitIsThree(id: nat, ip: string, at: nat, log: seq<Event>)
    ensures var e := Advance(id, ip, at); log + Visit(id, ip, at) == ((log + [e]) + [e]) + [e]
  {
  }

  lemma FirstSection(cfg: Config, s: System, id: nat, ip: string, at: nat, cleaning: bool)
    requires id !in s.requests
    ensures var e, (lim, banned) := Advance(id, ip, at), BanCheck(s.lim, ip, at);
            Step(cfg, s, e, cleaning) == System(lim, s.requests[id := Request(ip, if banned then Answered(Forbidden) else NotBanned)])
            && Noted(s, e, ip) == []
  {
  }

  lemma SecondSection(cfg: Config, s: System, id: nat, ip: string, at: nat, cleaning: bool)
    requires id in s.requests && s.requests[id] == Request(ip, NotBanned)
    ensures var e, (lim, ok) := Advance(id, ip, at), DrawToken(cfg, s.lim, ip, at);
            Step(cfg, s, e, cleaning) == System(lim, s.requests[id := Request(ip, if ok then Answered(Passed) else Refused)])
            && Noted(s, e, ip) == []
  {
  }

  lemma ThirdSection(cfg: Config, s: System, id: nat, ip: string, at: nat, cleaning: bool)
    requires id in s.requests && s.requests[id] == Request(ip, Refused)
    ensures var e := Advance(id, ip, at);
            Step(cfg, s, e, cleaning) == System(NoteViolation(s.lim, ip, at).0, s.requests[id := Request(ip, Answered(TooManyRequests))])
            && Noted(s, e, ip) == [at]
  {
  }

  lemma NoSection(cfg: Config, s: System, id: nat, ip: string, at: nat, cleaning: bool)
    requires id in s.requests && s.requests[id].phase.Answered?
    ensures Step(cfg, s, Advance(id, ip, at), cleaning) == s && Noted(s, Advance(id, ip, at), ip) == []
  {
  }

  // The three sections in a row are one request with nothing in between.
  lemma ThreeSections(cfg: Config, s: System, id: nat, ip: string, at: nat, cleaning: bool)
    requires id !in s.requests
    ensures var e, (lim, status) := Advance(id, ip, at), Respond(cfg, s.lim, ip, at, at, at);
            var s1 := Step(cfg, s, e, cleaning);
            var s2 := Step(cfg, s1, e, cleaning);
            && Step(cfg, s2, e, cleaning) == System(lim, s.requests[id := Request(ip, Answered(status))])
            && Noted(s, e, ip) + Noted(s1, e, ip) + Noted(s2, e, ip) == if status == TooManyRequests then [at] else []
  {
    var e := Advance(id, ip, at);
    FirstSection(cfg, s, id, ip, at, cleaning);
    var s1 := Step(cfg, s, e, cleaning);
    if s1.requests[id].phase.Answered? {
      NoSection(cfg, s1, id, ip, at, cleaning);
    } else {
      SecondSection(cfg, s1, id, ip, at, cleaning);
      var s2 := Step(cfg, s1, e, cleaning);
      if s2.requests[id].phase.Answered? {
        NoSection(cfg, s2, id, ip, at, cleaning);
      } else {
        ThirdSection(cfg, s2, id, ip, at, cleaning);
      }
    }
  }

  lemma VisitResponds(cfg: Config, log: seq<Event>, id: nat, ip: string, at: nat, cleaning: bool)
    requires id !in Run(cfg, log, cleaning).requests
    ensures var s, t := Run(cfg, log, cleaning), Run(cfg, log + Visit(id, ip, at), cleaning);
            var (lim, status) := Respond(cfg, s.lim, ip, at, at, at);
            && t == System(lim, s.requests[id := Request(ip, Answered(status))])
            && Records(cfg, log + Visit(id, ip, at), ip, cleaning) ==
               Records(cfg, log, ip, cleaning) + if status == TooManyRequests then [at] else []
  {
    var e := Advance(id, ip, at);
    RunSnoc(cfg, log, e, ip, cleaning);
    RunSnoc(cfg, log + [e], e, ip, cleaning);
    RunSnoc(cfg, (log + [e]) + [e], e, ip, cleaning);
    VisitIsThree(id, ip, at, log);
    ThreeSections(cfg, Run(cfg, log, cleaning), id, ip, at, cleaning);
  }

  // ---- one address ------------------------------------------------------------------------------------------

  // All that the limiter keeps about an address.
  datatype View = View(entry: Entry, violation: Option<Violation>, ban: Option<nat>)

  function Lookup<T>(m: map<string, T>, ip: string): Option<T> {
    if ip in m then Some(m[ip]) else None
  }

  function ViewOf(cfg: Config, s: State, ip: string): View {
    View(EntryOf(cfg, s.limiters, ip), Lookup(s.violations, ip), Lookup(s.bans, ip))
  }

  // A request seen from its address.
  function Answer(cfg: Config, v: View, at: nat): (View, Status) {
    if v.ban.Some? && at <= v.ban.value then (v, Forbidden)
    else
      var (b, ok) := Allow(cfg, v.entry.bucket, at);
      if ok then (View(Entry(b, at), v.violation, None), Passed)
      else
        var (w, banned) := Count(v.violation, at);
        (View(Entry(b, at), w, if banned then Some(at + BAN_DURATION) else None), TooManyRequests)
  }

  lemma RespondIsAnswer(cfg: Config, s: State, ip: string, at: nat)
    ensures var (t, status) := Respond(cfg, s, ip, at, at, at);
            (ViewOf(cfg, t, ip), status) == Answer(cfg, ViewOf(cfg, s, ip), at)
  {
  }

  // n requests at one instant.
  function Play(cfg: Config, v: View, n: nat, at: nat): View {
    if n == 0 then v else Answer(cfg, Play(cfg, v, n - 1, at), at).0
  }

  function LastStatus(cfg: Config, v: View, n: nat, at: nat): Status
    requires n > 0
  {
    Answer(cfg, Play(cfg, v, n - 1, at), at).1
  }

  // A violation is recorded with each refusal.
  function RecordOf(status: Status, at: nat): seq<nat> {
    if status == TooManyRequests then [at] else []
  }

  function PlayRecords(cfg: Config, v: View, n: nat, at: nat): seq<nat> {
    if n == 0 then [] else
      PlayRecords(cfg, v, n - 1, at) + RecordOf(LastStatus(cfg, v, n, at), at)
  }

  // After log, the requests have numbers below first, and this is what there is about ip.
  ghost predicate Stands(cfg: Config, log: seq<Event>, ip: string, cleaning: bool, first: nat, v: View, records: seq<nat>) {
    var s := Run(cfg, log, cleaning);
    IdsBelow(s, first) && ViewOf(cfg, s.lim, ip) == v && Records(cfg, log, ip, cleaning) == records
  }

  ghost predicate WasAnswered(cfg: Config, log: seq<Event>, cleaning: bool, id: nat, ip: string, status: Status) {
    var s := Run(cfg, log, cleaning);
    id in s.requests && s.requests[id] == Request(ip, Answered(status))
  }

  lemma OneVisitMore(cfg: Config, log: seq<Event>, ip: string, cleaning: bool, id: nat, v: View, records: seq<nat>, at: nat)
    requires Stands(cfg, log, ip, cleaning, id, v, records)
    ensures var (w, status) := Answer(cfg, v, at);
            && Stands(cfg, log + Visit(id, ip, at), ip, cleaning, id + 1, w, records + RecordOf(status, at))
            && WasAnswered(cfg, log + Visit(id, ip, at), cleaning, id, ip, status)
  {
    VisitResponds(cfg, log, id, ip, at, cleaning);
    RespondIsAnswer(cfg, Run(cfg, log, cleaning).lim, ip, at);
  }

  // Standing survives a visit; stated of any predicate, so that the induction sees no more of it.
  ghost predicate KeptByVisits(cfg: Config, ip: string, at: nat, stands: (seq<Event>, nat, View, seq<nat>) -> bool) {
    forall log: seq<Event>, id: nat, v: View, records: seq<nat> :: stands(log, id, v, records) ==>
      stands(log + Visit(id, ip, at), id + 1, Answer(cfg, v, at).0, records + RecordOf(Answer(cfg, v, at).1, at))
  }

  lemma {:induction false} VisitsKeep(cfg: Config, ip: string, at: nat, stands: (seq<Event>, nat, View, seq<nat>) -> bool,
                                      log: seq<Event>, first: nat, v: View, records: seq<nat>, n: nat)
    requires KeptByVisits(cfg, ip, at, stands) && stands(log, first, v, records)
    ensures stands(Extend(log, first, n, ip, at), first + n, Play(cfg, v, n, at), records + PlayRecords(cfg, v, n, at))
  {
    if n == 0 {
      assert records + [] == records;
    } else {
      VisitsKeep(cfg, ip, at, stands, log, first, v, records, n - 1);
      var w := Play(cfg, v, n - 1, at);
      assert records + PlayRecords(cfg, v, n, at)
          == (records + PlayRecords(cfg, v, n - 1, at)) + RecordOf(Answer(cfg, w, at).1, at);
    }
  }

  ghost predicate AnsweredByVisits(cfg: Config, ip: string, at: nat, stands: (seq<Event>, nat, View, seq<nat>) -> bool,
                                   answered: (seq<Event>, nat, Status) -> bool) {
    forall log: seq<Event>, id: nat, v: View, records: seq<nat> :: stands(log, id, v, records) ==>
      answered(log + Visit(id, ip, at), id, Answer(cfg, v, at).1)
  }

  lemma LastIsAnswered(cfg: Config, ip: string, at: nat, stands: (seq<Event>, nat, View, seq<nat>) -> bool,
                       answered: (seq<Event>, nat, Status) -> bool,
                       log: seq<Event>, first: nat, v: View, records: seq<nat>, n: nat)
    requires KeptByVisits(cfg, ip, at, stands) && AnsweredByVisits(cfg, ip, at, stands, answered)
    requires stands(log, first, v, records) && n > 0
    ensures answered(Extend(log, first, n, ip, at), first + n - 1, LastStatus(cfg, v, n, at))
  {
    VisitsKeep(cfg, ip, at, stands, log, first, v, records, n - 1);
  }

  ghost function StandsFor(cfg: Config, ip: string, cleaning: bool): (seq<Event>, nat, View, seq<nat>) -> bool {
    (log: seq<Event>, id: nat, v: View, records: seq<nat>) => Stands(cfg, log, ip, cleaning, id, v, records)
  }

  ghost function AnsweredFor(cfg: Config, ip: string, cleaning: bool): (seq<Event>, nat, Status) -> bool {
    (log: seq<Event>, id: nat, status: Status) => WasAnswered(cfg, log, cleaning, id, ip, status)
  }

  lemma VisitsAreKept(cfg: Config, ip: string, cleaning: bool, at: nat)
    ensures KeptByVisits(cfg, ip, at, StandsFor(cfg, ip, cleaning))
    ensures AnsweredByVisits(cfg, ip, at, StandsFor(cfg, ip, cleaning), AnsweredFor(cfg, ip, cleaning))
  {
    var stands, answered := StandsFor(cfg, ip, cleaning), AnsweredFor(cfg, ip, cleaning);
    forall log: seq<Event>, id: nat, v: View, records: seq<nat> | stands(log, id, v, records)
      ensures stands(log + Visit(id, ip, at), id + 1, Answer(cfg, v, at).0, records + RecordOf(Answer(cfg, v, at).1, at))
      ensures answered(log + Visit(id, ip, at), id, Answer(cfg, v, at).1)
    {
      OneVisitMore(cfg, log, ip, cleaning, id, v, records, at);
    }
  }

  // What n visits come to.
  lemma VisitsPlay(cfg: Config, log: seq<Event>, ip: string, cleaning: bool, first: nat, v: View,
                   records: seq<nat>, n: nat, at: nat)
    requires Stands(cfg, log, ip, cleaning, first, v, records)
    ensures Stands(cfg, Extend(log, first, n, ip, at), ip, cleaning, first + n, Play(cfg, v, n, at),
                   records + PlayRecords(cfg, v, n, at))
    ensures n > 0 ==>
              WasAnswered(cfg, Extend(log, first, n, ip, at), cleaning, first + n - 1, ip, LastStatus(cfg, v, n, at))
  {
    var stands, answered := StandsFor(cfg, ip, cleaning), AnsweredFor(cfg, ip, cleaning);
    VisitsAreKept(cfg, ip, cleaning, at);
    assert stands(log, first, v, records);
    VisitsKeep(cfg, ip, at, stands, log, first, v, records, n);
    if n > 0 {
      LastIsAnswered(cfg, ip, at, stands, answered, log, first, v, records, n);
    }
  }

  // ---- what n requests at one instant come to ---------------------------------------------------------------

  lemma Split(n: nat, interval: nat)
    requires n > 0
    ensures n * interval == (n - 1) * interval + interval
  {
  }

  // With credit for all of them and no ban, all pass.
  lemma {:induction false} AllPass(cfg: Config, v: View, n: nat, at: nat)
    requires v.ban.None? && v.entry.bucket.last <= at && n * cfg.interval <= Credit(cfg, v.entry.bucket, at)
    ensures n > 0 ==> Play(cfg, v, n, at) == v.(entry := Entry(Bucket(Credit(cfg, v.entry.bucket, at) - n * cfg.interval, at), at))
    ensures n > 0 ==> LastStatus(cfg, v, n, at) == Passed
    ensures PlayRecords(cfg, v, n, at) == []
  {
    if n > 0 {
      Split(n, cfg.interval);
      AllPass(cfg, v, n - 1, at);
    }
  }

  // Without credit, and short of a ban, all are refused and counted in the running window.
  lemma {:induction false} AllRefused(cfg: Config, v: View, n: nat, at: nat)
    requires v.ban.None? && Credit(cfg, v.entry.bucket, at) < cfg.interval
    requires v.violation.Some? && at - v.violation.value.windowStart <= BAN_VIOLATION_WINDOW
    requires v.violation.value.count + n < BAN_VIOLATION_THRESHOLD
    ensures var w := Play(cfg, v, n, at);
            && w.violation == Some(v.violation.value.(count := v.violation.value.count + n))
            && w.ban.None? && w.entry.bucket == v.entry.bucket
    ensures PlayRecords(cfg, v, n, at) == Times(n, at)
  {
    if n > 0 {
      AllRefused(cfg, v, n - 1, at);
      OneRefused(cfg, Play(cfg, v, n - 1, at), at);
      assert Times(n, at) == Times(n - 1, at) + [at];
    }
  }

  lemma OneRefused(cfg: Config, v: View, at: nat)
    requires v.ban.None? && Credit(cfg, v.entry.bucket, at) < cfg.interval
    requires v.violation.Some? && at - v.violation.value.windowStart <= BAN_VIOLATION_WINDOW
    requires v.violation.value.count + 1 < BAN_VIOLATION_THRESHOLD
    ensures var (w, status) := Answer(cfg, v, at);
            && status == TooManyRequests && w.ban.None? && w.entry.bucket == v.entry.bucket
            && w.violation == Some(v.violation.value.(count := v.violation.value.count + 1))
  {
  }

  // The n-th passes only if there was credit for all n: a refusal or a ban stays for the instant.
  lemma {:induction false} LastPassed(cfg: Config, v: View, n: nat, at: nat)
    requires n > 0 && v.entry.bucket.last <= at
    ensures var w := Play(cfg, v, n, at);
            && w.entry.bucket.last <= at
            && if LastStatus(cfg, v, n, at) == Passed
               then n * cfg.interval + Credit(cfg, w.entry.bucket, at) == Credit(cfg, v.entry.bucket, at)
               else (w.ban.Some? && at <= w.ban.value) || Credit(cfg, w.entry.bucket, at) < cfg.interval
  {
    Split(n, cfg.interval);
    if n > 1 {
      LastPassed(cfg, v, n - 1, at);
    }
  }

  // ---- logs of visits ---------------------------------------------------------------------------------------

  lemma {:induction false} ExtendIsMonotone(log: seq<Event>, first: nat, n: nat, ip: string, at: nat)
    requires Monotone(log) && Clock(log) <= at
    ensures Monotone(Extend(log, first, n, ip, at)) && Clock(Extend(log, first, n, ip, at)) <= at
  {
    if n > 0 {
      ExtendIsMonotone(log, first, n - 1, ip, at);
      LaterIsMonotone(Extend(log, first, n - 1, ip, at), Visit(first + n - 1, ip, at), at);
    }
  }

  lemma LaterIsMonotone(log: seq<Event>, more: seq<Event>, at: nat)
    requires Monotone(log) && Clock(log) <= at && forall e | e in more :: e.at == at
    ensures Monotone(log + more) && Clock(log + more) <= at
  {
    forall i, j | 0 <= i < j < |log + more| ensures (log + more)[i].at <= (log + more)[j].at {
      assert log != [] ==> log[|log| - 1].at <= at;
    }
  }

  // ---- 17 violations in a minute ------------------------------------------------------------------------------

  ghost const PRODUCTION: Config := Config(MINUTE / API_REQUESTS_PER_MINUTE, API_LIMITER_BURST)

  const LATER: nat := BAN_VIOLATION_WINDOW + 1

  // Empty the bucket and be refused once; 8 refusals right after; when the window has just run
  // out and the bucket is full again, empty it and be refused 9 times.
  function Spread(ip: string): seq<Event> {
    var start := Extend(Extend([], 0, 10, ip, 0), 10, 1, ip, 0);
    var eight := Extend(start, 11, 8, ip, 1);
    Extend(Extend(Extend(eight, 19, 10, ip, LATER), 29, 1, ip, LATER), 30, 8, ip, LATER)
  }

  lemma SpreadIsMonotone(ip: string)
    ensures Monotone(Spread(ip))
  {
    ExtendIsMonotone([], 0, 10, ip, 0);
    var a := Extend([], 0, 10, ip, 0);
    ExtendIsMonotone(a, 10, 1, ip, 0);
    var b := Extend(a, 10, 1, ip, 0);
    ExtendIsMonotone(b, 11, 8, ip, 1);
    var c := Extend(b, 11, 8, ip, 1);
    ExtendIsMonotone(c, 19, 10, ip, LATER);
    var d := Extend(c, 19, 10, ip, LATER);
    ExtendIsMonotone(d, 29, 1, ip, LATER);
    ExtendIsMonotone(Extend(d, 29, 1, ip, LATER), 30, 8, ip, LATER);
  }

  // Use up a full bucket.
  lemma Drain(log: seq<Event>, ip: string, cleaning: bool, first: nat, v: View, records: seq<nat>, at: nat)
    requires Stands(PRODUCTION, log, ip, cleaning, first, v, records)
    requires v.ban.None? && v.entry.bucket.last <= at && Credit(PRODUCTION, v.entry.bucket, at) == PRODUCTION.Cap()
    ensures Stands(PRODUCTION, Extend(log, first, 10, ip, at), ip, cleaning, first + 10,
                   v.(entry := Entry(Bucket(0, at), at)), records)
  {
    AllPass(PRODUCTION, v, 10, at);
    VisitsPlay(PRODUCTION, log, ip, cleaning, first, v, records, 10, at);
    assert records + [] == records;
  }

  // A refusal on an empty bucket that opens a window.
  lemma OpensWindow(v: View, at: nat)
    requires v.ban.None? && v.entry == Entry(Bucket(0, at), at)
    requires v.violation.Some? ==> at - v.violation.value.windowStart > BAN_VIOLATION_WINDOW
    ensures Play(PRODUCTION, v, 1, at) == View(v.entry, Some(Violation(1, at)), None)
    ensures PlayRecords(PRODUCTION, v, 1, at) == [at]
  {
    assert Play(PRODUCTION, v, 0, at) == v;
  }

  lemma DrainAndOne(log: seq<Event>, ip: string, cleaning: bool, first: nat, v: View, records: seq<nat>, at: nat)
    requires Stands(PRODUCTION, log, ip, cleaning, first, v, records)
    requires v.ban.None? && v.entry.bucket.last <= at && Credit(PRODUCTION, v.entry.bucket, at) == PRODUCTION.Cap()
    requires v.violation.Some? ==> at - v.violation.value.windowStart > BAN_VIOLATION_WINDOW
    ensures Stands(PRODUCTION, Extend(Extend(log, first, 10, ip, at), first + 10, 1, ip, at), ip, cleaning, first + 11,
                   View(Entry(Bucket(0, at), at), Some(Violation(1, at)), None), records + [at])
  {
    var w := v.(entry := Entry(Bucket(0, at), at));
    Drain(log, ip, cleaning, first, v, records, at);
    OpensWindow(w, at);
    VisitsPlay(PRODUCTION, Extend(log, first, 10, ip, at), ip, cleaning, first + 10, w, records, 1, at);
  }

  // Eight refusals more in the window.
  lemma EightMore(log: seq<Event>, ip: string, cleaning: bool, first: nat, v: View, records: seq<nat>, at: nat)
      returns (w: View)
    requires Stands(PRODUCTION, log, ip, cleaning, first, v, records)
    requires v.ban.None? && Credit(PRODUCTION, v.entry.bucket, at) < PRODUCTION.interval
    requires v.violation.Some? && v.violation.value.count == 1 && at - v.violation.value.windowStart <= BAN_VIOLATION_WINDOW
    ensures Stands(PRODUCTION, Extend(log, first, 8, ip, at), ip, cleaning, first + 8, w, records + Times(8, at))
    ensures w.violation == Some(v.violation.value.(count := 9)) && w.ban.None? && w.entry.bucket == v.entry.bucket
  {
    w := Play(PRODUCTION, v, 8, at);
    AllRefused(PRODUCTION, v, 8, at);
    VisitsPlay(PRODUCTION, log, ip, cleaning, first, v, records, 8, at);
  }

  // Both: nine refusals, on a bucket that is full first.
  lemma NineRefusals(log: seq<Event>, ip: string, cleaning: bool, first: nat, v: View, records: seq<nat>, at: nat, soon: nat)
      returns (w: View)
    requires Stands(PRODUCTION, log, ip, cleaning, first, v, records)
    requires v.ban.None? && v.entry.bucket.last <= at && Credit(PRODUCTION, v.entry.bucket, at) == PRODUCTION.Cap()
    requires v.violation.Some? ==> at - v.violation.value.windowStart > BAN_VIOLATION_WINDOW
    requires at <= soon <= at + 1
    ensures Stands(PRODUCTION, Extend(Extend(Extend(log, first, 10, ip, at), first + 10, 1, ip, at), first + 11, 8, ip, soon),
                   ip, cleaning, first + 19, w, records + [at] + Times(8, soon))
    ensures w.violation == Some(Violation(9, at)) && w.ban.None? && w.entry.bucket == Bucket(0, at)
  {
    assert PRODUCTION == Config(1_000_000_000, 10);
    DrainAndOne(log, ip, cleaning, first, v, records, at);
    w := EightMore(Extend(Extend(log, first, 10, ip, at), first + 10, 1, ip, at), ip, cleaning, first + 11,
                   View(Entry(Bucket(0, at), at), Some(Violation(1, at)), None), records + [at], soon);
  }

  lemma SpreadRecords(ip: string, cleaning: bool)
    ensures Records(PRODUCTION, Spread(ip), ip, cleaning) == SEVENTEEN
  {
    assert PRODUCTION == Config(1_000_000_000, 10);
    var untouched := View(Entry(Bucket(PRODUCTION.Cap(), 0), 0), None, None);
    var w := NineRefusals([], ip, cleaning, 0, untouched, [], 0, 1);
    assert [] + [0] + Times(8, 1) == [0] + Times(8, 1);
    var eight := Extend(Extend(Extend([], 0, 10, ip, 0), 10, 1, ip, 0), 11, 8, ip, 1);
    SecondNine(eight, ip, cleaning, w);
  }

  lemma SecondNine(log: seq<Event>, ip: string, cleaning: bool, w: View)
    requires Stands(PRODUCTION, log, ip, cleaning, 19, w, [0] + Times(8, 1))
    requires w.violation == Some(Violation(9, 0)) && w.ban.None? && w.entry.bucket == Bucket(0, 0)
    ensures Records(PRODUCTION, Extend(Extend(Extend(log, 19, 10, ip, LATER), 29, 1, ip, LATER), 30, 8, ip, LATER), ip, cleaning)
            == SEVENTEEN
  {
    assert PRODUCTION == Config(1_000_000_000, 10);
    var _ := NineRefusals(log, ip, cleaning, 19, w, [0] + Times(8, 1), LATER, LATER);
    assert [0] + Times(8, 1) + [LATER] + Times(8, LATER) == SEVENTEEN;
  }

  lemma {:induction false} RecordsGrow(cfg: Config, log: seq<Event>, ip: string, cleaning: bool, n: nat)
    requires n <= |log|
    ensures Records(cfg, log[..n], ip, cleaning) <= Records(cfg, log, ip, cleaning)
  {
    if n == |log| {
      assert log[..n] == log;
    } else {
      RecordsGrow(cfg, log[..|log| - 1], ip, cleaning, n);
      assert log[..|log| - 1][..n] == log[..n];
    }
  }

  // A run whose recorded times ban nowhere has no ban.
  lemma NoBan(cfg: Config, log: seq<Event>, ip: string, cleaning: bool, n: nat)
    requires Monotone(log) && n < |log|
    requires forall r | 0 <= r < |Records(cfg, log, ip, cleaning)| :: !BansAt(Records(cfg, log, ip, cleaning), r)
    ensures !Bans(Run(cfg, log[..n], cleaning), log[n], ip)
  {
    if Notes(Run(cfg, log[..n], cleaning), log[n], ip) {
      BanOfRun(cfg, log, ip, cleaning, n);
      RecordsGrow(cfg, log, ip, cleaning, n + 1);
      PrefixBans(Records(cfg, log[..n + 1], ip, cleaning), Records(cfg, log, ip, cleaning));
    }
  }

  lemma PrefixBans(ts: seq<nat>, all: seq<nat>)
    requires ts != [] && ts <= all && forall r | 0 <= r < |all| :: !BansAt(all, r)
    ensures !BansAt(ts, |ts| - 1)
  {
    assert ts[..|ts| - 1] == all[..|ts| - 1];
    assert !BansAt(all, |ts| - 1);
  }

  // 17 is the most: with the production limits these requests have 17 violations recorded within
  // a closed minute, and no ban at all.
  lemma SeventeenWithoutBan(ip: string, cleaning: bool)
    ensures Monotone(Spread(ip))
    ensures var ts := Records(PRODUCTION, Spread(ip), ip, cleaning);
            |ts| == 18 && ts[17] == ts[1] + BAN_VIOLATION_WINDOW
    ensures forall n | 0 <= n < |Spread(ip)| :: !Bans(Run(PRODUCTION, Spread(ip)[..n], cleaning), Spread(ip)[n], ip)
  {
    var log := Spread(ip);
    SpreadIsMonotone(ip);
    SpreadRecords(ip, cleaning);
    SeventeenBanNothing();
    forall n | 0 <= n < |log| ensures !Bans(Run(PRODUCTION, log[..n], cleaning), log[n], ip) {
      NoBan(PRODUCTION, log, ip, cleaning, n);
    }
  }

  // ---- when the cleaner shows -----------------------------------------------------------------------------------

  // Drain one bucket, clean as soon as the cleaner may evict it, ask for a full burst again.
  function Revealing(cfg: Config, ip: string): seq<Event> {
    Extend(Extend([], 0, cfg.burst, ip, 0) + [CleanUp(LIMITER_EXPIRY + 1)], cfg.burst, cfg.burst, ip, LIMITER_EXPIRY + 1)
  }

  lemma RevealingIsMonotone(cfg: Config, ip: string)
    ensures Monotone(Revealing(cfg, ip))
  {
    var at, drain := LIMITER_EXPIRY + 1, Extend([], 0, cfg.burst, ip, 0);
    ExtendIsMonotone([], 0, cfg.burst, ip, 0);
    LaterIsMonotone(drain, [CleanUp(at)], at);
    ExtendIsMonotone(drain + [CleanUp(at)], cfg.burst, cfg.burst, ip, at);
  }

  // A drained bucket is full again after the cleaner, and holds the time gone by without it.
  lemma AfterCleaning(cfg: Config, ip: string, cleaning: bool) returns (v: View)
    requires cfg.Cap() > LIMITER_EXPIRY + 1
    ensures Stands(cfg, Extend([], 0, cfg.burst, ip, 0) + [CleanUp(LIMITER_EXPIRY + 1)], ip, cleaning, cfg.burst, v, [])
    ensures v.ban.None? && v.entry.bucket.last <= LIMITER_EXPIRY + 1
    ensures Credit(cfg, v.entry.bucket, LIMITER_EXPIRY + 1) == if cleaning then cfg.Cap() else LIMITER_EXPIRY + 1
  {
    assert cfg.burst > 0 && cfg.burst * cfg.interval == cfg.Cap();
    var at, drain := LIMITER_EXPIRY + 1, Extend([], 0, cfg.burst, ip, 0);
    var untouched := View(Entry(Bucket(cfg.Cap(), 0), 0), None, None);
    VisitsPlay(cfg, [], ip, cleaning, 0, untouched, [], cfg.burst, 0);
    AllPass(cfg, untouched, cfg.burst, 0);
    assert [] + PlayRecords(cfg, untouched, cfg.burst, 0) == [];
    RunSnoc(cfg, drain, CleanUp(at), ip, cleaning);
    v := if cleaning then untouched else View(Entry(Bucket(0, 0), 0), None, None);
  }

  lemma RevealingOutcome(cfg: Config, ip: string, cleaning: bool)
    requires cfg.Cap() > LIMITER_EXPIRY + 1
    ensures var requests := Run(cfg, Revealing(cfg, ip), cleaning).requests;
            && 2 * cfg.burst > 0 && 2 * cfg.burst - 1 in requests
            && (requests[2 * cfg.burst - 1] == Request(ip, Answered(Passed)) <==> cleaning)
  {
    assert cfg.burst > 0 && cfg.burst * cfg.interval == cfg.Cap();
    var at := LIMITER_EXPIRY + 1;
    var v := AfterCleaning(cfg, ip, cleaning);
    VisitsPlay(cfg, Extend([], 0, cfg.burst, ip, 0) + [CleanUp(at)], ip, cleaning, cfg.burst, v, [], cfg.burst, at);
    if cleaning {
      AllPass(cfg, v, cfg.burst, at);
    } else {
      LastPassed(cfg, v, cfg.burst, at);
    }
  }

  // The cleaner is unobservable exactly when an empty bucket is full again by the time it may
  // be evicted.
  lemma CleanerInvisibleIff(cfg: Config)
    ensures cfg.Cap() <= LIMITER_EXPIRY + 1 <==>
            forall log | Monotone(log) :: Run(cfg, log, true).requests == Run(cfg, log, false).requests
  {
    if cfg.Cap() <= LIMITER_EXPIRY + 1 {
      forall log | Monotone(log) ensures Run(cfg, log, true).requests == Run(cfg, log, false).requests {
        CleanerInvisible(cfg, log);
      }
    } else {
      RevealingOutcome(cfg, "a", true);
      RevealingOutcome(cfg, "a", false);
      RevealingIsMonotone(cfg, "a");
    }
  }
}
