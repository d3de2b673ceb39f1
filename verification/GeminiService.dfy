// Calls to the AI backend: gated by the breaker, retried with a growing backoff.
module GeminiService {
  import opened Options
  import opened CircuitBreaker

  const MAX_RETRIES: nat := 3

  // What one HTTP request comes back with.
  datatype Reply = NoReply | Reply(status: int, body: string)

  predicate Accepted(r: Reply) {
    r.Reply? && 200 <= r.status < 300
  }

  predicate Retryable(r: Reply) {
    r.Reply? && !Accepted(r) && (r.status == 429 || r.status >= 500)
  }

  datatype RetryResult = Body(body: string) | Rejected | Cancelled | Exhausted

  // The wait after attempt i: one second, doubled each time.
  function Backoff(i: nat): nat {
    if i == 0 then SECOND else 2 * Backoff(i - 1)
  }

  // All the waits between n attempts.
  function Waits(n: nat): nat {
    if n <= 1 then 0 else Waits(n - 1) + Backoff(n - 2)
  }

  // The context ends during the wait after attempt i, some time before the timer fires.
  predicate CutShort(cancels: nat -> Option<nat>, i: nat) {
    cancels(i).Some? && cancels(i).value < Backoff(i)
  }

  // After attempt i comes another one.
  predicate GoesOn(replies: nat -> Reply, cancels: nat -> Option<nat>, i: nat) {
    Retryable(replies(i)) && !CutShort(cancels, i)
  }

  // How many requests a call sends.
  function RequestCount(replies: nat -> Reply, cancels: nat -> Option<nat>): nat {
    if !GoesOn(replies, cancels, 0) then 1 else if !GoesOn(replies, cancels, 1) then 2 else MAX_RETRIES
  }

  // The statuses that are worth another attempt: too many requests, and the server's errors.
  predicate AsksAgain(r: Reply) {
    match r
    case NoReply => false
    case Reply(status, body) => status == 429 || status >= 500
  }

  // Up to three attempts: on to the next only after a retryable reply and a full wait. replies
  // answers attempt i; cancels says when, if ever, the context ends during the wait after it.
  method DoWithRetry(replies: nat -> Reply, cancels: nat -> Option<nat>)
      returns (r: RetryResult, requests: nat, waited: nat)
    ensures 1 <= requests <= MAX_RETRIES && requests == RequestCount(replies, cancels)
    ensures forall i: nat | i < requests - 1 :: GoesOn(replies, cancels, i)
    ensures r.Body? <==> Accepted(replies(requests - 1))
    ensures r.Body? ==> r.body == replies(requests - 1).body
    ensures r.Rejected? <==> !Accepted(replies(requests - 1)) && !Retryable(replies(requests - 1))
    ensures r.Exhausted? <==> requests == MAX_RETRIES && Retryable(replies(requests - 1))
    ensures r.Cancelled? ==> CutShort(cancels, requests - 1)
    ensures waited == Waits(requests) + if r.Cancelled? then cancels(requests - 1).value else 0
    ensures waited <= 3 * SECOND
    ensures forall i: nat | i < requests - 1 :: AsksAgain(replies(i))
    ensures r.Body? <==> replies(requests - 1).Reply? && 200 <= replies(requests - 1).status <= 299
    ensures r.Cancelled? || r.Exhausted? <==> AsksAgain(replies(requests - 1))
    ensures requests >= 2 ==> cancels(0).None? || cancels(0).value >= SECOND
    ensures requests == 3 ==> cancels(1).None? || cancels(1).value >= 2 * SECOND
    ensures r.Cancelled? ==> requests < 3 && cancels(requests - 1).Some? && cancels(requests - 1).value < requests * SECOND
    ensures !r.Cancelled? ==> waited == if requests == 1 then 0 else if requests == 2 then SECOND else 3 * SECOND
  {
    var backoff := SECOND;
    waited := 0;
    for attempt := 0 to MAX_RETRIES
      invariant attempt < MAX_RETRIES ==> backoff == Backoff(attempt)
      invariant attempt < MAX_RETRIES ==> waited == Waits(attempt + 1)
      invariant attempt == MAX_RETRIES ==> waited == Waits(MAX_RETRIES) && Retryable(replies(MAX_RETRIES - 1))
      invariant forall i: nat | i < attempt && i < MAX_RETRIES - 1 :: GoesOn(replies, cancels, i)
    {
      var reply := replies(attempt);
      if Accepted(reply) {
        return Body(reply.body), attempt + 1, waited;
      }
      if !Retryable(reply) {
        return Rejected, attempt + 1, waited;
      }
      if attempt < MAX_RETRIES - 1 {
        var cancel := cancels(attempt);
        if cancel.Some? && cancel.value < backoff {
          return Cancelled, attempt + 1, waited + cancel.value;
        }
        waited, backoff := waited + backoff, 2 * backoff;
      }
    }
    return Exhausted, MAX_RETRIES, waited;
  }

  // ---- one call ---------------------------------------------------------------------------------------------

  datatype Answer = Unavailable | NotGranted | Error | Analysis(body: string)

  class GeminiService {
    const cb: CircuitBreaker

    constructor ()
      ensures cb.Valid() && cb.log == [] && fresh(cb)
    {
      cb := new CircuitBreaker();
    }

    // A call on the direct path that asks the breaker at time at. granted is the rate limiter's
    // answer, parses that of the response parser, done the time the outcome is known. Only a
    // call that gets past breaker and limiter sends requests, and only such a call is recorded.
    method AnalyzeFrame(at: nat, granted: bool, replies: nat -> Reply, cancels: nat -> Option<nat>,
                        parses: string -> bool, done: nat) returns (answer: Answer, requests: nat)
      requires cb.Valid()
      modifies cb
      ensures cb.Valid()
      ensures answer.Unavailable? <==> IsOpenAt(old(cb.log), at)
      ensures answer.NotGranted? <==> !IsOpenAt(old(cb.log), at) && !granted
      ensures answer.Unavailable? || answer.NotGranted? ==> requests == 0 && cb.log == old(cb.log)
      ensures !answer.Unavailable? && !answer.NotGranted? ==> requests == RequestCount(replies, cancels)
      ensures !answer.Unavailable? && !answer.NotGranted? ==>
                (answer == var last := replies(RequestCount(replies, cancels) - 1);
                           if Accepted(last) && parses(last.body) then Analysis(last.body) else Error)
      ensures answer.Error? ==> cb.log == old(cb.log) + [Failure(done)]
      ensures answer.Analysis? ==> cb.log == old(cb.log) + [Success(done)]
    {
      requests := 0;
      var open := cb.IsOpen(at);
      if open {
        return Unavailable, 0;
      }
      if !granted {
        return NotGranted, 0;
      }
      var r, waited;
      r, requests, waited := DoWithRetry(replies, cancels);
      if r.Body? && parses(r.body) {
        cb.RecordSuccess(done);
        return Analysis(r.body), requests;
      }
      cb.RecordFailure(done);
      return Error, requests;
    }
  }

  // ---- any interleaving of checks and outcomes --------------------------------------------------------------

  // What happens at the breaker: a call is let through, or the outcome of one is recorded.
  datatype Event = Admitted(at: nat) | Recorded(outcome: Outcome)

  function TimeOf(e: Event): nat {
    if e.Admitted? then e.at else e.outcome.at
  }

  function OutcomesOf(events: seq<Event>): seq<Outcome> {
    if events == [] then [] else
      var before, last := OutcomesOf(events[..|events| - 1]), events[|events| - 1];
      if last.Recorded? then before + [last.outcome] else before
  }

  // The clock runs forward and the breaker lets calls through only while it is not open.
  ghost predicate IsRun(events: seq<Event>) {
    && (forall i, j | 0 <= i <= j < |events| :: TimeOf(events[i]) <= TimeOf(events[j]))
    && (forall i | 0 <= i < |events| && events[i].Admitted? :: !IsOpenAt(OutcomesOf(events[..i]), events[i].at))
  }

  // The breaker is tripped and stays so until time t at least.
  ghost predicate TrippedTill(log: seq<Outcome>, t: nat) {
    OpenUntil(log).Some? && OpenUntil(log).value >= t
  }

  lemma FailureKeepsTripped(log: seq<Outcome>, o: Outcome, t: nat)
    requires TrippedTill(log, t) && o.Failure? && o.at + TIMEOUT >= t
    ensures TrippedTill(log + [o], t)
  {
    assert (log + [o])[..|log|] == log;
  }

  lemma OutcomesSplit(events: seq<Event>, j: nat)
    requires 0 < j <= |events|
    ensures OutcomesOf(events[..j]) ==
            if events[j - 1].Recorded? then OutcomesOf(events[..j - 1]) + [events[j - 1].outcome]
            else OutcomesOf(events[..j - 1])
  {
    assert events[..j][..j - 1] == events[..j - 1];
  }

  lemma {:induction false} StaysTripped(events: seq<Event>, i: nat, j: nat, t: nat)
    requires IsRun(events) && i < j <= |events|
    requires TrippedTill(OutcomesOf(events[..i + 1]), t) && t <= TimeOf(events[i]) + TIMEOUT
    requires forall k | i < k < j :: !(events[k].Recorded? && events[k].outcome.Success?)
    ensures TrippedTill(OutcomesOf(events[..j]), t)
  {
    if i + 1 < j {
      StaysTripped(events, i, j - 1, t);
      OutcomesSplit(events, j);
      if events[j - 1].Recorded? {
        assert TimeOf(events[i]) <= TimeOf(events[j - 1]);
        FailureKeepsTripped(OutcomesOf(events[..j - 1]), events[j - 1].outcome, t);
      }
    }
  }

  lemma TripsAt(events: seq<Event>, i: nat)
    requires i < |events| && events[i].Recorded? && TrailingFailures(OutcomesOf(events[..i + 1])) >= THRESHOLD
    ensures TrippedTill(OutcomesOf(events[..i + 1]), events[i].outcome.at + TIMEOUT)
  {
    OutcomesSplit(events, i + 1);
  }

  // However calls overlap: from the fifth failure in a row on, nothing is let through for thirty
  // seconds, unless a call that was already under way reports success in between.
  lemma NothingAdmittedWhileOpen(events: seq<Event>, i: nat, j: nat)
    requires IsRun(events) && i < j < |events| && events[j].Admitted?
    requires events[i].Recorded? && events[i].outcome.Failure?
    requires TrailingFailures(OutcomesOf(events[..i + 1])) >= THRESHOLD
    requires events[j].at < events[i].outcome.at + TIMEOUT
    ensures exists k :: i < k < j && events[k].Recorded? && events[k].outcome.Success?
  {
    assert !IsOpenAt(OutcomesOf(events[..j]), events[j].at);
    if forall k | i < k < j :: !(events[k].Recorded? && events[k].outcome.Success?) {
      TripsAt(events, i);
      StaysTripped(events, i, j, events[i].outcome.at + TIMEOUT);
      assert false;
    }
  }

  // The failures recorded among events i to j - 1.
  ghost function FailuresBetween(events: seq<Event>, i: nat, j: nat): set<nat> {
    set k: nat | i <= k < j && k < |events| && events[k].Recorded? && events[k].outcome.Failure?
  }

  ghost predicate SuccessBetween(events: seq<Event>, i: nat, j: nat) {
    exists k :: i <= k < j && k < |events| && events[k].Recorded? && events[k].outcome.Success?
  }

  lemma OneEventMore(events: seq<Event>, i: nat, j: nat)
    requires i < j <= |events|
    ensures FailuresBetween(events, i, j) ==
            FailuresBetween(events, i, j - 1)
            + if events[j - 1].Recorded? && events[j - 1].outcome.Failure? then {j - 1} else {}
  {
  }

  // Without a success in between, the failures in a row are those before and those recorded since.
  lemma {:induction false} FailuresAddUp(events: seq<Event>, i: nat, j: nat)
    requires i <= j <= |events| && !SuccessBetween(events, i, j)
    ensures TrailingFailures(OutcomesOf(events[..j])) ==
            TrailingFailures(OutcomesOf(events[..i])) + |FailuresBetween(events, i, j)|
  {
    if i == j {
      assert FailuresBetween(events, i, j) == {};
    } else {
      FailuresAddUp(events, i, j - 1);
      OutcomesSplit(events, j);
      OneEventMore(events, i, j);
      if events[j - 1].Recorded? {
        var log := OutcomesOf(events[..j - 1]);
        assert events[j - 1].outcome.Failure?;
        assert (log + [events[j - 1].outcome])[..|log|] == log;
      }
    }
  }

  lemma SuccessEndsRow(events: seq<Event>, k: nat)
    requires k < |events| && events[k].Recorded? && events[k].outcome.Success?
    ensures TrailingFailures(OutcomesOf(events[..k + 1])) == 0
  {
    OutcomesSplit(events, k + 1);
  }

  // After a recorded success a call is let through at any time, until five failures have been
  // recorded since.
  lemma AdmissibleAfterSuccess(events: seq<Event>, k: nat, at: nat)
    requires IsRun(events) && k < |events| && events[k].Recorded? && events[k].outcome.Success?
    requires |FailuresBetween(events, k, |events|)| < 5 && !SuccessBetween(events, k + 1, |events|)
    requires TimeOf(events[|events| - 1]) <= at
    ensures IsRun(events + [Admitted(at)])
  {
    var n := |events|;
    SuccessEndsRow(events, k);
    FailuresAddUp(events, k + 1, n);
    assert FailuresBetween(events, k, n) == FailuresBetween(events, k + 1, n);
    assert events[..n] == events;
    AdmitMore(events, at);
  }

  lemma AdmitMore(events: seq<Event>, at: nat)
    requires IsRun(events) && (events != [] ==> TimeOf(events[|events| - 1]) <= at) && !IsOpenAt(OutcomesOf(events), at)
    ensures IsRun(events + [Admitted(at)])
  {
    var longer := events + [Admitted(at)];
    assert longer[..|events|] == events;
    assert forall i | 0 <= i < |events| :: longer[..i] == events[..i];
    forall i, j | 0 <= i <= j < |longer| ensures TimeOf(longer[i]) <= TimeOf(longer[j]) {
      if i < j == |events| {
        assert TimeOf(events[i]) <= TimeOf(events[|events| - 1]);
      }
    }
  }

  // And from the fifth failure without a success on nothing is, for 30 s.
  lemma NothingAfterFiveFailures(events: seq<Event>, h: nat, i: nat, j: nat)
    requires IsRun(events) && h <= i < j < |events| && events[j].Admitted?
    requires events[i].Recorded? && events[i].outcome.Failure?
    requires |FailuresBetween(events, h, i + 1)| >= 5 && !SuccessBetween(events, h, i + 1)
    requires events[j].at < events[i].outcome.at + 30 * SECOND
    ensures SuccessBetween(events, i + 1, j)
  {
    FailuresAddUp(events, h, i + 1);
    NothingAdmittedWhileOpen(events, i, j);
  }

  // There is no single probe after a cooldown: once one call is let through, so is every later
  // one until an outcome is recorded.
  lemma EveryCallerProbes(events: seq<Event>, at: nat)
    requires IsRun(events) && events != [] && events[|events| - 1].Admitted? && events[|events| - 1].at <= at
    ensures IsRun(events + [Admitted(at)])
  {
    var n := |events|;
    var longer := events + [Admitted(at)];
    assert longer[..n] == events;
    OutcomesSplit(longer, n);
    assert forall i | 0 <= i < n :: longer[..i] == events[..i];
    assert !IsOpenAt(OutcomesOf(events[..n - 1]), events[n - 1].at);
  }

  // ---- the load while the backend is down ---------------------------------------------------------------------

  // A call that asks the breaker at time at; if it is let through and granted by the limiter, it
  // sends some requests and fails at time done.
  datatype Attempt = Attempt(at: nat, granted: bool, requests: nat, done: nat)

  // The failures recorded and the calls that reached the backend.
  datatype Load = Load(log: seq<Outcome>, upstream: seq<Attempt>)

  function Offer(load: Load, a: Attempt): Load {
    if IsOpenAt(load.log, a.at) || !a.granted then load
    else Load(load.log + [Failure(a.done)], load.upstream + [a])
  }

  function Run(attempts: seq<Attempt>): Load {
    if attempts == [] then Load([], []) else Offer(Run(attempts[..|attempts| - 1]), attempts[|attempts| - 1])
  }

  // One caller after the other.
  ghost predicate Sequential(attempts: seq<Attempt>) {
    && (forall i | 0 <= i < |attempts| :: attempts[i].at <= attempts[i].done && 1 <= attempts[i].requests <= MAX_RETRIES)
    && (forall i, j | 0 <= i < j < |attempts| :: attempts[i].done <= attempts[j].at)
  }

  // A call to the service at time at, with what it will meet.
  datatype Call = Call(at: nat, granted: bool, replies: nat -> Reply, cancels: nat -> Option<nat>, done: nat)

  function AttemptOf(c: Call): Attempt {
    Attempt(c.at, c.granted, RequestCount(c.replies, c.cancels), c.done)
  }

  function AttemptsOf(calls: seq<Call>): seq<Attempt> {
    seq(|calls|, i requires 0 <= i < |calls| => AttemptOf(calls[i]))
  }

  lemma RunOneMore(attempts: seq<Attempt>, a: Attempt)
    ensures Run(attempts + [a]) == Offer(Run(attempts), a)
  {
    assert (attempts + [a])[..|attempts|] == attempts;
  }

  function Requests(upstream: seq<Attempt>): nat {
    if upstream == [] then 0 else Requests(upstream[..|upstream| - 1]) + upstream[|upstream| - 1].requests
  }

  lemma RequestsOneMore(upstream: seq<Attempt>, a: Attempt)
    ensures Requests(upstream + [a]) == Requests(upstream) + a.requests
  {
    assert (upstream + [a])[..|upstream|] == upstream;
  }

  lemma AttemptsNext(calls: seq<Call>, i: nat)
    requires i < |calls|
    ensures Run(AttemptsOf(calls[..i + 1])) == Offer(Run(AttemptsOf(calls[..i])), AttemptOf(calls[i]))
  {
    assert AttemptsOf(calls[..i + 1]) == AttemptsOf(calls[..i]) + [AttemptOf(calls[i])];
    RunOneMore(AttemptsOf(calls[..i]), AttemptOf(calls[i]));
  }

  // One call that no answer can satisfy, from a state of the run.
  method FailingCall(svc: GeminiService, c: Call, ghost load: Load) returns (sent: nat)
    requires svc.cb.Valid() && svc.cb.log == load.log
    modifies svc.cb
    ensures svc.cb.Valid() && svc.cb.log == Offer(load, AttemptOf(c)).log
    ensures Requests(Offer(load, AttemptOf(c)).upstream) == Requests(load.upstream) + sent
  {
    RequestsOneMore(load.upstream, AttemptOf(c));
    var _, requests := svc.AnalyzeFrame(c.at, c.granted, c.replies, c.cancels, _ => false, c.done);
    sent := requests;
  }

  // While no answer is of any use, the calls of a new service are the run of their attempts: its
  // breaker records what the run records, and it sends the requests of the upstream calls.
  method Outage(svc: GeminiService, calls: seq<Call>) returns (requests: nat)
    requires svc.cb.Valid() && svc.cb.log == []
    modifies svc.cb
    ensures svc.cb.Valid() && svc.cb.log == Run(AttemptsOf(calls)).log
    ensures requests == Requests(Run(AttemptsOf(calls)).upstream)
  {
    requests := 0;
    ghost var load := Load([], []);
    for i := 0 to |calls|
      invariant svc.cb.Valid() && load == Run(AttemptsOf(calls[..i]))
      invariant svc.cb.log == load.log && requests == Requests(load.upstream)
    {
      AttemptsNext(calls, i);
      var sent := FailingCall(svc, calls[i], load);
      load := Offer(load, AttemptOf(calls[i]));
      requests := requests + sent;
    }
    assert calls[..|calls|] == calls;
  }

  // Every recorded outcome is the failure of one upstream call, so all of them trail.
  ghost predicate AllFailed(load: Load) {
    && |load.log| == |load.upstream| == TrailingFailures(load.log)
    && forall i | 0 <= i < |load.log| :: load.log[i] == Failure(load.upstream[i].done)
  }

  // Each call after the fifth comes a full timeout after the one before it.
  ghost predicate Late(upstream: seq<Attempt>) {
    && (forall i | 0 <= i < |upstream| :: upstream[0].at <= upstream[i].at <= upstream[i].done)
    && (forall i | THRESHOLD <= i < |upstream| :: upstream[i].at >= upstream[0].at + (i + 1 - THRESHOLD) * TIMEOUT)
  }

  ghost predicate Spaced(load: Load) {
    AllFailed(load) && Late(load.upstream)
  }

  lemma {:induction false} RunIsSpaced(attempts: seq<Attempt>)
    requires Sequential(attempts)
    ensures Spaced(Run(attempts)) && forall a | a in Run(attempts).upstream :: a in attempts
  {
    if attempts != [] {
      var prefix, a := attempts[..|attempts| - 1], attempts[|attempts| - 1];
      RunIsSpaced(prefix);
      var load := Run(prefix);
      forall u | u in load.upstream ensures u.done <= a.at {
        var i :| 0 <= i < |prefix| && prefix[i] == u;
        assert attempts[i] == u;
      }
      OfferIsSpaced(load, a);
    }
  }

  lemma OfferFails(load: Load, a: Attempt)
    requires AllFailed(load)
    ensures AllFailed(Offer(load, a))
  {
    assert (load.log + [Failure(a.done)])[..|load.log|] == load.log;
  }

  lemma OneMoreIsLate(upstream: seq<Attempt>, a: Attempt)
    requires Late(upstream) && a.at <= a.done && (upstream != [] ==> upstream[0].done <= a.at)
    requires |upstream| >= THRESHOLD ==> a.at >= upstream[|upstream| - 1].done + TIMEOUT
    ensures Late(upstream + [a])
  {
  }

  lemma OfferIsSpaced(load: Load, a: Attempt)
    requires Spaced(load) && a.at <= a.done && forall u | u in load.upstream :: u.done <= a.at
    ensures Spaced(Offer(load, a))
  {
    OfferFails(load, a);
    if !IsOpenAt(load.log, a.at) {
      assert load.upstream != [] ==> load.upstream[0] in load.upstream;
      OneMoreIsLate(load.upstream, a);
    }
  }

  lemma LateBound(upstream: seq<Attempt>, within: nat)
    requires Late(upstream) && (upstream != [] ==> upstream[|upstream| - 1].at <= upstream[0].at + within)
    ensures |upstream| <= THRESHOLD + within / TIMEOUT
  {
    if |upstream| > THRESHOLD {
      Quotient(|upstream| - THRESHOLD, within);
    }
  }

  // With the backend down from the start and one caller after the other, at most 5 + T/30s calls
  // reach it within T of the first.
  lemma LoadBound(attempts: seq<Attempt>, within: nat)
    requires Sequential(attempts)
    requires forall a | a in Run(attempts).upstream :: a.at <= Run(attempts).upstream[0].at + within
    ensures |Run(attempts).upstream| <= THRESHOLD + within / TIMEOUT
  {
    RunIsSpaced(attempts);
    LateBound(Run(attempts).upstream, within);
  }

  lemma Quotient(k: nat, within: nat)
    requires k * TIMEOUT <= within
    ensures k <= within / TIMEOUT
  {
  }

  lemma {:induction false} RequestsBound(upstream: seq<Attempt>)
    requires forall a | a in upstream :: a.requests <= MAX_RETRIES
    ensures Requests(upstream) <= MAX_RETRIES * |upstream|
  {
    if upstream != [] {
      assert upstream[|upstream| - 1] in upstream && forall a | a in upstream[..|upstream| - 1] :: a in upstream;
      RequestsBound(upstream[..|upstream| - 1]);
    }
  }

  // And three times as many HTTP requests.
  lemma RequestLoadBound(attempts: seq<Attempt>, within: nat)
    requires Sequential(attempts)
    requires forall a | a in Run(attempts).upstream :: a.at <= Run(attempts).upstream[0].at + within
    ensures Requests(Run(attempts).upstream) <= MAX_RETRIES * (THRESHOLD + within / TIMEOUT)
  {
    RunIsSpaced(attempts);
    forall a | a in Run(attempts).upstream ensures a.requests <= MAX_RETRIES {
      var i :| 0 <= i < |attempts| && attempts[i] == a;
    }
    RequestsBound(Run(attempts).upstream);
    LoadBound(attempts, within);
  }

  // When n calls can be made at the earliest: five at once, then one at the end of each cooldown.
  function Earliest(i: nat): nat {
    if i < THRESHOLD then 0 else (i + 1 - THRESHOLD) * TIMEOUT
  }

  function Hammer(n: nat): seq<Attempt> {
    seq(n, i requires 0 <= i < n => Attempt(Earliest(i), true, MAX_RETRIES, Earliest(i)))
  }

  lemma EarliestGrows(i: nat, j: nat)
    requires i <= j
    ensures Earliest(i) <= Earliest(j)
  {
  }

  lemma HammerIsSequential(n: nat)
    ensures Sequential(Hammer(n))
  {
    forall i, j | 0 <= i < j < n ensures Hammer(n)[i].done <= Hammer(n)[j].at {
      EarliestGrows(i, j);
    }
  }

  lemma HammerGetsThrough(load: Load, n: nat)
    requires Spaced(load) && load.upstream == Hammer(n)
    ensures !IsOpenAt(load.log, Earliest(n))
  {
    if n >= THRESHOLD {
      assert load.log[n - 1] == Failure(Earliest(n - 1));
    }
  }

  lemma HammerGrows(n: nat)
    requires n > 0 && Run(Hammer(n - 1)).upstream == Hammer(n - 1)
    ensures Run(Hammer(n)).upstream == Hammer(n)
  {
    var prefix, at := Hammer(n - 1), Earliest(n - 1);
    var a := Attempt(at, true, MAX_RETRIES, at);
    assert Hammer(n) == prefix + [a];
    HammerIsSequential(n - 1);
    RunIsSpaced(prefix);
    HammerGetsThrough(Run(prefix), n - 1);
    RunOneMore(prefix, a);
  }

  // The bound is attained, whatever the number of cooldowns: every one of these calls gets through.
  lemma {:induction false} LoadBoundIsSharp(n: nat)
    ensures Sequential(Hammer(n)) && Run(Hammer(n)).upstream == Hammer(n)
  {
    HammerIsSequential(n);
    if n > 0 {
      LoadBoundIsSharp(n - 1);
      HammerGrows(n);
    }
  }
}
