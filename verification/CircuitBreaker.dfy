// The breaker in front of the AI backend, and the calls it lets through.
module CircuitBreaker {
  import opened Options

  const SECOND: nat := 1_000_000_000
  const THRESHOLD: nat := 5
  const TIMEOUT: nat := 30 * SECOND

  datatype Outcome = Success(at: nat) | Failure(at: nat)

  // ---- the state, from the recorded outcomes ------------------------------------------------------------

  // The failures since the last success.
  function TrailingFailures(log: seq<Outcome>): nat {
    if log == [] || log[|log| - 1].Success? then 0 else 1 + TrailingFailures(log[..|log| - 1])
  }

  // Closed below the threshold, else open for the timeout from the last outcome on, a failure.
  function OpenUntil(log: seq<Outcome>): Option<nat> {
    if TrailingFailures(log) < THRESHOLD then None else Some(log[|log| - 1].at + TIMEOUT)
  }

  predicate IsOpenAt(log: seq<Outcome>, now: nat) {
    OpenUntil(log).Some? && now < OpenUntil(log).value
  }

  // The trailing failures are all failures, and what comes before them is a success.
  lemma {:induction false} TrailingFailuresAre(log: seq<Outcome>)
    ensures var n := TrailingFailures(log);
            && n <= |log| && (forall i | |log| - n <= i < |log| :: log[i].Failure?)
            && (n < |log| ==> log[|log| - n - 1].Success?)
  {
    if log != [] && log[|log| - 1].Failure? {
      TrailingFailuresAre(log[..|log| - 1]);
    }
  }

  // Open means: the last five outcomes are failures, the last of them less than 30 s ago.
  lemma OpenIff(log: seq<Outcome>, now: nat)
    ensures IsOpenAt(log, now) <==>
            && |log| >= 5 && (forall i | |log| - 5 <= i < |log| :: log[i].Failure?)
            && now < log[|log| - 1].at + 30 * SECOND
  {
    var n := TrailingFailures(log);
    TrailingFailuresAre(log);
    if |log| >= 5 && n < 5 {
      assert log[|log| - n - 1].Success?;
    }
  }

  class CircuitBreaker {
    var consecutiveErrs: nat
    var openUntil: Option<nat>
    ghost var log: seq<Outcome>

    ghost predicate Valid()
      reads this
    {
      consecutiveErrs == TrailingFailures(log) && openUntil == OpenUntil(log)
    }

    constructor ()
      ensures Valid() && log == []
    {
      consecutiveErrs, openUntil, log := 0, None, [];
    }

    method IsOpen(now: nat) returns (open: bool)
      requires Valid()
      ensures open == IsOpenAt(log, now)
      ensures open <==> |log| >= 5 && (forall i | |log| - 5 <= i < |log| :: log[i].Failure?)
                        && now < log[|log| - 1].at + 30 * SECOND
    {
      OpenIff(log, now);
      return openUntil.Some? && now < openUntil.value;
    }

    method RecordSuccess(now: nat)
      requires Valid()
      modifies this
      ensures Valid() && log == old(log) + [Success(now)]
      ensures consecutiveErrs == 0 && openUntil.None? && forall t: nat :: !IsOpenAt(log, t)
    {
      log := log + [Success(now)];
      consecutiveErrs, openUntil := 0, None;
    }

    method RecordFailure(now: nat)
      requires Valid()
      modifies this
      ensures Valid() && log == old(log) + [Failure(now)]
      ensures consecutiveErrs == old(consecutiveErrs) + 1
      ensures openUntil == if consecutiveErrs >= 5 then Some(now + 30 * SECOND) else old(openUntil)
    {
      assert (log + [Failure(now)])[..|log|] == log;
      log := log + [Failure(now)];
      consecutiveErrs := consecutiveErrs + 1;
      if consecutiveErrs >= THRESHOLD {
        openUntil := Some(now + TIMEOUT);
      }
    }
  }
}
