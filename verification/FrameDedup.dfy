// Skipping frames that look like the last one analysed: the fingerprint is stored before the
// analysis and taken back when that fails.
module FrameDedup {
  import opened Bits

  const FRAME_HASH_TTL: nat := 30 * 60 * 1_000_000_000
  const DUPLICATE_THRESHOLD: nat := 5

  datatype Fingerprint = Fingerprint(sha256: string, pHash: bv64, hasPHash: bool)

  datatype Entry = Entry(frame: Fingerprint, recordedAt: nat)

  type Hashes = map<string, Entry>

  // Strictly below the threshold when both frames have a perceptual hash, else equal digests.
  predicate Alike(a: Fingerprint, b: Fingerprint) {
    if a.hasPHash && b.hasPHash then HammingDistance(a.pHash, b.pHash) < DUPLICATE_THRESHOLD else a.sha256 == b.sha256
  }

  predicate IsDuplicate(hashes: Hashes, id: string, frame: Fingerprint, now: nat) {
    id in hashes && now - hashes[id].recordedAt <= FRAME_HASH_TTL && Alike(frame, hashes[id].frame)
  }

  function Checked(hashes: Hashes, id: string, frame: Fingerprint, now: nat): Hashes {
    if IsDuplicate(hashes, id, frame, now) then hashes else hashes[id := Entry(frame, now)]
  }

  // ---- calls in flight --------------------------------------------------------------------------------------

  // A call is skipped as a duplicate, or it has its fingerprint stored; then the analysis
  // succeeds, or something before it fails and the fingerprint is cleared.
  datatype Stage = Skipped | Stored | Faulted | Cleared | Analysed

  datatype Call = Call(session: string, frame: Fingerprint, stage: Stage)

  // A frame that was skipped, and the entry it was skipped against.
  datatype Skip = Skip(call: nat, frame: Fingerprint, against: Entry)

  datatype Step =
    | Check(call: nat, session: string, frame: Fingerprint, now: nat)
    | Fault(call: nat)              // no such session, or an error from the analysis
    | Clear(call: nat)
    | Succeed(call: nat)
    | CleanupSession(session: string)

  // writers names the call that stored each fingerprint.
  datatype State = State(hashes: Hashes, calls: map<nat, Call>, writers: map<string, nat>, skips: seq<Skip>)

  const START: State := State(map[], map[], map[], [])

  predicate Enabled(s: State, step: Step) {
    match step
    case Check(call, session, frame, now) => call !in s.calls
    case Fault(call) => call in s.calls && s.calls[call].stage == Stored
    case Clear(call) => call in s.calls && s.calls[call].stage == Faulted
    case Succeed(call) => call in s.calls && s.calls[call].stage == Stored
    case CleanupSession(session) => true
  }

  function MoveTo(s: State, call: nat, stage: Stage): State
    requires call in s.calls
  {
    s.(calls := s.calls[call := s.calls[call].(stage := stage)])
  }

  function Apply(s: State, step: Step): State
    requires Enabled(s, step)
  {
    match step
    case Check(call, session, frame, now) =>
      if IsDuplicate(s.hashes, session, frame, now) then
        s.(calls := s.calls[call := Call(session, frame, Skipped)], skips := s.skips + [Skip(call, frame, s.hashes[session])])
      else
        s.(hashes := s.hashes[session := Entry(frame, now)], calls := s.calls[call := Call(session, frame, Stored)],
           writers := s.writers[session := call])
    case Fault(call) => MoveTo(s, call, Faulted)
    case Clear(call) =>
      var session := s.calls[call].session;
      MoveTo(s, call, Cleared).(hashes := s.hashes - {session}, writers := s.writers - {session})
    case Succeed(call) => MoveTo(s, call, Analysed)
    case CleanupSession(session) => s.(hashes := s.hashes - {session}, writers := s.writers - {session})
  }

  // A run; a step that is not enabled does nothing.
  function Run(steps: seq<Step>): State {
    if steps == [] then START else
      var before, step := Run(steps[..|steps| - 1]), steps[|steps| - 1];
      if Enabled(before, step) then Apply(before, step) else before
  }

  // Whoever stored an entry has not cleared: it is still at work, or its analysis succeeded.
  ghost predicate OwnedWell(s: State) {
    && s.writers.Keys == s.hashes.Keys
    && forall id | id in s.hashes ::
         && s.writers[id] in s.calls
         && var owner := s.calls[s.writers[id]];
            owner.session == id && owner.frame == s.hashes[id].frame && owner.stage in {Stored, Faulted, Analysed}
  }

  ghost predicate SkipsAlike(s: State) {
    forall k | k in s.skips :: Alike(k.frame, k.against.frame)
  }

  lemma StepKeeps(s: State, step: Step)
    requires OwnedWell(s) && SkipsAlike(s) && Enabled(s, step)
    ensures OwnedWell(Apply(s, step)) && SkipsAlike(Apply(s, step))
  {
  }

  lemma {:induction false} RunKeeps(steps: seq<Step>)
    ensures OwnedWell(Run(steps)) && SkipsAlike(Run(steps))
  {
    if steps != [] {
      RunKeeps(steps[..|steps| - 1]);
      var before, step := Run(steps[..|steps| - 1]), steps[|steps| - 1];
      if Enabled(before, step) {
        StepKeeps(before, step);
      }
    }
  }

  // In every interleaving of any number of calls: once no call of a session is at work, the
  // fingerprint stored for it is that of a frame whose analysis succeeded.
  lemma StoredWasAnalysed(steps: seq<Step>, s: State, id: string)
    requires s == Run(steps) && id in s.hashes
    requires forall c | c in s.calls && s.calls[c].session == id :: s.calls[c].stage !in {Stored, Faulted}
    ensures exists c :: c in s.calls && s.calls[c] == Call(id, s.hashes[id].frame, Analysed)
  {
    RunKeeps(steps);
    var c := s.writers[id];
    assert s.calls[c] == Call(id, s.hashes[id].frame, Analysed);
  }

  // The step takes the fingerprint of a session away or puts another in its place: a frame that is
  // stored, the rollback of a call, or the end of the session.
  predicate Replaces(s: State, step: Step, id: string) {
    Enabled(s, step) &&
    match step
    case Check(call, session, frame, now) => session == id && Apply(s, step).calls[call].stage == Stored
    case Fault(call) => false
    case Clear(call) => s.calls[call].session == id
    case Succeed(call) => false
    case CleanupSession(session) => session == id
  }

  // No step of more does, in the run that starts with steps.
  ghost predicate Undisturbed(steps: seq<Step>, more: seq<Step>, id: string) {
    forall n | 0 <= n < |more| :: !Replaces(Run(steps + more[..n]), more[n], id)
  }

  lemma RunMore(steps: seq<Step>, more: seq<Step>)
    requires more != []
    ensures var before, step := Run(steps + more[..|more| - 1]), more[|more| - 1];
            Run(steps + more) == if Enabled(before, step) then Apply(before, step) else before
  {
    assert (steps + more)[..|steps + more| - 1] == steps + more[..|more| - 1];
  }

  lemma FewerUndisturbed(steps: seq<Step>, more: seq<Step>, id: string)
    requires more != [] && Undisturbed(steps, more, id)
    ensures Undisturbed(steps, more[..|more| - 1], id)
    ensures !Replaces(Run(steps + more[..|more| - 1]), more[|more| - 1], id)
  {
    var fewer := more[..|more| - 1];
    forall n | 0 <= n < |fewer| ensures !Replaces(Run(steps + fewer[..n]), fewer[n], id) {
      assert fewer[..n] == more[..n];
    }
  }

  // The skips of a session after the first n, with the entry they were skipped against.
  ghost predicate SkippedAgainst(s: State, n: nat, id: string, entry: Entry) {
    forall i | n <= i < |s.skips| && s.skips[i].call in s.calls && s.calls[s.skips[i].call].session == id ::
      s.skips[i].against == entry
  }

  ghost predicate SkipsKnown(s: State) {
    forall k | k in s.skips :: k.call in s.calls
  }

  lemma {:induction false} SkipsAreKnown(steps: seq<Step>)
    ensures SkipsKnown(Run(steps))
  {
    if steps != [] {
      SkipsAreKnown(steps[..|steps| - 1]);
    }
  }

  lemma UndisturbedStep(s: State, step: Step, n: nat, id: string)
    requires id in s.hashes && n <= |s.skips| && SkippedAgainst(s, n, id, s.hashes[id]) && SkipsKnown(s)
    requires Enabled(s, step) && !Replaces(s, step, id)
    ensures var t := Apply(s, step);
            && id in t.hashes && t.hashes[id] == s.hashes[id] && n <= |t.skips|
            && SkippedAgainst(t, n, id, s.hashes[id])
  {
    var t := Apply(s, step);
    forall i | n <= i < |t.skips| && t.skips[i].call in t.calls && t.calls[t.skips[i].call].session == id
      ensures t.skips[i].against == s.hashes[id]
    {
      if i < |s.skips| {
        assert s.skips[i] in s.skips;
      }
    }
  }

  // A stored fingerprint survives every stretch in which the session's frames are duplicates and
  // nothing is rolled back or cleaned up: skips never replace it, and all of them are against it.
  lemma {:induction false} SkipsReplaceNothing(steps: seq<Step>, more: seq<Step>, id: string)
    requires id in Run(steps).hashes && Undisturbed(steps, more, id)
    ensures var s, t := Run(steps), Run(steps + more);
            && id in t.hashes && t.hashes[id] == s.hashes[id] && |s.skips| <= |t.skips|
            && SkippedAgainst(t, |s.skips|, id, s.hashes[id])
  {
    if more == [] {
      assert steps + more == steps;
    } else {
      FewerUndisturbed(steps, more, id);
      SkipsReplaceNothing(steps, more[..|more| - 1], id);
      RunMore(steps, more);
      SkipsAreKnown(steps + more[..|more| - 1]);
      var before, step := Run(steps + more[..|more| - 1]), more[|more| - 1];
      if Enabled(before, step) {
        UndisturbedStep(before, step, |Run(steps).skips|, id);
      }
    }
  }

  // No drift: frames skipped against one entry, however many lie between them, are within a
  // distance of 8 of each other.
  lemma SkipsStayClose(steps: seq<Step>, s: State, a: Skip, b: Skip)
    requires s == Run(steps) && a in s.skips && b in s.skips && a.against == b.against
    requires a.frame.hasPHash && b.frame.hasPHash && a.against.frame.hasPHash
    ensures HammingDistance(a.frame.pHash, b.frame.pHash) <= 2 * (DUPLICATE_THRESHOLD - 1)
  {
    RunKeeps(steps);
    assert Alike(a.frame, a.against.frame) && Alike(b.frame, b.against.frame);
    var x, y, z := a.frame.pHash, a.against.frame.pHash, b.frame.pHash;
    HammingIsMetric(x, y, z);
    HammingIsMetric(z, y, z);
  }

  // So all frames skipped in such a stretch look alike, up to that distance.
  lemma NoDrift(steps: seq<Step>, more: seq<Step>, id: string, i: nat, j: nat)
    requires id in Run(steps).hashes && Undisturbed(steps, more, id)
    requires var s, t := Run(steps), Run(steps + more);
             && |s.skips| <= i < |t.skips| && |s.skips| <= j < |t.skips|
             && t.skips[i].call in t.calls && t.calls[t.skips[i].call].session == id
             && t.skips[j].call in t.calls && t.calls[t.skips[j].call].session == id
             && t.skips[i].frame.hasPHash && t.skips[j].frame.hasPHash && s.hashes[id].frame.hasPHash
    ensures var t := Run(steps + more);
            HammingDistance(t.skips[i].frame.pHash, t.skips[j].frame.pHash) <= 2 * (DUPLICATE_THRESHOLD - 1)
  {
    SkipsReplaceNothing(steps, more, id);
    var t := Run(steps + more);
    assert t.skips[i] in t.skips && t.skips[j] in t.skips;
    SkipsStayClose(steps + more, t, t.skips[i], t.skips[j]);
  }

  // What a check does, with the times and the likeness written out.
  lemma CheckIs(s: State, call: nat, id: string, frame: Fingerprint, now: nat)
    requires call !in s.calls && id in s.hashes
    ensures var stored := s.hashes[id];
            var alike := if frame.hasPHash && stored.frame.hasPHash then HammingDistance(frame.pHash, stored.frame.pHash) <= 4
                         else frame.sha256 == stored.frame.sha256;
            var skipped := now <= stored.recordedAt + 30 * 60 * 1_000_000_000 && alike;
            && Apply(s, Check(call, id, frame, now)).calls[call].stage == (if skipped then Skipped else Stored)
            && (Apply(s, Check(call, id, frame, now)).hashes == if skipped then s.hashes else s.hashes[id := Entry(frame, now)])
  {
  }

  lemma RunOneMore(steps: seq<Step>, step: Step)
    ensures Run(steps + [step]) == if Enabled(Run(steps), step) then Apply(Run(steps), step) else Run(steps)
  {
    assert (steps + [step])[..|steps|] == steps;
  }

  // The step before the stretch has stored a frame for the session.
  ghost predicate Stores(steps: seq<Step>, call: nat, id: string, frame: Fingerprint, at: nat) {
    call !in Run(steps).calls && Apply(Run(steps), Check(call, id, frame, at)).calls[call].stage == Stored
  }

  lemma StoredEntry(steps: seq<Step>, call: nat, id: string, frame: Fingerprint, at: nat)
    requires Stores(steps, call, id, frame, at)
    ensures var s := Run(steps + [Check(call, id, frame, at)]); id in s.hashes && s.hashes[id] == Entry(frame, at)
  {
    RunOneMore(steps, Check(call, id, frame, at));
  }

  // A frame stored at one time and left in place: a later frame of the session is skipped exactly
  // if it comes within 30 minutes and looks alike, by at most four bits of the perceptual hashes
  // or, where either frame lacks one, by equal digests; else it is stored in its turn.
  lemma SkippedIff(steps: seq<Step>, first: nat, id: string, frame: Fingerprint, t0: nat, more: seq<Step>,
                   call: nat, later: Fingerprint, t: nat)
    requires Stores(steps, first, id, frame, t0)
    requires Undisturbed(steps + [Check(first, id, frame, t0)], more, id)
    requires call !in Run(steps + [Check(first, id, frame, t0)] + more).calls
    ensures var s := Run(steps + [Check(first, id, frame, t0)] + more + [Check(call, id, later, t)]);
            && call in s.calls && s.calls[call].stage in {Skipped, Stored}
            && (s.calls[call].stage == Skipped <==>
                  && t <= t0 + 30 * 60 * 1_000_000_000
                  && (if later.hasPHash && frame.hasPHash then HammingDistance(later.pHash, frame.pHash) <= 4
                      else later.sha256 == frame.sha256))
  {
    var before := steps + [Check(first, id, frame, t0)];
    StoredEntry(steps, first, id, frame, t0);
    SkipsReplaceNothing(before, more, id);
    RunOneMore(before + more, Check(call, id, later, t));
    CheckIs(Run(before + more), call, id, later, t);
  }

  // A call that runs alone: skipped, analysed or rolled back, with this effect on the fingerprints.
  lemma WholeCall(s: State, call: nat, id: string, frame: Fingerprint, now: nat, analysed: bool)
    requires call !in s.calls
    ensures var checked := Apply(s, Check(call, id, frame, now));
            if IsDuplicate(s.hashes, id, frame, now) then
              checked.calls[call].stage == Skipped && checked.hashes == s.hashes
            else if analysed then
              Apply(checked, Succeed(call)).hashes == s.hashes[id := Entry(frame, now)]
            else
              Apply(Apply(checked, Fault(call)), Clear(call)).hashes == s.hashes - {id}
  {
    if !IsDuplicate(s.hashes, id, frame, now) {
      assert s.hashes[id := Entry(frame, now)] - {id} == s.hashes - {id};
    }
  }
}
