// Analysing one camera frame: dedup check, conversation history, the AI call, the rollback.
module ConversationService {
  import opened Options
  import opened Slices
  import opened SessionService
  import opened SessionRuns
  import opened Bits
  import opened FrameDedup

  // What the AI backend answers, or that it failed.
  datatype AIResponse = AIResponse(analysis: string, problem: Option<string>, instruction: string)

  datatype FrameResult =
    | Duplicate                                              // skipped: no result and no error
    | Failed
    | Answered(text: string, current: int, total: int)

  function ResponseText(response: AIResponse): string {
    response.analysis + "\n\n" + response.instruction
  }

  // The message log after the user's text, if any, has been recorded.
  function WithUserText(logs: Logs, id: string, userText: string, now: nat): Logs {
    if userText == "" then logs else Logged(logs, id, Message("user", userText, now, false))
  }

  // The log after a frame that was no duplicate: the user's text stays when the analysis fails,
  // and all goes with a session that is dropped meanwhile.
  function LogsAfterFrame(logs: Logs, id: string, userText: string, analysis: Option<AIResponse>, dropped: bool, now: nat): Logs {
    var asked := WithUserText(logs, id, userText, now);
    if analysis.None? then asked
    else if dropped then asked - {id}
    else Logged(asked, id, Message("assistant", ResponseText(analysis.value), now, false))
  }

  lemma QuestionIsLogged(logs: Logs, id: string, userText: string, now: nat)
    requires id in logs
    ensures WithUserText(logs, id, userText, now) ==
            logs[id := logs[id] + if userText == "" then [] else [Message("user", userText, now, false)]]
  {
    if userText == "" {
      assert logs[id] + [] == logs[id];
    }
  }

  // What a frame that is no duplicate leaves in the logs. Answered: the question, if there is one,
  // and the answer. Else with no such session nothing, with no analysis the question, and with a
  // session dropped after it none of its messages.
  ghost predicate TurnLogged(before: Logs, after: Logs, id: string, userText: string, ai: Option<AIResponse>,
                             answered: bool, now: nat) {
    if id !in before then after == before && !answered
    else
      var asked := before[id] + if userText == "" then [] else [Message("user", userText, now, false)];
      if ai.None? then after == before[id := asked] && !answered
      else if !answered then after == before - {id}
      else after == before[id := asked + [Message("assistant", ai.value.analysis + "\n\n" + ai.value.instruction, now, false)]]
  }

  lemma TurnIsLogged(logs: Logs, id: string, userText: string, ai: Option<AIResponse>, dropped: bool, now: nat)
    ensures var analysed := id in logs && ai.Some?;
            TurnLogged(logs, LogsAfterFrame(logs, id, userText, if analysed then ai else None, dropped, now),
                       id, userText, ai, analysed && !dropped, now)
  {
    if id in logs {
      QuestionIsLogged(logs, id, userText, now);
    }
  }

  class ConversationService {
    const sessions: SessionService
    var frameHashes: Hashes

    constructor (sessions: SessionService)
      ensures frameHashes == map[] && this.sessions == sessions
    {
      this.sessions := sessions;
      frameHashes := map[];
    }

    // True for a frame like the last one of the session; else its fingerprint is stored.
    method CheckAndStoreFrameHash(id: string, frame: Fingerprint, now: nat) returns (duplicate: bool)
      modifies this
      ensures duplicate == IsDuplicate(old(frameHashes), id, frame, now)
      ensures frameHashes == Checked(old(frameHashes), id, frame, now)
      ensures duplicate <==>
                && id in old(frameHashes) && now <= old(frameHashes)[id].recordedAt + 30 * 60 * 1_000_000_000
                && (if frame.hasPHash && old(frameHashes)[id].frame.hasPHash
                    then HammingDistance(frame.pHash, old(frameHashes)[id].frame.pHash) <= 4
                    else frame.sha256 == old(frameHashes)[id].frame.sha256)
      ensures frameHashes == if duplicate then old(frameHashes) else old(frameHashes)[id := Entry(frame, now)]
    {
      if id in frameHashes {
        var entry := frameHashes[id];
        if now - entry.recordedAt <= FRAME_HASH_TTL {
          var isDup;
          if frame.hasPHash && entry.frame.hasPHash {
            isDup := HammingDistance(frame.pHash, entry.frame.pHash) < DUPLICATE_THRESHOLD;
          } else {
            isDup := frame.sha256 == entry.frame.sha256;
          }
          if isDup {
            return true;
          }
        }
      }
      frameHashes := frameHashes[id := Entry(frame, now)];
      return false;
    }

    method ClearFrameHash(id: string)
      modifies this
      ensures frameHashes == old(frameHashes) - {id}
    {
      frameHashes := frameHashes - {id};
    }

    method CleanupSession(id: string)
      modifies this
      ensures frameHashes == old(frameHashes) - {id}
    {
      frameHashes := frameHashes - {id};
    }

    // Record what the user said, if anything; false when there is no such session.
    method RecordUserText(id: string, userText: string, now: nat) returns (ok: bool)
      requires sessions.Valid()
      modifies sessions`sessions, sessions`logs, ArraysOf(sessions.sessions)
      ensures sessions.Valid() && ok == (userText == "" || id in old(sessions.sessions))
      ensures id in sessions.sessions <==> id in old(sessions.sessions)
      ensures sessions.logs == WithUserText(old(sessions.logs), id, userText, now)
      ensures fresh(ArraysOf(sessions.sessions) - old(ArraysOf(sessions.sessions)))
    {
      ok := true;
      if userText != "" {
        assert id in sessions.sessions ==> sessions.sessions[id].history.arr in ArraysOf(sessions.sessions);
        ok := sessions.AddMessage(id, "user", userText, false, now);
      }
    }

    // Ask the backend about the frame, with the last messages as context; ai is its answer.
    method Ask(id: string, userText: string, ai: Option<AIResponse>, now: nat) returns (response: Option<AIResponse>)
      requires sessions.Valid()
      modifies sessions`sessions, sessions`logs, ArraysOf(sessions.sessions)
      ensures sessions.Valid()
      ensures response == if id in old(sessions.sessions) then ai else None
      ensures id in sessions.sessions <==> id in old(sessions.sessions)
      ensures sessions.logs == WithUserText(old(sessions.logs), id, userText, now)
      ensures fresh(ArraysOf(sessions.sessions) - old(ArraysOf(sessions.sessions)))
    {
      var ok := RecordUserText(id, userText, now);
      if !ok {
        return None;
      }
      var context := sessions.BuildContextForGemini(id);
      if context.None? {
        return None;
      }
      return ai;
    }

    // The answer's text, the session's step, and the problem kept in the session.
    ghost predicate IsAnswer(r: FrameResult, id: string, response: AIResponse)
      reads sessions
    {
      && id in sessions.sessions
      && r == Answered(ResponseText(response), sessions.sessions[id].currentStep, sessions.sessions[id].totalSteps)
      && (response.problem.Some? ==> sessions.sessions[id].problemDetected == response.problem.value)
    }

    // Keep the detected problem and the answer; the session's step goes into the result. Fails
    // when the session is gone.
    method CloseTurn(id: string, response: AIResponse, now: nat) returns (r: FrameResult)
      requires sessions.Valid()
      modifies sessions`sessions, sessions`logs, ArraysOf(sessions.sessions)
      ensures sessions.Valid() && (r.Failed? <==> id !in old(sessions.sessions)) && !r.Duplicate?
      ensures r.Failed? ==> sessions.logs == old(sessions.logs)
      ensures !r.Failed? ==> id in sessions.sessions
      ensures !r.Failed? ==>
                sessions.logs == Logged(old(sessions.logs), id, Message("assistant", ResponseText(response), now, false))
      ensures !r.Failed? ==> IsAnswer(r, id, response)
      ensures !r.Failed? ==> sessions.sessions[id].currentStep == old(sessions.sessions[id].currentStep)
      ensures !r.Failed? && response.problem.None? ==>
                sessions.sessions[id].problemDetected == old(sessions.sessions[id].problemDetected)
    {
      if response.problem.Some? {
        var ok := sessions.SetProblemDetected(id, response.problem.value, now);
        if !ok {
          return Failed;
        }
      }
      assert id in sessions.sessions ==> sessions.sessions[id].history.arr in old(ArraysOf(sessions.sessions));
      var ok := sessions.AddMessage(id, "assistant", ResponseText(response), false, now);
      if !ok {
        return Failed;
      }
      var snapshot := sessions.GetSessionSnapshot(id);
      if snapshot.None? {
        return Failed;
      }
      return Answered(ResponseText(response), snapshot.value.currentStep, snapshot.value.totalSteps);
    }

    // The end of a turn. dropped: another goroutine has removed the session while the backend was
    // at work; the turn then fails, but only after the analysis.
    method Respond(id: string, response: AIResponse, dropped: bool, now: nat) returns (r: FrameResult)
      requires sessions.Valid() && id in sessions.sessions
      modifies sessions`sessions, sessions`logs, ArraysOf(sessions.sessions)
      ensures sessions.Valid()
      ensures dropped ==> r == Failed && sessions.logs == old(sessions.logs) - {id}
      ensures !dropped ==> IsAnswer(r, id, response)
      ensures !dropped ==>
                sessions.logs == Logged(old(sessions.logs), id, Message("assistant", ResponseText(response), now, false))
    {
      if dropped {
        sessions.Drop(id);
      }
      r := CloseTurn(id, response, now);
    }

    // A turn of the conversation about a frame.
    method Analyse(id: string, userText: string, ai: Option<AIResponse>, dropped: bool, now: nat)
        returns (analysed: bool, r: FrameResult)
      requires sessions.Valid()
      modifies sessions`sessions, sessions`logs, ArraysOf(sessions.sessions)
      ensures sessions.Valid()
      ensures analysed == (id in old(sessions.sessions) && ai.Some?) && (!analysed || dropped ==> r == Failed)
      ensures analysed && !dropped ==> IsAnswer(r, id, ai.value)
      ensures sessions.logs == LogsAfterFrame(old(sessions.logs), id, userText, if analysed then ai else None, dropped, now)
    {
      var response := Ask(id, userText, ai, now);
      if response.None? {
        return false, Failed;
      }
      r := Respond(id, response.value, dropped, now);
      return true, r;
    }

    // A frame that is no duplicate and has its fingerprint stored, which a failure takes back.
    method Proceed(id: string, userText: string, ai: Option<AIResponse>, dropped: bool, now: nat) returns (r: FrameResult)
      requires sessions.Valid()
      modifies this, sessions`sessions, sessions`logs, ArraysOf(sessions.sessions)
      ensures sessions.Valid() && !r.Duplicate?
      ensures var analysed := id in old(sessions.sessions) && ai.Some?;
              && frameHashes == (if analysed then old(frameHashes) else old(frameHashes) - {id})
              && (r.Failed? <==> !analysed || dropped)
              && (r.Answered? ==> IsAnswer(r, id, ai.value))
              && sessions.logs == LogsAfterFrame(old(sessions.logs), id, userText, if analysed then ai else None, dropped, now)
    {
      var analysed;
      analysed, r := Analyse(id, userText, ai, dropped, now);
      if !analysed {
        ClearFrameHash(id);
      }
    }

    // One frame. ai is what the backend will answer; dropped says that the session goes meanwhile.
    method ProcessFrame(id: string, frame: Fingerprint, userText: string, ai: Option<AIResponse>, dropped: bool, now: nat)
        returns (r: FrameResult)
      requires sessions.Valid()
      modifies this, sessions`sessions, sessions`logs, ArraysOf(sessions.sessions)
      ensures sessions.Valid()
      ensures r.Duplicate? <==> IsDuplicate(old(frameHashes), id, frame, now)
      ensures r.Duplicate? <==>
                && id in old(frameHashes) && now <= old(frameHashes)[id].recordedAt + 30 * 60 * 1_000_000_000
                && (if frame.hasPHash && old(frameHashes)[id].frame.hasPHash
                    then HammingDistance(frame.pHash, old(frameHashes)[id].frame.pHash) <= 4
                    else frame.sha256 == old(frameHashes)[id].frame.sha256)
      ensures r.Duplicate? ==> frameHashes == old(frameHashes) && sessions.sessions == old(sessions.sessions)
      ensures r.Duplicate? ==> sessions.logs == old(sessions.logs)
      ensures !r.Duplicate? ==> var analysed := id in old(sessions.sessions) && ai.Some?;
                && frameHashes == (if analysed then old(frameHashes)[id := Entry(frame, now)] else old(frameHashes) - {id})
                && (r.Failed? <==> !analysed || dropped)
                && (r.Answered? ==> IsAnswer(r, id, ai.value))
                && sessions.logs == LogsAfterFrame(old(sessions.logs), id, userText, if analysed then ai else None, dropped, now)
      ensures !r.Duplicate? ==> TurnLogged(old(sessions.logs), sessions.logs, id, userText, ai, r.Answered?, now)
      ensures r.Answered? ==> ai.Some? && r.text == ai.value.analysis + "\n\n" + ai.value.instruction
    {
      ghost var before := sessions.logs;
      var duplicate := CheckAndStoreFrameHash(id, frame, now);
      if duplicate {
        return Duplicate;
      }
      r := Proceed(id, userText, ai, dropped, now);
      TurnIsLogged(before, id, userText, ai, dropped, now);
    }
  }
}
