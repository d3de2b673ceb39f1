// Runs of calls on one session service: what they do to the sessions and the rows is a run of
// the specification, and what they do to a snapshot is nothing.
module SessionRuns {
  import opened Slices
  import opened SessionSpec
  import opened SessionService

  datatype Call =
    | AddCall(id: string, role: string, content: string, hasImage: bool, at: nat)
    | StepCall(id: string, current: int, total: int, at: nat)
    | ProblemCall(id: string, problem: string, at: nat)
    | CreateCall(id: string, brand: string, model: string, user: string, language: string, at: nat)
    | DeleteCall(id: string, at: nat)
    | CleanupCall(maxAge: nat, at: nat, expiredAt: nat)

  function OpOf(call: Call): Op {
    match call
    case AddCall(id, role, content, hasImage, at) => Touch(id, at)
    case StepCall(id, current, total, at) => Touch(id, at)
    case ProblemCall(id, problem, at) => Touch(id, at)
    case CreateCall(id, brand, model, user, language, at) => Create(id, user, Device(brand, model), at)
    case DeleteCall(id, at) => Delete(id, at)
    case CleanupCall(maxAge, at, expiredAt) => Cleanup(maxAge, at, expiredAt)
  }

  ghost function WorldOf(svc: SessionService): World
    reads svc, svc.db
  {
    World(MemOf(svc.sessions), svc.RowsNow())
  }

  // The service is where the specification is: in memory, and in the rows if it has a database.
  ghost predicate Follows(svc: SessionService, w: World)
    reads svc, svc.db
  {
    MemOf(svc.sessions) == w.mem && (svc.db != null ==> svc.db.rows == w.rows)
  }

  // Only a restart looks at the rows.
  lemma MemoryAlone(w: World, w': World, op: Op)
    requires w.mem == w'.mem && !op.Restart?
    ensures Apply(w, op).mem == Apply(w', op).mem
  {
  }

  // What a touched, an unknown and a deleted session mean for the sessions in memory.
  lemma TouchMem(sessions: Sessions, id: string, session: Session, at: nat, rows: Rows)
    requires id in sessions && MetaOf(session) == MetaOf(sessions[id]).(lastActivity := at)
    ensures Apply(World(MemOf(sessions), rows), Touch(id, at)) == World(MemOf(sessions[id := session]), rows)
  {
    MemUpdate(sessions, id, session);
  }

  lemma TouchNone(sessions: Sessions, id: string, at: nat, rows: Rows)
    requires id !in sessions
    ensures Apply(World(MemOf(sessions), rows), Touch(id, at)) == World(MemOf(sessions), rows)
  {
  }

  lemma CreateMem(sessions: Sessions, id: string, s: Session, rows: Rows)
    requires !AtCap(MemOf(sessions), s.userID) && s.createdAt == s.lastActivity
    ensures Apply(World(MemOf(sessions), rows), Create(id, s.userID, s.device, s.createdAt)) ==
            World(MemOf(sessions[id := s]), SaveRow(rows, id, s.device, "", s.createdAt, s.createdAt))
  {
    MemUpdate(sessions, id, s);
  }

  lemma CreateNone(sessions: Sessions, op: Op, rows: Rows)
    requires op.Create? && AtCap(MemOf(sessions), op.user)
    ensures Apply(World(MemOf(sessions), rows), op) == World(MemOf(sessions), rows)
  {
  }

  lemma DeleteMem(sessions: Sessions, id: string, at: nat, rows: Rows)
    ensures Apply(World(MemOf(sessions), rows), Delete(id, at)) ==
            if id in sessions then World(MemOf(sessions - {id}), CloseRow(rows, id, Completed, at))
            else World(MemOf(sessions), rows)
  {
    MemRemove(sessions, {id});
  }

  function Logged(logs: Logs, id: string, msg: Message): Logs {
    if id in logs then logs[id := logs[id] + [msg]] else logs
  }

  function LogsAfter(mem: map<string, Meta>, logs: Logs, call: Call): Logs {
    match call
    case AddCall(id, role, content, hasImage, at) => Logged(logs, id, Message(role, content, at, hasImage))
    case StepCall(id, current, total, at) => logs
    case ProblemCall(id, problem, at) => logs
    case CreateCall(id, brand, model, user, language, at) => if AtCap(mem, user) then logs else logs[id := []]
    case DeleteCall(id, at) => logs - {id}
    case CleanupCall(maxAge, at, expiredAt) => logs - Stale(mem, maxAge, at)
  }

  // ---- single calls ---------------------------------------------------------------------------------------

  method AddOne(svc: SessionService, id: string, role: string, content: string, hasImage: bool, at: nat)
    requires svc.Valid()
    modifies svc`sessions, svc`logs, ArraysOf(svc.sessions)
    ensures svc.Valid() && Follows(svc, Apply(old(WorldOf(svc)), Touch(id, at)))
    ensures svc.logs == Logged(old(svc.logs), id, Message(role, content, at, hasImage))
    ensures fresh(ArraysOf(svc.sessions) - old(ArraysOf(svc.sessions)))
    ensures forall s: Slice | old(allocated(s)) && old(svc.Settled(s)) :: svc.Settled(s) && Content(s) == old(Content(s))
  {
    assert id in svc.sessions ==> svc.sessions[id].history.arr in ArraysOf(svc.sessions);
    ghost var before, rows := svc.sessions, svc.RowsNow();
    var ok := svc.AddMessage(id, role, content, hasImage, at);
    if ok {
      TouchMem(before, id, before[id].(history := svc.sessions[id].history, lastActivity := at), at, rows);
    } else {
      TouchNone(before, id, at, rows);
    }
  }

  method StepOne(svc: SessionService, id: string, current: int, total: int, at: nat)
    requires svc.Valid()
    modifies svc`sessions
    ensures svc.Valid() && Follows(svc, Apply(old(WorldOf(svc)), Touch(id, at)))
    ensures ArraysOf(svc.sessions) <= old(ArraysOf(svc.sessions))
    ensures forall s: Slice | old(allocated(s)) && old(svc.Settled(s)) :: svc.Settled(s)
  {
    ghost var before, rows := svc.sessions, svc.RowsNow();
    var ok := svc.UpdateStep(id, current, total, at);
    if ok {
      ghost var changed := before[id].(currentStep := current, totalSteps := total, lastActivity := at);
      TouchMem(before, id, changed, at, rows);
      ArraysUpdate(before, id, changed);
    } else {
      TouchNone(before, id, at, rows);
    }
  }

  method ProblemOne(svc: SessionService, id: string, problem: string, at: nat)
    requires svc.Valid()
    modifies svc`sessions
    ensures svc.Valid() && Follows(svc, Apply(old(WorldOf(svc)), Touch(id, at)))
    ensures ArraysOf(svc.sessions) <= old(ArraysOf(svc.sessions))
    ensures forall s: Slice | old(allocated(s)) && old(svc.Settled(s)) :: svc.Settled(s)
  {
    ghost var before, rows := svc.sessions, svc.RowsNow();
    var ok := svc.SetProblemDetected(id, problem, at);
    if ok {
      ghost var changed := before[id].(problemDetected := problem, lastActivity := at);
      TouchMem(before, id, changed, at, rows);
      ArraysUpdate(before, id, changed);
    } else {
      TouchNone(before, id, at, rows);
    }
  }

  method CreateOne(svc: SessionService, id: string, brand: string, model: string, user: string, language: string, at: nat)
    requires svc.Valid()
    modifies svc`sessions, svc`logs, svc.db
    ensures svc.Valid() && Follows(svc, Apply(old(WorldOf(svc)), Create(id, user, Device(brand, model), at)))
    ensures svc.logs == if AtCap(old(MemOf(svc.sessions)), user) then old(svc.logs) else old(svc.logs)[id := []]
    ensures fresh(ArraysOf(svc.sessions) - old(ArraysOf(svc.sessions)))
    ensures forall s: Slice | old(allocated(s)) && old(svc.Settled(s)) :: svc.Settled(s) && Content(s) == old(Content(s))
  {
    ghost var before, rows := svc.sessions, svc.RowsNow();
    var ok := svc.CreateSession(id, brand, model, user, language, at);
    if ok {
      ghost var created := Session(user, Device(brand, model), if language == "" then "it" else language,
                                   svc.sessions[id].history, 0, 0, "", at, at);
      CreateMem(before, id, created, rows);
      ArraysUpdate(before, id, created);
    } else {
      CreateNone(before, Create(id, user, Device(brand, model), at), rows);
    }
  }

  method DeleteOne(svc: SessionService, id: string, at: nat)
    requires svc.Valid()
    modifies svc`sessions, svc`logs, svc.db
    ensures svc.Valid() && Follows(svc, Apply(old(WorldOf(svc)), Delete(id, at)))
    ensures svc.logs == old(svc.logs) - {id}
    ensures ArraysOf(svc.sessions) <= old(ArraysOf(svc.sessions))
    ensures forall s: Slice | old(allocated(s)) && old(svc.Settled(s)) :: svc.Settled(s)
  {
    ghost var before, rows := svc.sessions, svc.RowsNow();
    var _ := svc.DeleteSession(id, at);
    DeleteMem(before, id, at, rows);
    ArraysRemove(before, {id});
  }

  method CleanupOne(svc: SessionService, maxAge: nat, at: nat, expiredAt: nat)
    requires svc.Valid()
    modifies svc`sessions, svc`logs, svc.db
    ensures svc.Valid() && Follows(svc, Apply(old(WorldOf(svc)), Cleanup(maxAge, at, expiredAt)))
    ensures svc.logs == old(svc.logs) - Stale(old(MemOf(svc.sessions)), maxAge, at)
    ensures ArraysOf(svc.sessions) <= old(ArraysOf(svc.sessions))
    ensures forall s: Slice | old(allocated(s)) && old(svc.Settled(s)) :: svc.Settled(s)
  {
    ghost var before := svc.sessions;
    var _ := svc.CleanupExpiredSessions(maxAge, at, expiredAt);
    MemRemove(before, Stale(MemOf(before), maxAge, at));
    ArraysRemove(before, Stale(MemOf(before), maxAge, at));
  }

  // ---- runs -------------------------------------------------------------------------------------------------

  method PerformGrow(svc: SessionService, call: Call)
    requires svc.Valid() && (call.AddCall? || call.CreateCall?)
    modifies svc`sessions, svc`logs, svc.db, ArraysOf(svc.sessions)
    ensures svc.Valid() && Follows(svc, Apply(old(WorldOf(svc)), OpOf(call)))
    ensures svc.logs == LogsAfter(old(MemOf(svc.sessions)), old(svc.logs), call)
    ensures fresh(ArraysOf(svc.sessions) - old(ArraysOf(svc.sessions)))
    ensures forall s: Slice | old(allocated(s)) && old(svc.Settled(s)) :: svc.Settled(s) && Content(s) == old(Content(s))
  {
    if call.AddCall? {
      AddOne(svc, call.id, call.role, call.content, call.hasImage, call.at);
    } else {
      CreateOne(svc, call.id, call.brand, call.model, call.user, call.language, call.at);
    }
  }

  method PerformChange(svc: SessionService, call: Call)
    requires svc.Valid() && (call.StepCall? || call.ProblemCall?)
    modifies svc`sessions
    ensures svc.Valid() && Follows(svc, Apply(old(WorldOf(svc)), OpOf(call)))
    ensures ArraysOf(svc.sessions) <= old(ArraysOf(svc.sessions))
    ensures forall s: Slice | old(allocated(s)) && old(svc.Settled(s)) :: svc.Settled(s)
  {
    if call.StepCall? {
      StepOne(svc, call.id, call.current, call.total, call.at);
    } else {
      ProblemOne(svc, call.id, call.problem, call.at);
    }
  }

  method PerformClose(svc: SessionService, call: Call)
    requires svc.Valid() && (call.DeleteCall? || call.CleanupCall?)
    modifies svc`sessions, svc`logs, svc.db
    ensures svc.Valid() && Follows(svc, Apply(old(WorldOf(svc)), OpOf(call)))
    ensures svc.logs == LogsAfter(old(MemOf(svc.sessions)), old(svc.logs), call)
    ensures ArraysOf(svc.sessions) <= old(ArraysOf(svc.sessions))
    ensures forall s: Slice | old(allocated(s)) && old(svc.Settled(s)) :: svc.Settled(s)
  {
    if call.DeleteCall? {
      DeleteOne(svc, call.id, call.at);
    } else {
      CleanupOne(svc, call.maxAge, call.at, call.expiredAt);
    }
  }

  method PerformOther(svc: SessionService, call: Call)
    requires svc.Valid() && !call.AddCall? && !call.CreateCall?
    modifies svc`sessions, svc`logs, svc.db
    ensures svc.Valid() && Follows(svc, Apply(old(WorldOf(svc)), OpOf(call)))
    ensures svc.logs == LogsAfter(old(MemOf(svc.sessions)), old(svc.logs), call)
    ensures ArraysOf(svc.sessions) <= old(ArraysOf(svc.sessions))
    ensures forall s: Slice | old(allocated(s)) && old(svc.Settled(s)) :: svc.Settled(s)
  {
    if call.StepCall? || call.ProblemCall? {
      PerformChange(svc, call);
    } else {
      PerformClose(svc, call);
    }
  }

  method Perform(svc: SessionService, call: Call)
    requires svc.Valid()
    modifies svc`sessions, svc`logs, svc.db, ArraysOf(svc.sessions)
    ensures svc.Valid() && Follows(svc, Apply(old(WorldOf(svc)), OpOf(call)))
    ensures svc.logs == LogsAfter(old(MemOf(svc.sessions)), old(svc.logs), call)
    ensures fresh(ArraysOf(svc.sessions) - old(ArraysOf(svc.sessions)))
    ensures forall s: Slice | old(allocated(s)) && old(svc.Settled(s)) :: svc.Settled(s) && Content(s) == old(Content(s))
  {
    if call.AddCall? || call.CreateCall? {
      PerformGrow(svc, call);
    } else {
      PerformOther(svc, call);
    }
  }

  // The same from any state of the specification that the service is in.
  method PerformNext(svc: SessionService, call: Call, ghost w: World)
    requires svc.Valid() && Follows(svc, w)
    modifies svc`sessions, svc`logs, svc.db, ArraysOf(svc.sessions)
    ensures svc.Valid() && Follows(svc, Apply(w, OpOf(call)))
    ensures svc.logs == LogsAfter(w.mem, old(svc.logs), call)
    ensures fresh(ArraysOf(svc.sessions) - old(ArraysOf(svc.sessions)))
    ensures forall s: Slice | old(allocated(s)) && old(svc.Settled(s)) :: svc.Settled(s) && Content(s) == old(Content(s))
  {
    MemoryAlone(WorldOf(svc), w, OpOf(call));
    Perform(svc, call);
  }

  function OpsOf(calls: seq<Call>): seq<Op> {
    if calls == [] then [] else OpsOf(calls[..|calls| - 1]) + [OpOf(calls[|calls| - 1])]
  }

  function LogsRun(w: World, logs: Logs, calls: seq<Call>): Logs {
    if calls == [] then logs
    else LogsAfter(Run(w, OpsOf(calls[..|calls| - 1])).mem, LogsRun(w, logs, calls[..|calls| - 1]), calls[|calls| - 1])
  }

  lemma RunNext(w: World, logs: Logs, calls: seq<Call>, i: nat)
    requires i < |calls|
    ensures Run(w, OpsOf(calls[..i + 1])) == Apply(Run(w, OpsOf(calls[..i])), OpOf(calls[i]))
    ensures LogsRun(w, logs, calls[..i + 1]) == LogsAfter(Run(w, OpsOf(calls[..i])).mem, LogsRun(w, logs, calls[..i]), calls[i])
  {
    assert calls[..i + 1][..i] == calls[..i];
    var ops := OpsOf(calls[..i]);
    assert (ops + [OpOf(calls[i])])[..|ops|] == ops;
  }

  // Any run of calls is a run of the specification. A snapshot taken before it keeps its
  // messages, though appends during the run may write into the very array it stands in.
  method RunCalls(svc: SessionService, calls: seq<Call>, ghost snapshot: Slice)
    requires svc.Valid() && svc.Settled(snapshot)
    modifies svc`sessions, svc`logs, svc.db, ArraysOf(svc.sessions)
    ensures svc.Valid() && Follows(svc, Run(old(WorldOf(svc)), OpsOf(calls)))
    ensures svc.logs == LogsRun(old(WorldOf(svc)), old(svc.logs), calls)
    ensures svc.Settled(snapshot) && Content(snapshot) == old(Content(snapshot))
  {
    ghost var w0, logs0 := WorldOf(svc), svc.logs;
    ghost var w := w0;
    for i := 0 to |calls|
      invariant svc.Valid() && Follows(svc, w) && w == Run(w0, OpsOf(calls[..i]))
      invariant svc.logs == LogsRun(w0, logs0, calls[..i])
      invariant fresh(ArraysOf(svc.sessions) - old(ArraysOf(svc.sessions)))
      invariant svc.Settled(snapshot) && Content(snapshot) == old(Content(snapshot))
    {
      RunNext(w0, logs0, calls, i);
      PerformNext(svc, calls[i], w);
      w := Apply(w, OpOf(calls[i]));
    }
    assert calls[..|calls|] == calls;
  }

  // A new process on the same database: the sessions of the active rows, with empty logs.
  method Restarted(db: DBService) returns (svc: SessionService)
    ensures svc.Valid() && svc.db == db
    ensures WorldOf(svc) == Apply(World(map[], db.rows), Restart)
    ensures svc.logs == EmptyLogs(ActiveRows(db.rows))
    ensures svc.sessions.Keys == set id | id in db.rows && db.rows[id].status.Active?
    ensures forall id | id in svc.sessions ::
              svc.sessions[id] == Session("", db.rows[id].device, "", svc.sessions[id].history, 0, 0, db.rows[id].problem,
                                          db.rows[id].createdAt, db.rows[id].lastActivity)
  {
    svc := new SessionService(db);
    svc.HydrateFromDB();
    RestartedWorld(svc.sessions, svc.logs, db.rows);
  }

  lemma RestartedWorld(sessions: Sessions, logs: Logs, rows: Rows)
    requires LoadedOnto(map[], map[], ActiveRows(rows), sessions, logs)
    ensures World(MemOf(sessions), rows) == Apply(World(map[], rows), Restart) && logs == EmptyLogs(ActiveRows(rows))
    ensures sessions.Keys == set id | id in rows && rows[id].status.Active?
    ensures forall id | id in sessions ::
              sessions[id] == Session("", rows[id].device, "", sessions[id].history, 0, 0, rows[id].problem,
                                      rows[id].createdAt, rows[id].lastActivity)
  {
    MemLoaded(map[], map[], ActiveRows(rows), sessions, logs);
    assert MemOf(map[]) + Hydrated(rows) == Hydrated(rows);
  }

  // ---- the log is everything that was added ----------------------------------------------------------------------

  // The messages the calls add to session id.
  function Added(calls: seq<Call>, id: string): seq<Message> {
    if calls == [] then [] else
      var last := calls[|calls| - 1];
      Added(calls[..|calls| - 1], id)
      + if last.AddCall? && last.id == id then [Message(last.role, last.content, last.at, last.hasImage)] else []
  }

  // A session alive before and after a run that does not create it anew has kept its log and
  // gained what the run added, however much the history was trimmed on the way.
  lemma {:induction false} LogHasAllAdded(w: World, logs: Logs, calls: seq<Call>, id: string)
    requires id in logs && id in LogsRun(w, logs, calls)
    requires forall c | c in calls && c.CreateCall? :: c.id != id
    ensures LogsRun(w, logs, calls)[id] == logs[id] + Added(calls, id)
  {
    if calls != [] {
      var prefix, last := calls[..|calls| - 1], calls[|calls| - 1];
      assert last in calls && forall c | c in prefix :: c in calls;
      LogHasAllAdded(w, logs, prefix, id);
    }
  }
}
