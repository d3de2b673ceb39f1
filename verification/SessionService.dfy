// The in-memory session store with its write-through to the database. Snapshots handed out
// share their backing arrays with the live sessions.
module SessionService {
  import opened Options
  import opened Slices
  import opened SessionSpec

  const MAX_CONVERSATION_HISTORY: nat := 20
  const MAX_CONTEXT_MESSAGES: nat := 10

  datatype Session = Session(userID: string, device: Device, language: string, history: Slice,
                             currentStep: int, totalSteps: int, problemDetected: string,
                             createdAt: nat, lastActivity: nat)

  type Sessions = map<string, Session>

  // Every message ever added, by session.
  type Logs = map<string, seq<Message>>

  function MetaOf(s: Session): Meta {
    Meta(s.userID, s.device, s.createdAt, s.lastActivity)
  }

  // "role: content" lines.
  function Lines(msgs: seq<Message>): seq<string> {
    if msgs == [] then [] else
      Lines(msgs[..|msgs| - 1]) + [msgs[|msgs| - 1].role + ": " + msgs[|msgs| - 1].content]
  }

  function JoinLines(lines: seq<string>): string {
    if lines == [] then "" else if |lines| == 1 then lines[0] else lines[0] + "\n" + JoinLines(lines[1..])
  }

  // One message is one line.
  lemma TextOfOne(msg: Message)
    ensures JoinLines(Lines([msg])) == msg.role + ": " + msg.content
  {
    assert Lines([msg]) == [msg.role + ": " + msg.content];
  }

  lemma {:induction false} JoinOneMore(lines: seq<string>, line: string)
    requires lines != []
    ensures JoinLines(lines + [line]) == JoinLines(lines) + "\n" + line
  {
    var longer := lines + [line];
    assert longer[0] == lines[0] && longer[1..] == lines[1..] + [line];
    if |lines| == 1 {
      assert longer[1..] == [line];
    } else {
      JoinOneMore(lines[1..], line);
      assert lines[0] + "\n" + (JoinLines(lines[1..]) + "\n" + line) == lines[0] + "\n" + JoinLines(lines[1..]) + "\n" + line;
    }
  }

  // A further message comes on a line of its own below the text so far.
  lemma TextGrows(msgs: seq<Message>, msg: Message)
    requires msgs != []
    ensures JoinLines(Lines(msgs + [msg])) == JoinLines(Lines(msgs)) + "\n" + (msg.role + ": " + msg.content)
  {
    assert (msgs + [msg])[..|msgs|] == msgs;
    JoinOneMore(Lines(msgs), msg.role + ": " + msg.content);
  }

  // The loop of CleanupExpiredSessions: drop every session last active before the cutoff.
  method RemoveStale(m: Sessions, maxAge: nat, now: nat)
      returns (kept: Sessions, expired: set<string>)
    ensures expired == Stale(MemOf(m), maxAge, now) && kept == m - expired
  {
    var cutoff := now - maxAge;
    kept, expired := m, {};
    var todo := m.Keys;
    while todo != {}
      invariant todo <= m.Keys && kept == m - expired
      invariant expired == set id | id in m && id !in todo && m[id].lastActivity < cutoff
    {
      var id :| id in todo;
      todo := todo - {id};
      if kept[id].lastActivity < cutoff {
        kept, expired := kept - {id}, expired + {id};
      }
    }
  }

  // Who is at the cap.
  lemma CapIs(sessions: Sessions, user: string)
    ensures AtCap(MemOf(sessions), user) <==> user != "" && |set id | id in sessions && sessions[id].userID == user| >= 5
  {
    assert SessionsOf(MemOf(sessions), user) == set id | id in sessions && sessions[id].userID == user;
  }

  // The loop of ListSessions.
  method CopyAll(m: Sessions) returns (r: Sessions)
    ensures r == m
  {
    r := map[];
    var todo := m.Keys;
    while todo != {}
      invariant todo <= m.Keys && r == map id | id in m && id !in todo :: m[id]
    {
      var id :| id in todo;
      r, todo := r[id := m[id]], todo - {id};
    }
  }

  method FormatLines(s: Slice) returns (lines: seq<string>)
    requires InBounds(s)
    ensures lines == Lines(Content(s))
  {
    lines := [];
    ghost var msgs := Content(s);
    for i := 0 to s.len
      invariant lines == Lines(msgs[..i])
    {
      assert msgs[..i + 1][..i] == msgs[..i] && msgs[..i + 1][i] == s.arr[s.start + i];
      lines := lines + [s.arr[s.start + i].role + ": " + s.arr[s.start + i].content];
    }
    assert msgs[..|msgs|] == msgs;
  }

  function MemOf(sessions: Sessions): map<string, Meta> {
    map id | id in sessions :: MetaOf(sessions[id])
  }

  // Which sessions a cleanup takes, and what it does to the rows.
  lemma StaleAre(sessions: Sessions, rows: Rows, maxAge: nat, now: nat, expiredAt: nat)
    ensures var stale := Stale(MemOf(sessions), maxAge, now);
            && stale == (set id | id in sessions && sessions[id].lastActivity < now - maxAge)
            && (sessions - stale == map id | id in sessions && sessions[id].lastActivity >= now - maxAge :: sessions[id])
            && (CloseRows(rows, stale, Expired, expiredAt) == map id | id in rows ::
                 if id in sessions && sessions[id].lastActivity < now - maxAge && rows[id].status.Active?
                 then rows[id].(status := Expired, lastActivity := expiredAt) else rows[id])
  {
  }

  lemma MemUpdate(sessions: Sessions, id: string, s: Session)
    ensures MemOf(sessions[id := s]) == MemOf(sessions)[id := MetaOf(s)]
  {
  }

  lemma MemRemove(sessions: Sessions, ids: set<string>)
    ensures MemOf(sessions - ids) == MemOf(sessions) - ids
  {
  }

  // A session as a restart finds it: what its row holds, and no history.
  function Loaded(row: Row, history: Slice): Session {
    Session("", row.device, "", history, 0, 0, row.problem, row.createdAt, row.lastActivity)
  }

  function EmptyLogs(rows: Rows): Logs {
    map id | id in rows :: []
  }

  // The sessions and logs are those before, with the rows loaded on top.
  ghost predicate LoadedOnto(before: Sessions, logged: Logs, rows: Rows, sessions: Sessions, logs: Logs) {
    && logs == logged + EmptyLogs(rows) && sessions.Keys == before.Keys + rows.Keys
    && (forall id | id in rows :: sessions[id] == Loaded(rows[id], sessions[id].history))
    && (forall id | id in before && id !in rows :: sessions[id] == before[id])
  }

  lemma NothingLoaded(before: Sessions, logged: Logs)
    ensures LoadedOnto(before, logged, map[], before, logged)
  {
  }

  lemma OneMoreLoaded(before: Sessions, logged: Logs, rows: Rows, sessions: Sessions, logs: Logs, id: string, row: Row, s: Session)
    requires LoadedOnto(before, logged, rows, sessions, logs) && s == Loaded(row, s.history)
    ensures LoadedOnto(before, logged, rows[id := row], sessions[id := s], logs[id := []])
  {
    assert logged + EmptyLogs(rows[id := row]) == (logged + EmptyLogs(rows))[id := []];
  }

  lemma MemLoaded(before: Sessions, logged: Logs, rows: Rows, sessions: Sessions, logs: Logs)
    requires LoadedOnto(before, logged, rows, sessions, logs)
    ensures MemOf(sessions) == MemOf(before) + RowMetas(rows)
  {
  }

  // ---- rows in order ----------------------------------------------------------------------------------------

  type RowList = seq<(string, Row)>

  predicate NewestFirst(rows: RowList) {
    forall i, j | 0 <= i < j < |rows| :: rows[i].1.createdAt >= rows[j].1.createdAt
  }

  function InsertNewest(x: (string, Row), rows: RowList): (r: RowList)
    ensures |r| == |rows| + 1 && forall y :: y in r <==> y == x || y in rows
  {
    if rows == [] || x.1.createdAt >= rows[0].1.createdAt then [x] + rows
    else [rows[0]] + InsertNewest(x, rows[1..])
  }

  lemma {:induction false} InsertKeepsOrder(x: (string, Row), rows: RowList)
    requires NewestFirst(rows)
    ensures NewestFirst(InsertNewest(x, rows))
  {
    if rows != [] && x.1.createdAt < rows[0].1.createdAt {
      var rest := InsertNewest(x, rows[1..]);
      InsertKeepsOrder(x, rows[1..]);
      forall j | 0 <= j < |rest| ensures rows[0].1.createdAt >= rest[j].1.createdAt {
        assert rest[j] in rest;
      }
    }
  }

  // The list has each row of m once, newest first.
  ghost predicate Lists(list: RowList, m: Rows) {
    && NewestFirst(list) && |list| == |m|
    && (forall x | x in list :: x.0 in m && x.1 == m[x.0])
    && (forall id | id in m :: (id, m[id]) in list)
  }

  lemma OneMoreKey(m: Rows, id: string, row: Row)
    requires id !in m
    ensures |m[id := row]| == |m| + 1
  {
    assert m[id := row].Keys == m.Keys + {id};
  }

  lemma InsertLists(id: string, row: Row, list: RowList, m: Rows)
    requires Lists(list, m) && id !in m
    ensures Lists(InsertNewest((id, row), list), m[id := row])
  {
    var r, m' := InsertNewest((id, row), list), m[id := row];
    InsertKeepsOrder((id, row), list);
    OneMoreKey(m, id, row);
    forall x | x in r ensures x.0 in m' && x.1 == m'[x.0] {
      assert x == (id, row) || x in list;
    }
    forall k | k in m' ensures (k, m'[k]) in r {
      if k != id {
        assert (k, m[k]) in list;
      }
    }
  }

  // The first n of the list are among the loaded ones, which all belong to m.
  ghost predicate LoadedFirst(list: RowList, n: nat, loaded: Rows, m: Rows)
    requires n <= |list|
  {
    (forall id | id in loaded :: id in m && loaded[id] == m[id]) && forall j | 0 <= j < n :: list[j].0 in loaded
  }

  lemma LoadNext(list: RowList, n: nat, loaded: Rows, m: Rows)
    requires n < |list| && Lists(list, m) && LoadedFirst(list, n, loaded, m)
    ensures LoadedFirst(list, n + 1, loaded[list[n].0 := list[n].1], m)
  {
    assert list[n] in list;
  }

  lemma AllLoaded(list: RowList, loaded: Rows, m: Rows)
    requires Lists(list, m) && LoadedFirst(list, |list|, loaded, m)
    ensures loaded == m
  {
    forall id | id in m ensures id in loaded {
      assert (id, m[id]) in list;
    }
  }

  // No two sessions share a backing array.
  predicate ArraysApart(sessions: Sessions) {
    forall id, id' | id in sessions && id' in sessions && id != id' ::
      sessions[id].history.arr != sessions[id'].history.arr
  }

  lemma StillApart(sessions: Sessions, id: string, s: Session)
    requires ArraysApart(sessions)
    requires forall id' | id' in sessions && id' != id :: sessions[id'].history.arr != s.history.arr
    ensures ArraysApart(sessions[id := s])
  {
  }

  // The arrays the live histories stand in.
  ghost function ArraysOf(sessions: Sessions): set<array<Message>> {
    set id | id in sessions :: sessions[id].history.arr
  }

  lemma ArraysUpdate(sessions: Sessions, id: string, s: Session)
    ensures ArraysOf(sessions[id := s]) <= ArraysOf(sessions) + {s.history.arr}
  {
  }

  lemma ArraysRemove(sessions: Sessions, ids: set<string>)
    ensures ArraysOf(sessions - ids) <= ArraysOf(sessions)
  {
  }

  // The sessions table.
  class DBService {
    var rows: Rows

    constructor ()
      ensures rows == map[]
    {
      rows := map[];
    }

    method SaveSession(id: string, s: Session)
      modifies this
      ensures rows == SaveRow(old(rows), id, s.device, s.problemDetected, s.createdAt, s.lastActivity)
      ensures rows == old(rows)[id :=
                if id in old(rows) then old(rows)[id].(problem := s.problemDetected, lastActivity := s.lastActivity)
                else Row(s.device, Active, s.problemDetected, s.createdAt, s.lastActivity)]
    {
      if id in rows {
        rows := rows[id := rows[id].(problem := s.problemDetected, lastActivity := s.lastActivity)];
      } else {
        rows := rows[id := Row(s.device, Active, s.problemDetected, s.createdAt, s.lastActivity)];
      }
    }

    // Fails when there is no active row of that id.
    method DeleteSession(id: string, now: nat) returns (ok: bool)
      modifies this
      ensures rows == CloseRow(old(rows), id, Completed, now) && ok == (id in old(rows) && old(rows)[id].status.Active?)
      ensures rows == if ok then old(rows)[id := old(rows)[id].(status := Completed, lastActivity := now)] else old(rows)
    {
      if id in rows && rows[id].status.Active? {
        rows := rows[id := rows[id].(status := Completed, lastActivity := now)];
        return true;
      }
      return false;
    }

    method ExpireSession(id: string, now: nat)
      modifies this
      ensures rows == CloseRow(old(rows), id, Expired, now)
      ensures rows == if id in old(rows) && old(rows)[id].status.Active?
                      then old(rows)[id := old(rows)[id].(status := Expired, lastActivity := now)] else old(rows)
    {
      if id in rows && rows[id].status.Active? {
        rows := rows[id := rows[id].(status := Expired, lastActivity := now)];
      }
    }

    method ListSessions() returns (active: RowList)
      ensures Lists(active, ActiveRows(rows))
    {
      active := [];
      var todo := rows.Keys;
      ghost var listed: Rows := map[];
      while todo != {}
        invariant todo <= rows.Keys && Lists(active, listed)
        invariant forall id :: id in listed <==> id in ActiveRows(rows) && id !in todo
        invariant forall id | id in listed :: listed[id] == rows[id]
      {
        var id :| id in todo;
        todo := todo - {id};
        if rows[id].status.Active? {
          InsertLists(id, rows[id], active, listed);
          active, listed := InsertNewest((id, rows[id]), active), listed[id := rows[id]];
        }
      }
      assert listed == ActiveRows(rows);
    }
  }

  class SessionService {
    const db: DBService?
    var sessions: Sessions
    ghost var logs: Logs

    ghost predicate Valid()
      reads this
      reads set id | id in sessions :: sessions[id].history.arr
    {
      && logs.Keys == sessions.Keys
      && (forall id | id in sessions :: Holds(sessions[id].history, logs[id], MAX_CONVERSATION_HISTORY))
      && ArraysApart(sessions)
    }

    // No session's history ends inside the slice, so that appends go past its end.
    ghost predicate Settled(s: Slice)
      reads this
    {
      InBounds(s) && forall id | id in sessions && sessions[id].history.arr == s.arr :: s.End() <= sessions[id].history.End()
    }

    constructor (db: DBService?)
      ensures Valid() && sessions == map[] && this.db == db
    {
      this.db := db;
      sessions, logs := map[], map[];
    }

    ghost function Mem(): map<string, Meta>
      reads this
    {
      MemOf(sessions)
    }

    ghost function RowsNow(): Rows
      reads this, db
    {
      if db == null then map[] else db.rows
    }

    method ActiveSessionCount(userID: string) returns (count: nat)
      ensures count == if userID == "" then 0 else |SessionsOf(Mem(), userID)|
    {
      if userID == "" {
        return 0;
      }
      count := 0;
      var todo := sessions.Keys;
      ghost var counted: set<string> := {};
      while todo != {}
        invariant todo <= sessions.Keys && count == |counted|
        invariant counted == set id | id in sessions && id !in todo && sessions[id].userID == userID
      {
        var id :| id in todo;
        todo := todo - {id};
        if sessions[id].userID == userID {
          count, counted := count + 1, counted + {id};
        }
      }
      assert counted == SessionsOf(Mem(), userID);
    }

    // Store a session, new or changed, whose history stands in an array of its own.
    method Put(id: string, session: Session, ghost log: seq<Message>)
      requires Valid() && Holds(session.history, log, MAX_CONVERSATION_HISTORY)
      requires forall k | k in sessions && k != id :: sessions[k].history.arr != session.history.arr
      modifies this`sessions, this`logs
      ensures Valid() && sessions == old(sessions)[id := session] && logs == old(logs)[id := log]
    {
      StillApart(sessions, id, session);
      sessions, logs := sessions[id := session], logs[id := log];
    }

    // Put a session with an empty history into the store.
    method Insert(id: string, userID: string, device: Device, language: string, problem: string,
                  createdAt: nat, lastActivity: nat)
      requires Valid()
      modifies this`sessions, this`logs
      ensures Valid() && id in sessions && logs == old(logs)[id := []] && fresh(sessions[id].history.arr)
      ensures sessions == old(sessions)[id := Session(userID, device, language, sessions[id].history, 0, 0, problem,
                                                      createdAt, lastActivity)]
      ensures forall s: Slice | old(allocated(s)) && old(Settled(s)) :: Settled(s)
    {
      var empty := new Message[0];
      Put(id, Session(userID, device, language, Slice(empty, 0, 0), 0, 0, problem, createdAt, lastActivity), []);
    }

    // id is the new UUID.
    method CreateSession(id: string, brand: string, model: string, userID: string, language: string, now: nat)
        returns (ok: bool)
      requires Valid()
      modifies this`sessions, this`logs, db
      ensures Valid() && ok == !AtCap(old(Mem()), userID)
      ensures ok <==> userID == "" || |set k | k in old(sessions) && old(sessions)[k].userID == userID| < 5
      ensures !ok ==> sessions == old(sessions) && logs == old(logs) && RowsNow() == old(RowsNow())
      ensures ok ==> id in sessions && logs == old(logs)[id := []] && fresh(sessions[id].history.arr)
      ensures ok ==> (sessions == old(sessions)[id := Session(userID, Device(brand, model), if language == "" then "it" else language,
                                                             sessions[id].history, 0, 0, "", now, now)])
      ensures ok && db != null ==> db.rows == SaveRow(old(db.rows), id, Device(brand, model), "", now, now)
      ensures forall s: Slice | old(allocated(s)) && old(Settled(s)) :: Settled(s)
    {
      CapIs(sessions, userID);
      var count := ActiveSessionCount(userID);
      if userID != "" && count >= MAX_ACTIVE_SESSIONS_PER_USER {
        return false;
      }
      Insert(id, userID, Device(brand, model), if language == "" then "it" else language, "", now, now);
      if db != null {
        db.SaveSession(id, sessions[id]);
      }
      return true;
    }

    // Put msg into the history of a session that exists: past the end of what it held, in the
    // same array or in a new one.
    method Record(id: string, msg: Message)
      requires Valid() && id in sessions
      modifies this`sessions, this`logs, sessions[id].history.arr
      ensures Valid() && id in sessions && logs == old(logs)[id := old(logs)[id] + [msg]]
      ensures sessions == old(sessions)[id := old(sessions)[id].(history := sessions[id].history, lastActivity := msg.timestamp)]
      ensures var before := old(sessions[id].history);
              && (forall s: Slice | s.arr == before.arr && s.End() <= before.End() :: Content(s) == old(Content(s)))
              && (fresh(sessions[id].history.arr)
                  || (sessions[id].history.arr == before.arr && sessions[id].history.End() > before.End()))
    {
      var session := sessions[id];
      var history := AppendTrimmed(session.history, msg, MAX_CONVERSATION_HISTORY, logs[id]);
      assert forall k | k in sessions :: Holds(sessions[k].history, logs[k], MAX_CONVERSATION_HISTORY);
      Put(id, session.(history := history, lastActivity := msg.timestamp), logs[id] + [msg]);
    }

    method AddMessage(id: string, role: string, content: string, hasImage: bool, now: nat) returns (ok: bool)
      requires Valid()
      modifies this`sessions, this`logs, if id in sessions then {sessions[id].history.arr} else {}
      ensures Valid()
      ensures ok <==> id in old(sessions)
      ensures !ok ==> sessions == old(sessions) && logs == old(logs)
      ensures ok ==> logs == old(logs)[id := old(logs)[id] + [Message(role, content, now, hasImage)]]
      ensures ok ==> id in sessions
      ensures fresh(ArraysOf(sessions) - old(ArraysOf(sessions)))
      ensures ok ==> (sessions == old(sessions)[id := old(sessions)[id].(history := sessions[id].history, lastActivity := now)])
      ensures forall s: Slice | old(allocated(s)) && old(Settled(s)) :: Settled(s) && Content(s) == old(Content(s))
    {
      if id !in sessions {
        return false;
      }
      ghost var before := sessions;
      Record(id, Message(role, content, now, hasImage));
      ArraysUpdate(before, id, before[id].(history := sessions[id].history, lastActivity := now));
      return true;
    }

    // Change a session in anything but its history.
    method Replace(id: string, session: Session)
      requires Valid() && id in sessions && session.history == sessions[id].history
      modifies this`sessions
      ensures Valid() && sessions == old(sessions)[id := session]
      ensures forall s: Slice | old(allocated(s)) && old(Settled(s)) :: Settled(s)
    {
      ghost var before := sessions;
      sessions := sessions[id := session];
      assert sessions.Keys == before.Keys;
      assert forall k | k in sessions :: sessions[k].history == before[k].history;
    }

    method UpdateStep(id: string, current: int, total: int, now: nat) returns (ok: bool)
      requires Valid()
      modifies this`sessions
      ensures Valid() && ok == (id in old(sessions))
      ensures sessions == if !ok then old(sessions) else old(sessions)[id :=
                old(sessions)[id].(currentStep := current, totalSteps := total, lastActivity := now)]
      ensures forall s: Slice | old(allocated(s)) && old(Settled(s)) :: Settled(s)
    {
      if id !in sessions {
        return false;
      }
      Replace(id, sessions[id].(currentStep := current, totalSteps := total, lastActivity := now));
      return true;
    }

    method SetProblemDetected(id: string, problem: string, now: nat) returns (ok: bool)
      requires Valid()
      modifies this`sessions
      ensures Valid() && ok == (id in old(sessions))
      ensures sessions == if !ok then old(sessions) else old(sessions)[id :=
                old(sessions)[id].(problemDetected := problem, lastActivity := now)]
      ensures forall s: Slice | old(allocated(s)) && old(Settled(s)) :: Settled(s)
    {
      if id !in sessions {
        return false;
      }
      Replace(id, sessions[id].(problemDetected := problem, lastActivity := now));
      return true;
    }

    // A shallow copy: its history is a slice of the live array, but one that is settled.
    method GetSessionSnapshot(id: string) returns (r: Option<Session>)
      requires Valid()
      ensures r == if id in sessions then Some(sessions[id]) else None
      ensures r.Some? ==> Settled(r.value.history) && Content(r.value.history) == Last(logs[id], MAX_CONVERSATION_HISTORY)
    {
      if id !in sessions {
        return None;
      }
      return Some(sessions[id]);
    }

    lemma LiveIsSettled()
      requires Valid()
      ensures forall id | id in sessions :: Settled(sessions[id].history)
    {
    }

    // A snapshot of every session, in no particular order.
    method ListSessions() returns (r: Sessions)
      requires Valid()
      ensures r == sessions && forall id | id in r :: Settled(r[id].history)
    {
      r := CopyAll(sessions);
      LiveIsSettled();
    }

    // The last messages as prompt text: those of the whole log, which the trimming never cuts into.
    method BuildContextForGemini(id: string) returns (r: Option<string>)
      requires Valid()
      ensures r == if id in sessions then Some(JoinLines(Lines(Last(logs[id], 10)))) else None
    {
      if id !in sessions {
        return None;
      }
      var history := sessions[id].history;
      LastOfLast(logs[id], MAX_CONTEXT_MESSAGES, MAX_CONVERSATION_HISTORY);
      if history.len == 0 {
        return Some("");
      }
      var recent := Trim(history, MAX_CONTEXT_MESSAGES);
      assert Content(recent) == Last(Content(history), MAX_CONTEXT_MESSAGES);
      var lines := FormatLines(recent);
      return Some(JoinLines(lines));
    }

    // Dropping sessions touches neither the others nor any snapshot.
    method Drop(id: string)
      requires Valid()
      modifies this`sessions, this`logs
      ensures Valid() && sessions == old(sessions) - {id} && logs == old(logs) - {id}
      ensures forall s: Slice | old(allocated(s)) && old(Settled(s)) :: Settled(s)
    {
      sessions, logs := sessions - {id}, logs - {id};
    }

    method DeleteSession(id: string, now: nat) returns (ok: bool)
      requires Valid()
      modifies this`sessions, this`logs, db
      ensures Valid() && ok == (id in old(sessions))
      ensures if ok then sessions == old(sessions) - {id} else sessions == old(sessions)
      ensures if ok then logs == old(logs) - {id} else logs == old(logs)
      ensures db != null ==> db.rows == if ok then CloseRow(old(db.rows), id, Completed, now) else old(db.rows)
      ensures forall s: Slice | old(allocated(s)) && old(Settled(s)) :: Settled(s)
    {
      if id !in sessions {
        return false;
      }
      Drop(id);
      if db != null {
        var _ := db.DeleteSession(id, now);
      }
      return true;
    }

    method DropStale(maxAge: nat, now: nat) returns (expired: set<string>)
      requires Valid()
      modifies this`sessions, this`logs
      ensures Valid() && expired == Stale(old(Mem()), maxAge, now)
      ensures sessions == old(sessions) - expired && logs == old(logs) - expired
      ensures forall s: Slice | old(allocated(s)) && old(Settled(s)) :: Settled(s)
    {
      sessions, expired := RemoveStale(sessions, maxAge, now);
      logs := logs - expired;
    }

    method CleanupExpiredSessions(maxAge: nat, now: nat, expiredAt: nat) returns (count: nat)
      requires Valid()
      modifies this`sessions, this`logs, db
      ensures Valid() && count == |Stale(old(Mem()), maxAge, now)|
      ensures sessions == old(sessions) - Stale(old(Mem()), maxAge, now)
      ensures logs == old(logs) - Stale(old(Mem()), maxAge, now)
      ensures db != null ==> db.rows == CloseRows(old(db.rows), Stale(old(Mem()), maxAge, now), Expired, expiredAt)
      ensures count == |set id | id in old(sessions) && old(sessions)[id].lastActivity < now - maxAge|
      ensures sessions == map id | id in old(sessions) && old(sessions)[id].lastActivity >= now - maxAge :: old(sessions)[id]
      ensures db != null ==>
                (db.rows == map id | id in old(db.rows) ::
                   if id in old(sessions) && old(sessions)[id].lastActivity < now - maxAge && old(db.rows)[id].status.Active?
                   then old(db.rows)[id].(status := Expired, lastActivity := expiredAt) else old(db.rows)[id])
      ensures forall s: Slice | old(allocated(s)) && old(Settled(s)) :: Settled(s)
    {
      StaleAre(sessions, RowsNow(), maxAge, now, expiredAt);
      var expired := DropStale(maxAge, now);
      count := |expired|;
      if db != null {
        ExpireRows(expired, expiredAt);
      }
    }

    method ExpireRows(ids: set<string>, now: nat)
      requires db != null
      modifies db
      ensures db.rows == CloseRows(old(db.rows), ids, Expired, now)
    {
      var todo := ids;
      while todo != {}
        invariant todo <= ids && db.rows == CloseRows(old(db.rows), ids - todo, Expired, now)
      {
        var id :| id in todo;
        todo := todo - {id};
        db.ExpireSession(id, now);
      }
    }

    method HydrateOne(id: string, row: Row, ghost before: Sessions, ghost logged: Logs, ghost loaded: Rows)
      requires Valid() && LoadedOnto(before, logged, loaded, sessions, logs)
      modifies this`sessions, this`logs
      ensures Valid() && LoadedOnto(before, logged, loaded[id := row], sessions, logs)
    {
      ghost var held, logsHeld := sessions, logs;
      Insert(id, "", row.device, "", row.problem, row.createdAt, row.lastActivity);
      OneMoreLoaded(before, logged, loaded, held, logsHeld, id, row, sessions[id]);
    }

    method HydrateAll(active: RowList, ghost m: Rows)
      requires Valid() && Lists(active, m)
      modifies this`sessions, this`logs
      ensures Valid() && LoadedOnto(old(sessions), old(logs), m, sessions, logs)
    {
      ghost var loaded: Rows := map[];
      NothingLoaded(sessions, logs);
      for i := 0 to |active|
        invariant Valid() && LoadedOnto(old(sessions), old(logs), loaded, sessions, logs)
        invariant LoadedFirst(active, i, loaded, m)
      {
        LoadNext(active, i, loaded, m);
        HydrateOne(active[i].0, active[i].1, old(sessions), old(logs), loaded);
        loaded := loaded[active[i].0 := active[i].1];
      }
      AllLoaded(active, loaded, m);
    }

    // Load the active rows, with empty histories, into memory; the other sessions stay.
    method HydrateFromDB()
      requires Valid()
      modifies this`sessions, this`logs
      ensures Valid() && (db == null ==> sessions == old(sessions) && logs == old(logs))
      ensures db != null ==> LoadedOnto(old(sessions), old(logs), ActiveRows(db.rows), sessions, logs)
    {
      if db == null {
        return;
      }
      var active := db.ListSessions();
      HydrateAll(active, ActiveRows(db.rows));
    }
  }
}
