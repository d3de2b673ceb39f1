// Which sessions exist, in memory and as database rows, over runs that include restarts.
module SessionSpec {
  import opened Sets

  const MAX_ACTIVE_SESSIONS_PER_USER: nat := 5

  datatype Device = Device(brand: string, model: string)

  // What of a session in memory matters here.
  datatype Meta = Meta(user: string, device: Device, createdAt: nat, lastActivity: nat)

  datatype Status = Active | Completed | Expired

  datatype Row = Row(device: Device, status: Status, problem: string, createdAt: nat, lastActivity: nat)

  type Rows = map<string, Row>

  // ---- rows ---------------------------------------------------------------------------------------------

  // The upsert: a row that exists keeps its status, device and creation time.
  function SaveRow(rows: Rows, id: string, device: Device, problem: string, createdAt: nat, lastActivity: nat): Rows {
    if id in rows then rows[id := rows[id].(problem := problem, lastActivity := lastActivity)]
    else rows[id := Row(device, Active, problem, createdAt, lastActivity)]
  }

  // Deleting and expiring change active rows only.
  function CloseRow(rows: Rows, id: string, status: Status, now: nat): Rows {
    if id in rows && rows[id].status.Active? then rows[id := rows[id].(status := status, lastActivity := now)] else rows
  }

  function CloseRows(rows: Rows, ids: set<string>, status: Status, now: nat): Rows {
    map id | id in rows ::
      if id in ids && rows[id].status.Active? then rows[id].(status := status, lastActivity := now) else rows[id]
  }

  function ActiveRows(rows: Rows): Rows {
    map id | id in rows && rows[id].status.Active? :: rows[id]
  }

  // ---- operations -----------------------------------------------------------------------------------------

  datatype World = World(mem: map<string, Meta>, rows: Rows)

  datatype Op =
    | Create(id: string, user: string, device: Device, at: nat)
    | Touch(id: string, at: nat)                // a message, a step or a detected problem
    | Delete(id: string, at: nat)
    | Cleanup(maxAge: nat, at: nat, expiredAt: nat)
    | Restart                                   // an empty memory, hydrated from the rows

  function SessionsOf(mem: map<string, Meta>, user: string): set<string> {
    set id | id in mem && mem[id].user == user
  }

  predicate AtCap(mem: map<string, Meta>, user: string) {
    user != "" && |SessionsOf(mem, user)| >= MAX_ACTIVE_SESSIONS_PER_USER
  }

  // The sessions whose last activity lies before the cutoff.
  function Stale(mem: map<string, Meta>, maxAge: nat, at: nat): set<string> {
    set id | id in mem && mem[id].lastActivity < at - maxAge
  }

  function RowMeta(row: Row): Meta {
    Meta("", row.device, row.createdAt, row.lastActivity)
  }

  function RowMetas(rows: Rows): map<string, Meta> {
    map id | id in rows :: RowMeta(rows[id])
  }

  function Hydrated(rows: Rows): map<string, Meta> {
    RowMetas(ActiveRows(rows))
  }

  function Apply(w: World, op: Op): World {
    match op
    case Create(id, user, device, at) =>
      if AtCap(w.mem, user) then w
      else World(w.mem[id := Meta(user, device, at, at)], SaveRow(w.rows, id, device, "", at, at))
    case Touch(id, at) =>
      if id in w.mem then w.(mem := w.mem[id := w.mem[id].(lastActivity := at)]) else w
    case Delete(id, at) =>
      if id in w.mem then World(w.mem - {id}, CloseRow(w.rows, id, Completed, at)) else w
    case Cleanup(maxAge, at, expiredAt) =>
      var stale := Stale(w.mem, maxAge, at);
      World(w.mem - stale, CloseRows(w.rows, stale, Expired, expiredAt))
    case Restart =>
      World(Hydrated(w.rows), w.rows)
  }

  function Run(w: World, ops: seq<Op>): World {
    if ops == [] then w else Apply(Run(w, ops[..|ops| - 1]), ops[|ops| - 1])
  }

  const EMPTY: World := World(map[], map[])

  // ---- memory and rows agree --------------------------------------------------------------------------------

  ghost predicate InSync(w: World) {
    && w.mem.Keys == ActiveRows(w.rows).Keys
    && forall id | id in w.mem :: w.mem[id].device == w.rows[id].device && w.mem[id].createdAt == w.rows[id].createdAt
  }

  // Only a reused id can take memory and rows apart, and then it does, unless it names an
  // active row of the very same device and creation time.
  lemma CreateKeepsSyncIff(w: World, id: string, user: string, device: Device, at: nat)
    requires InSync(w)
    ensures InSync(Apply(w, Create(id, user, device, at))) <==>
            AtCap(w.mem, user) || id !in w.rows
            || (w.rows[id].status.Active? && w.rows[id].device == device && w.rows[id].createdAt == at)
  {
    var w' := Apply(w, Create(id, user, device, at));
    if !AtCap(w.mem, user) {
      assert id in w'.mem;
      assert forall k | k != id :: (k in w'.mem <==> k in w.mem) && (k in w'.rows <==> k in w.rows);
      assert forall k | k != id && k in w.rows :: w'.rows[k] == w.rows[k];
      if id in w.rows && !w.rows[id].status.Active? {
        assert id !in ActiveRows(w'.rows).Keys;
      }
    }
  }

  // An id used again after its deletion does take them apart: the session is in memory, its row
  // stays completed.
  lemma ReusedIdBreaksSync(id: string, user: string, device: Device, t1: nat, t2: nat, t3: nat)
    ensures !InSync(Run(EMPTY, [Create(id, user, device, t1), Delete(id, t2), Create(id, user, device, t3)]))
  {
    var ops := [Create(id, user, device, t1), Delete(id, t2), Create(id, user, device, t3)];
    assert ops[..2][..1] == ops[..1] && ops[..1][..0] == [];
    assert SessionsOf(map[], user) == {};
    var w1 := Apply(EMPTY, ops[0]);
    assert Run(EMPTY, ops[..1]) == w1 && w1.rows[id].status.Active?;
    var w2 := Apply(w1, ops[1]);
    assert Run(EMPTY, ops[..2]) == w2 && id in w2.rows && w2.rows[id].status.Completed?;
    assert w2.mem == map[];
    CreateKeepsSyncIff(w2, id, user, device, t3);
  }

  lemma OtherOpsKeepSync(w: World, op: Op)
    requires InSync(w) && !op.Create?
    ensures InSync(Apply(w, op))
  {
    assert forall id | id in w.mem :: id in ActiveRows(w.rows).Keys;
  }

  function CreatedIds(ops: seq<Op>): set<string> {
    set op | op in ops && op.Create? :: op.id
  }

  // Every creation brings an id of its own.
  ghost predicate FreshIds(ops: seq<Op>) {
    forall i, j | 0 <= i < j < |ops| :: ops[i].Create? && ops[j].Create? ==> ops[i].id != ops[j].id
  }

  // From an empty start and with fresh ids, the sessions in memory are the active rows at
  // every operation boundary, restarts included.
  lemma {:induction false} RunsStayInSync(ops: seq<Op>)
    requires FreshIds(ops)
    ensures InSync(Run(EMPTY, ops)) && Run(EMPTY, ops).rows.Keys <= CreatedIds(ops)
  {
    if ops != [] {
      var prefix, op := ops[..|ops| - 1], ops[|ops| - 1];
      RunsStayInSync(prefix);
      var w := Run(EMPTY, prefix);
      assert forall o | o in prefix :: o in ops;
      assert op in ops;
      if op.Create? {
        forall o | o in prefix && o.Create? ensures o.id != op.id {
          var i :| 0 <= i < |prefix| && prefix[i] == o;
          assert ops[i] == o;
        }
        assert op.id !in CreatedIds(prefix);
        CreateKeepsSyncIff(w, op.id, op.user, op.device, op.at);
      } else {
        OtherOpsKeepSync(w, op);
      }
    }
  }

  // A restart at any point of such a run brings back the same sessions with the same devices
  // and creation times, and leaves the rows alone.
  lemma RestartRestores(ops: seq<Op>)
    requires FreshIds(ops)
    ensures var w := Run(EMPTY, ops);
            var r := Apply(w, Restart);
            && r.rows == w.rows && r.mem.Keys == w.mem.Keys
            && forall id | id in w.mem :: r.mem[id].device == w.mem[id].device && r.mem[id].createdAt == w.mem[id].createdAt
  {
    RunsStayInSync(ops);
  }

  // A row once closed stays closed the same way, whatever ids are used.
  lemma {:induction false} ClosedStaysClosed(w: World, ops: seq<Op>, id: string)
    requires id in w.rows && !w.rows[id].status.Active?
    ensures id in Run(w, ops).rows && Run(w, ops).rows[id].status == w.rows[id].status
  {
    if ops != [] {
      ClosedStaysClosed(w, ops[..|ops| - 1], id);
    }
  }

  // ---- which sessions a cleanup spares ------------------------------------------------------------------------

  // When session id was last active in a run from w: a touch counts at once, and a restart goes
  // back to what the row holds.
  function LastActive(w: World, ops: seq<Op>, id: string): nat
    requires id in w.mem && id in w.rows
  {
    if ops == [] then w.mem[id].lastActivity else
      match ops[|ops| - 1]
      case Create(_, _, _, _) => LastActive(w, ops[..|ops| - 1], id)
      case Touch(touched, at) => if touched == id then at else LastActive(w, ops[..|ops| - 1], id)
      case Delete(_, _) => LastActive(w, ops[..|ops| - 1], id)
      case Cleanup(_, _, _) => LastActive(w, ops[..|ops| - 1], id)
      case Restart => w.rows[id].lastActivity
  }

  // Where a session stands that was last active at a time and was created with a row.
  ghost predicate Alive(w: World, id: string, row: Row, last: nat) {
    id in w.mem && w.mem[id].lastActivity == last && id in w.rows && w.rows[id] == row
  }

  ghost predicate Gone(w: World, id: string, row: Row, expiredAt: nat) {
    id !in w.mem && id in w.rows && w.rows[id] == row.(status := Expired, lastActivity := expiredAt)
  }

  lemma AliveStep(w: World, op: Op, id: string, row: Row, last: nat)
    requires Alive(w, id, row, last) && row.status.Active?
    requires op.Create? || op.Delete? ==> op.id != id
    ensures var last' := if op.Touch? && op.id == id then op.at else if op.Restart? then row.lastActivity else last;
            if op.Cleanup? && last < op.at - op.maxAge then Gone(Apply(w, op), id, row, op.expiredAt)
            else Alive(Apply(w, op), id, row, last')
  {
  }

  lemma GoneStep(w: World, op: Op, id: string, row: Row, expiredAt: nat)
    requires Gone(w, id, row, expiredAt)
    requires op.Create? || op.Delete? ==> op.id != id
    ensures Gone(Apply(w, op), id, row, expiredAt)
  {
  }

  // Nothing but a cleanup ends the session: no deletion, and no second use of its id.
  predicate LeftAlone(ops: seq<Op>, id: string) {
    forall op | op in ops :: op.Create? || op.Delete? ==> op.id != id
  }

  // Every cleanup up to here found the session active within its maximal age.
  ghost predicate ActiveEnough(w: World, ops: seq<Op>, id: string)
    requires id in w.mem && id in w.rows
  {
    forall k | 0 <= k < |ops| && ops[k].Cleanup? :: LastActive(w, ops[..k], id) >= ops[k].at - ops[k].maxAge
  }

  // The first cleanup that did not is the k-th operation.
  ghost predicate TooOldAt(w: World, ops: seq<Op>, id: string, k: nat)
    requires id in w.mem && id in w.rows
  {
    && k < |ops| && ops[k].Cleanup? && LastActive(w, ops[..k], id) < ops[k].at - ops[k].maxAge
    && ActiveEnough(w, ops[..k], id)
  }

  lemma ActiveEnoughStep(w: World, ops: seq<Op>, id: string)
    requires id in w.mem && id in w.rows && ops != []
    ensures var prefix, op := ops[..|ops| - 1], ops[|ops| - 1];
            ActiveEnough(w, ops, id) <==>
            ActiveEnough(w, prefix, id) && (op.Cleanup? ==> LastActive(w, prefix, id) >= op.at - op.maxAge)
  {
    var prefix := ops[..|ops| - 1];
    forall k | 0 <= k < |prefix| ensures prefix[..k] == ops[..k] && prefix[k] == ops[k] {
    }
    if ActiveEnough(w, ops, id) {
      forall k | 0 <= k < |prefix| && prefix[k].Cleanup?
        ensures LastActive(w, prefix[..k], id) >= prefix[k].at - prefix[k].maxAge
      {
        assert ops[k].Cleanup?;
      }
    }
  }

  lemma TooOldLater(w: World, ops: seq<Op>, id: string, k: nat)
    requires id in w.mem && id in w.rows && ops != [] && TooOldAt(w, ops[..|ops| - 1], id, k)
    ensures TooOldAt(w, ops, id, k) && ops[k] == ops[..|ops| - 1][k]
  {
    assert ops[..|ops| - 1][..k] == ops[..k];
  }

  lemma TooOldNow(w: World, ops: seq<Op>, id: string)
    requires id in w.mem && id in w.rows && ops != []
    requires ActiveEnough(w, ops[..|ops| - 1], id) && !ActiveEnough(w, ops, id)
    ensures TooOldAt(w, ops, id, |ops| - 1)
  {
    ActiveEnoughStep(w, ops, id);
  }

  // Alive with its last activity, or taken by the first cleanup that found it too old.
  ghost predicate HasFate(w: World, ops: seq<Op>, id: string, after: World)
    requires id in w.mem && id in w.rows
  {
    && (ActiveEnough(w, ops, id) ==> Alive(after, id, w.rows[id], LastActive(w, ops, id)))
    && (!ActiveEnough(w, ops, id) ==>
          exists k: nat :: TooOldAt(w, ops, id, k) && Gone(after, id, w.rows[id], ops[k].expiredAt))
  }

  lemma FateOfAlive(w: World, ops: seq<Op>, id: string, before: World)
    requires id in w.mem && id in w.rows && w.rows[id].status.Active? && ops != []
    requires var op := ops[|ops| - 1]; op.Create? || op.Delete? ==> op.id != id
    requires ActiveEnough(w, ops[..|ops| - 1], id) && HasFate(w, ops[..|ops| - 1], id, before)
    ensures HasFate(w, ops, id, Apply(before, ops[|ops| - 1]))
  {
    ActiveEnoughStep(w, ops, id);
    AliveStep(before, ops[|ops| - 1], id, w.rows[id], LastActive(w, ops[..|ops| - 1], id));
    if !ActiveEnough(w, ops, id) {
      TooOldNow(w, ops, id);
    }
  }

  lemma FateOfGone(w: World, ops: seq<Op>, id: string, before: World)
    requires id in w.mem && id in w.rows && w.rows[id].status.Active? && ops != []
    requires var op := ops[|ops| - 1]; op.Create? || op.Delete? ==> op.id != id
    requires !ActiveEnough(w, ops[..|ops| - 1], id) && HasFate(w, ops[..|ops| - 1], id, before)
    ensures HasFate(w, ops, id, Apply(before, ops[|ops| - 1]))
  {
    var prefix := ops[..|ops| - 1];
    var k: nat :| TooOldAt(w, prefix, id, k) && Gone(before, id, w.rows[id], prefix[k].expiredAt);
    GoneStep(before, ops[|ops| - 1], id, w.rows[id], prefix[k].expiredAt);
    TooOldLater(w, ops, id, k);
    ActiveEnoughStep(w, ops, id);
  }

  lemma {:induction false} FateOf(w: World, ops: seq<Op>, id: string)
    requires id in w.mem && id in w.rows && w.rows[id].status.Active? && LeftAlone(ops, id)
    ensures HasFate(w, ops, id, Run(w, ops))
  {
    if ops != [] {
      var prefix, op := ops[..|ops| - 1], ops[|ops| - 1];
      assert op in ops && forall o | o in prefix :: o in ops;
      FateOf(w, prefix, id);
      if ActiveEnough(w, prefix, id) {
        FateOfAlive(w, ops, id, Run(w, prefix));
      } else {
        FateOfGone(w, ops, id, Run(w, prefix));
      }
    }
  }

  // A session survives a run, restarts included, exactly if every cleanup finds it active within
  // the maximal age; the first one that does not takes it, for good, and its row expires then.
  lemma SurvivesIff(w: World, ops: seq<Op>, id: string)
    requires id in w.mem && id in w.rows && w.rows[id].status.Active? && LeftAlone(ops, id)
    ensures id in Run(w, ops).mem <==>
            forall k | 0 <= k < |ops| && ops[k].Cleanup? :: LastActive(w, ops[..k], id) >= ops[k].at - ops[k].maxAge
    ensures id in Run(w, ops).mem ==> Run(w, ops).mem[id].lastActivity == LastActive(w, ops, id)
    ensures id in Run(w, ops).mem ==> id in Run(w, ops).rows && Run(w, ops).rows[id] == w.rows[id]
    ensures id !in Run(w, ops).mem ==> id in Run(w, ops).rows && Run(w, ops).rows[id].status.Expired?
    ensures id !in Run(w, ops).mem ==>
              (exists k: nat :: TooOldAt(w, ops, id, k) && Run(w, ops).rows[id].lastActivity == ops[k].expiredAt)
  {
    FateOf(w, ops, id);
    if !ActiveEnough(w, ops, id) {
      var k: nat :| TooOldAt(w, ops, id, k) && Gone(Run(w, ops), id, w.rows[id], ops[k].expiredAt);
    }
  }

  // Calls one after the other never take a user beyond the cap.
  lemma {:induction false} SequentialCap(ops: seq<Op>, user: string)
    requires user != ""
    ensures |SessionsOf(Run(EMPTY, ops).mem, user)| <= MAX_ACTIVE_SESSIONS_PER_USER
  {
    if ops != [] {
      var prefix, op := ops[..|ops| - 1], ops[|ops| - 1];
      SequentialCap(prefix, user);
      var before, after := SessionsOf(Run(EMPTY, prefix).mem, user), SessionsOf(Run(EMPTY, ops).mem, user);
      if op.Create? && op.user == user {
        assert after <= before + {op.id};
        SubsetSize(after, before + {op.id});
      } else {
        SubsetSize(after, before);
      }
    }
  }
}
