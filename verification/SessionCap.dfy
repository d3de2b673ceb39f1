// The per-user session cap when creations race: the check and the insertion of one
// CreateSession call are separate atomic steps.
module SessionCap {
  import opened SessionSpec
  import opened Sets

  // pending: the calls that have passed the check and have yet to insert, with their users.
  datatype State = State(sessions: map<string, string>, pending: map<nat, string>)

  datatype Step =
    | Check(call: nat, user: string)
    | Insert(call: nat, id: string)
    | Remove(ids: set<string>)       // deletion or expiry

  function Held(s: State, user: string): set<string> {
    set id | id in s.sessions && s.sessions[id] == user
  }

  function InFlight(s: State, user: string): set<nat> {
    set c | c in s.pending && s.pending[c] == user
  }

  function Apply(s: State, step: Step): State {
    match step
    case Check(call, user) =>
      if call in s.pending || (user != "" && |Held(s, user)| >= MAX_ACTIVE_SESSIONS_PER_USER) then s
      else s.(pending := s.pending[call := user])
    case Insert(call, id) =>
      if call !in s.pending then s
      else State(s.sessions[id := s.pending[call]], s.pending - {call})
    case Remove(ids) => s.(sessions := s.sessions - ids)
  }

  function Run(steps: seq<Step>): State {
    if steps == [] then State(map[], map[]) else Apply(Run(steps[..|steps| - 1]), steps[|steps| - 1])
  }

  ghost predicate AtMostInFlight(steps: seq<Step>, user: string, k: nat) {
    forall n | 0 <= n <= |steps| :: |InFlight(Run(steps[..n]), user)| <= k
  }

  lemma PrefixAtMostInFlight(steps: seq<Step>, user: string, k: nat)
    requires steps != [] && AtMostInFlight(steps, user, k)
    ensures AtMostInFlight(steps[..|steps| - 1], user, k) && |InFlight(Run(steps), user)| <= k
  {
    var prefix := steps[..|steps| - 1];
    assert steps[..|steps|] == steps;
    forall n | 0 <= n <= |prefix| ensures |InFlight(Run(prefix[..n]), user)| <= k {
      assert prefix[..n] == steps[..n];
    }
  }

  lemma InsertHeld(s: State, call: nat, id: string, user: string)
    requires call in s.pending
    ensures |Held(Apply(s, Insert(call, id)), user)| <= |Held(s, user)| + if s.pending[call] == user then 1 else 0
  {
    var t := Apply(s, Insert(call, id));
    if s.pending[call] == user {
      SubsetSize(Held(t, user), Held(s, user) + {id});
    } else {
      SubsetSize(Held(t, user), Held(s, user));
    }
  }

  lemma InsertInFlight(s: State, call: nat, id: string, user: string)
    requires call in s.pending
    ensures |InFlight(Apply(s, Insert(call, id)), user)| == |InFlight(s, user)| - if s.pending[call] == user then 1 else 0
  {
    var t := Apply(s, Insert(call, id));
    if s.pending[call] == user {
      assert InFlight(t, user) == InFlight(s, user) - {call};
    } else {
      assert InFlight(t, user) == InFlight(s, user);
    }
  }

  lemma CheckBound(s: State, call: nat, u: string, user: string)
    requires user != ""
    ensures var t := Apply(s, Check(call, u));
            t.sessions == s.sessions &&
            (InFlight(t, user) == InFlight(s, user) || |Held(s, user)| < MAX_ACTIVE_SESSIONS_PER_USER)
  {
  }

  // With at most k creations of a user in flight, the user holds at most 4 + k sessions in
  // any interleaving of checks, insertions, deletions and expiries.
  lemma {:induction false} CapUnderRaces(steps: seq<Step>, user: string, k: nat)
    requires user != "" && AtMostInFlight(steps, user, k)
    ensures var s := Run(steps);
            |Held(s, user)| + |InFlight(s, user)| <= MAX_ACTIVE_SESSIONS_PER_USER - 1 + k
  {
    if steps != [] {
      PrefixAtMostInFlight(steps, user, k);
      CapUnderRaces(steps[..|steps| - 1], user, k);
      var s, step := Run(steps[..|steps| - 1]), steps[|steps| - 1];
      match step
      case Check(call, u) => CheckBound(s, call, u, user);
      case Insert(call, id) =>
        if call in s.pending {
          InsertHeld(s, call, id, user);
          InsertInFlight(s, call, id, user);
        }
      case Remove(ids) => SubsetSize(Held(Apply(s, step), user), Held(s, user));
    }
  }

  // ---- the bound is attained ------------------------------------------------------------------------------

  function Id(n: nat): (id: string)
    ensures |id| == n
  {
    seq(n, _ => 'x')
  }

  function Ids(n: nat, user: string): (m: map<string, string>)
    ensures |m| == n && forall id | id in m :: |id| < n && m[id] == user
  {
    if n == 0 then map[] else Ids(n - 1, user)[Id(n - 1) := user]
  }

  function Calls(n: nat, m: nat, user: string): (r: map<nat, string>)
    ensures |r| == (if n < m then m - n else 0) && forall c | c in r :: n <= c < m && r[c] == user
    ensures forall c | n <= c < m :: c in r
  {
    if n < m then Calls(n, m - 1, user)[m - 1 := user] else map[]
  }

  // n sessions of the user, and calls n to m - 1 in flight.
  function Stage(n: nat, m: nat, user: string): State {
    State(Ids(n, user), Calls(n, m, user))
  }

  lemma StageCounts(n: nat, m: nat, user: string)
    ensures |Held(Stage(n, m, user), user)| == n
    ensures |InFlight(Stage(n, m, user), user)| == if n < m then m - n else 0
  {
    assert Held(Stage(n, m, user), user) == Ids(n, user).Keys;
    assert InFlight(Stage(n, m, user), user) == Calls(n, m, user).Keys;
  }

  lemma Extend(steps: seq<Step>, step: Step, user: string, k: nat)
    requires AtMostInFlight(steps, user, k) && |InFlight(Apply(Run(steps), step), user)| <= k
    ensures Run(steps + [step]) == Apply(Run(steps), step) && AtMostInFlight(steps + [step], user, k)
  {
    var more := steps + [step];
    assert more[..|steps|] == steps;
    forall n | 0 <= n <= |more| ensures |InFlight(Run(more[..n]), user)| <= k {
      assert n <= |steps| ==> more[..n] == steps[..n];
      assert n == |more| ==> more[..n] == more;
    }
  }

  lemma StageCheck(n: nat, m: nat, user: string)
    requires n <= m && n < MAX_ACTIVE_SESSIONS_PER_USER
    ensures Apply(Stage(n, m, user), Check(m, user)) == Stage(n, m + 1, user)
  {
    StageCounts(n, m, user);
  }

  lemma StageInsert(n: nat, m: nat, user: string)
    requires n < m
    ensures Apply(Stage(n, m, user), Insert(n, Id(n))) == Stage(n + 1, m, user)
  {
    assert Calls(n, m, user)[n] == user;
    assert Calls(n + 1, m, user) == Calls(n, m, user) - {n};
  }

  ghost predicate Reaches(steps: seq<Step>, n: nat, m: nat, user: string, k: nat) {
    AtMostInFlight(steps, user, k) && Run(steps) == Stage(n, m, user)
  }

  lemma OneCheck(steps: seq<Step>, n: nat, m: nat, user: string, k: nat)
    requires n <= m < n + k && n < MAX_ACTIVE_SESSIONS_PER_USER && Reaches(steps, n, m, user, k)
    ensures Reaches(steps + [Check(m, user)], n, m + 1, user, k)
  {
    StageCheck(n, m, user);
    StageCounts(n, m + 1, user);
    Extend(steps, Check(m, user), user, k);
  }

  lemma OneInsert(steps: seq<Step>, n: nat, m: nat, user: string, k: nat)
    requires n < m <= n + k && Reaches(steps, n, m, user, k)
    ensures Reaches(steps + [Insert(n, Id(n))], n + 1, m, user, k)
  {
    StageInsert(n, m, user);
    StageCounts(n + 1, m, user);
    Extend(steps, Insert(n, Id(n)), user, k);
  }

  lemma {:induction false} Checks(steps: seq<Step>, n: nat, m: nat, top: nat, user: string, k: nat) returns (r: seq<Step>)
    requires n <= m <= top <= n + k && n < MAX_ACTIVE_SESSIONS_PER_USER && Reaches(steps, n, m, user, k)
    ensures Reaches(r, n, top, user, k)
    decreases (top as int) - m
  {
    if m == top {
      return steps;
    }
    OneCheck(steps, n, m, user, k);
    r := Checks(steps + [Check(m, user)], n, m + 1, top, user, k);
  }

  lemma {:induction false} Inserts(steps: seq<Step>, n: nat, m: nat, user: string, k: nat) returns (r: seq<Step>)
    requires n <= m <= n + k && Reaches(steps, n, m, user, k)
    ensures Reaches(r, m, m, user, k)
    decreases (m as int) - n
  {
    if n == m {
      return steps;
    }
    OneInsert(steps, n, m, user, k);
    r := Inserts(steps + [Insert(n, Id(n))], n + 1, m, user, k);
  }

  // From n sessions, j checks and then their j insertions.
  lemma Wave(steps: seq<Step>, n: nat, user: string, k: nat, j: nat) returns (r: seq<Step>)
    requires n < MAX_ACTIVE_SESSIONS_PER_USER && j <= k && Reaches(steps, n, n, user, k)
    ensures Reaches(r, n + j, n + j, user, k)
  {
    r := Checks(steps, n, n, n + j, user, k);
    r := Inserts(r, n, n + j, user, k);
  }

  // The bound is reached for every k >= 1: 4 sessions one by one, then k at once.
  lemma CapIsAttained(user: string, k: nat) returns (steps: seq<Step>)
    requires user != "" && k >= 1
    ensures AtMostInFlight(steps, user, k) && |Held(Run(steps), user)| == MAX_ACTIVE_SESSIONS_PER_USER - 1 + k
  {
    steps := [];
    StageCounts(0, 0, user);
    assert Reaches(steps, 0, 0, user, k);
    steps := Wave(steps, 0, user, k, 1);
    steps := Wave(steps, 1, user, k, 1);
    steps := Wave(steps, 2, user, k, 1);
    steps := Wave(steps, 3, user, k, 1);
    steps := Wave(steps, 4, user, k, k);
    StageCounts(4 + k, 4 + k, user);
  }

  // ---- calls one after the other ----------------------------------------------------------------------------

  function Users(mem: map<string, Meta>): map<string, string> {
    map id | id in mem :: mem[id].user
  }

  // The steps of an operation on its own; a creation is call 0.
  function StepsOf(w: World, op: Op): seq<Step> {
    match op
    case Create(id, user, device, at) => [Check(0, user), Insert(0, id)]
    case Touch(id, at) => []
    case Delete(id, at) => [Remove({id})]
    case Cleanup(maxAge, at, expiredAt) => [Remove(Stale(w.mem, maxAge, at))]
    case Restart => []
  }

  function AllSteps(ops: seq<Op>): seq<Step> {
    if ops == [] then [] else
      AllSteps(ops[..|ops| - 1]) + StepsOf(SessionSpec.Run(EMPTY, ops[..|ops| - 1]), ops[|ops| - 1])
  }

  lemma RunOne(steps: seq<Step>, step: Step)
    ensures Run(steps + [step]) == Apply(Run(steps), step)
  {
    assert (steps + [step])[..|steps|] == steps;
  }

  lemma CheckInsertIsCreate(w: World, id: string, user: string, device: Device, at: nat)
    ensures Apply(Apply(State(Users(w.mem), map[]), Check(0, user)), Insert(0, id)) ==
            State(Users(SessionSpec.Apply(w, Create(id, user, device, at)).mem), map[])
  {
    assert Held(State(Users(w.mem), map[]), user) == SessionsOf(w.mem, user);
  }

  lemma RemoveIsRemoval(w: World, ids: set<string>)
    ensures Users(w.mem - ids) == Users(w.mem) - ids
  {
  }

  lemma StepsOfOp(steps: seq<Step>, w: World, op: Op)
    requires Run(steps) == State(Users(w.mem), map[]) && !op.Restart?
    ensures Run(steps + StepsOf(w, op)) == State(Users(SessionSpec.Apply(w, op).mem), map[])
  {
    match op
    case Create(id, user, device, at) =>
      RunOne(steps, Check(0, user));
      RunOne(steps + [Check(0, user)], Insert(0, id));
      assert steps + StepsOf(w, op) == (steps + [Check(0, user)]) + [Insert(0, id)];
      CheckInsertIsCreate(w, id, user, device, at);
    case Touch(id, at) =>
      assert steps + [] == steps;
      assert Users(SessionSpec.Apply(w, op).mem) == Users(w.mem);
    case Delete(id, at) =>
      RunOne(steps, Remove({id}));
      RemoveIsRemoval(w, {id});
      assert id !in w.mem ==> w.mem - {id} == w.mem;
    case Cleanup(maxAge, at, expiredAt) =>
      RunOne(steps, Remove(Stale(w.mem, maxAge, at)));
      RemoveIsRemoval(w, Stale(w.mem, maxAge, at));
  }

  // The sequential runs of the session store are among the interleavings: each creation is a
  // check followed at once by its insertion.
  lemma {:induction false} SequentialRunsAreRuns(ops: seq<Op>)
    requires forall op | op in ops :: !op.Restart?
    ensures Run(AllSteps(ops)) == State(Users(SessionSpec.Run(EMPTY, ops).mem), map[])
  {
    if ops == [] {
      assert Users(EMPTY.mem) == map[];
    } else {
      var prefix, op := ops[..|ops| - 1], ops[|ops| - 1];
      assert op in ops && forall o | o in prefix :: o in ops;
      SequentialRunsAreRuns(prefix);
      StepsOfOp(AllSteps(prefix), SessionSpec.Run(EMPTY, prefix), op);
    }
  }
}
