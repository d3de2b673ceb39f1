// WebSocket connections: the counters and sets that each call of Handle raises and lowers again.
module WsConnections {

  const MAX_CONNS_PER_IP: nat := 10

  // ---- connections per address ------------------------------------------------------------------------------

  function CountOf(conns: map<string, nat>, ip: string): nat {
    if ip in conns then conns[ip] else 0
  }

  function Added(conns: map<string, nat>, ip: string): map<string, nat> {
    if CountOf(conns, ip) >= MAX_CONNS_PER_IP then conns else conns[ip := CountOf(conns, ip) + 1]
  }

  // The guard against going below zero is that of the source.
  function Removed(conns: map<string, nat>, ip: string): map<string, nat> {
    if CountOf(conns, ip) > 0 then conns[ip := CountOf(conns, ip) - 1] else conns
  }

  class IpConnTracker {
    var conns: map<string, nat>

    constructor ()
      ensures conns == map[]
    {
      conns := map[];
    }

    method Add(ip: string) returns (ok: bool)
      modifies this
      ensures ok == (CountOf(old(conns), ip) < MAX_CONNS_PER_IP) && conns == Added(old(conns), ip)
    {
      if ip in conns {
        if conns[ip] >= MAX_CONNS_PER_IP {
          return false;
        }
        conns := conns[ip := conns[ip] + 1];
      } else {
        conns := conns[ip := 1];
      }
      return true;
    }

    method Remove(ip: string)
      modifies this
      ensures conns == Removed(old(conns), ip)
    {
      if ip in conns && conns[ip] > 0 {
        conns := conns[ip := conns[ip] - 1];
      }
    }
  }

  // How a call of Handle ends.
  datatype Exit = DeadlineFailed | LimitReached | CreateFailed | Closed

  class WSHandler {
    const ipConns: IpConnTracker
    var activeConns: int
    var conns: set<nat>      // the registered connections, by number

    constructor ()
      ensures activeConns == 0 && conns == {} && ipConns.conns == map[] && fresh(ipConns)
    {
      ipConns := new IpConnTracker();
      activeConns, conns := 0, {};
    }

    method Register(sc: nat)
      modifies this`conns
      ensures conns == old(conns) + {sc}
    {
      conns := conns + {sc};
    }

    method Deregister(sc: nat)
      modifies this`conns
      ensures conns == old(conns) - {sc}
    {
      conns := conns - {sc};
    }

    // A whole call, with nothing in between: whichever way it ends, what it took it gives back.
    method Handle(sc: nat, ip: string, deadlineSet: bool, created: bool) returns (exit: Exit)
      requires sc !in conns
      modifies this, ipConns
      ensures activeConns == old(activeConns) && conns == old(conns)
      ensures forall a: string :: CountOf(ipConns.conns, a) == CountOf(old(ipConns.conns), a)
      ensures exit.DeadlineFailed? <==> !deadlineSet
      ensures exit.LimitReached? <==> deadlineSet && CountOf(old(ipConns.conns), ip) >= MAX_CONNS_PER_IP
      ensures exit.CreateFailed? <==> deadlineSet && CountOf(old(ipConns.conns), ip) < MAX_CONNS_PER_IP && !created
    {
      if !deadlineSet {
        return DeadlineFailed;
      }
      var ok := ipConns.Add(ip);
      if !ok {
        return LimitReached;
      }
      activeConns := activeConns + 1;
      Register(sc);
      if !created {
        activeConns := activeConns - 1;
        ipConns.Remove(ip);
        Deregister(sc);
        return CreateFailed;
      }
      // the message loop
      activeConns := activeConns - 1;
      ipConns.Remove(ip);
      Deregister(sc);
      return Closed;
    }
  }

  // ---- any number of calls at once --------------------------------------------------------------------------

  // Where a call stands between two atomic steps. Closing is reached from the failed creation
  // of a session as well as from the end of the message loop.
  datatype Place = Fresh | HasSlot | IsCounted | IsRegistered | Serving | Closing | Uncounted | SlotReturned | Done

  datatype Call = Call(ip: string, place: Place)

  datatype State = State(ipConns: map<string, nat>, activeConns: int, conns: set<nat>, calls: map<nat, Call>)

  const START: State := State(map[], 0, {}, map[])

  datatype Step =
    | Enter(call: nat, ip: string)
    | FailDeadline(call: nat)
    | AddIp(call: nat)
    | RaiseActive(call: nat)
    | RegisterConn(call: nat)
    | CreateSession(call: nat, ok: bool)
    | EndLoop(call: nat)
    | LowerActive(call: nat)
    | RemoveIp(call: nat)
    | DeregisterConn(call: nat)

  predicate At(s: State, call: nat, place: Place) {
    call in s.calls && s.calls[call].place == place
  }

  predicate Enabled(s: State, step: Step) {
    match step
    case Enter(call, ip) => call !in s.calls
    case FailDeadline(call) => At(s, call, Fresh)
    case AddIp(call) => At(s, call, Fresh)
    case RaiseActive(call) => At(s, call, HasSlot)
    case RegisterConn(call) => At(s, call, IsCounted)
    case CreateSession(call, ok) => At(s, call, IsRegistered)
    case EndLoop(call) => At(s, call, Serving)
    case LowerActive(call) => At(s, call, Closing)
    case RemoveIp(call) => At(s, call, Uncounted)
    case DeregisterConn(call) => At(s, call, SlotReturned)
  }

  function Go(s: State, call: nat, place: Place): State
    requires call in s.calls
  {
    s.(calls := s.calls[call := s.calls[call].(place := place)])
  }

  function Apply(s: State, step: Step): State
    requires Enabled(s, step)
  {
    match step
    case Enter(call, ip) => s.(calls := s.calls[call := Call(ip, Fresh)])
    case FailDeadline(call) => Go(s, call, Done)
    case AddIp(call) =>
      var ip := s.calls[call].ip;
      Go(s, call, if CountOf(s.ipConns, ip) >= MAX_CONNS_PER_IP then Done else HasSlot).(ipConns := Added(s.ipConns, ip))
    case RaiseActive(call) => Go(s, call, IsCounted).(activeConns := s.activeConns + 1)
    case RegisterConn(call) => Go(s, call, IsRegistered).(conns := s.conns + {call})
    case CreateSession(call, ok) => Go(s, call, if ok then Serving else Closing)
    case EndLoop(call) => Go(s, call, Closing)
    case LowerActive(call) => Go(s, call, Uncounted).(activeConns := s.activeConns - 1)
    case RemoveIp(call) => Go(s, call, SlotReturned).(ipConns := Removed(s.ipConns, s.calls[call].ip))
    case DeregisterConn(call) => Go(s, call, Done).(conns := s.conns - {call})
  }

  // A run; a step that is not enabled does nothing.
  function Run(steps: seq<Step>): State {
    if steps == [] then START else
      var before, step := Run(steps[..|steps| - 1]), steps[|steps| - 1];
      if Enabled(before, step) then Apply(before, step) else before
  }

  // ---- who holds what -----------------------------------------------------------------------------------------

  predicate HoldsSlot(p: Place) {
    p in {HasSlot, IsCounted, IsRegistered, Serving, Closing, Uncounted}
  }

  predicate HoldsCount(p: Place) {
    p in {IsCounted, IsRegistered, Serving, Closing}
  }

  predicate HoldsConn(p: Place) {
    p in {IsRegistered, Serving, Closing, Uncounted, SlotReturned}
  }

  // The calls from ip between adding it and removing it.
  function SlotHolders(calls: map<nat, Call>, ip: string): set<nat> {
    set c | c in calls && calls[c].ip == ip && HoldsSlot(calls[c].place)
  }

  function CountHolders(calls: map<nat, Call>): set<nat> {
    set c | c in calls && HoldsCount(calls[c].place)
  }

  function ConnHolders(calls: map<nat, Call>): set<nat> {
    set c | c in calls && HoldsConn(calls[c].place)
  }

  ghost predicate SlotsAgree(s: State) {
    forall ip: string :: CountOf(s.ipConns, ip) == |SlotHolders(s.calls, ip)| <= MAX_CONNS_PER_IP
  }

  ghost predicate Conserved(s: State) {
    SlotsAgree(s) && s.activeConns == |CountHolders(s.calls)| && s.conns == ConnHolders(s.calls)
  }

  function Put(s: set<nat>, c: nat, member: bool): (r: set<nat>)
    ensures |r| == |s| + (if member && c !in s then 1 else 0) - (if !member && c in s then 1 else 0)
  {
    if member then s + {c} else s - {c}
  }

  // What moving one call to another place does to the holders.
  lemma MoveSlot(calls: map<nat, Call>, call: nat, ip: string, place: Place)
    requires call in calls ==> calls[call].ip == ip
    ensures SlotHolders(calls[call := Call(ip, place)], ip) == Put(SlotHolders(calls, ip), call, HoldsSlot(place))
  {
  }

  lemma MoveOtherSlot(calls: map<nat, Call>, call: nat, ip: string, place: Place, other: string)
    requires (call in calls ==> calls[call].ip == ip) && other != ip
    ensures SlotHolders(calls[call := Call(ip, place)], other) == SlotHolders(calls, other)
  {
  }

  lemma MoveCount(calls: map<nat, Call>, call: nat, ip: string, place: Place)
    ensures CountHolders(calls[call := Call(ip, place)]) == Put(CountHolders(calls), call, HoldsCount(place))
  {
  }

  lemma MoveConn(calls: map<nat, Call>, call: nat, ip: string, place: Place)
    ensures ConnHolders(calls[call := Call(ip, place)]) == Put(ConnHolders(calls), call, HoldsConn(place))
  {
  }

  // The slots agree after a step that moves one call, given the new count for its address.
  lemma SlotsMove(s: State, t: State, call: nat, ip: string, place: Place)
    requires SlotsAgree(s) && t.calls == s.calls[call := Call(ip, place)] && (call in s.calls ==> s.calls[call].ip == ip)
    requires forall a: string | a != ip :: CountOf(t.ipConns, a) == CountOf(s.ipConns, a)
    requires CountOf(t.ipConns, ip) == |Put(SlotHolders(s.calls, ip), call, HoldsSlot(place))| <= MAX_CONNS_PER_IP
    ensures SlotsAgree(t)
  {
    forall a: string ensures CountOf(t.ipConns, a) == |SlotHolders(t.calls, a)| <= MAX_CONNS_PER_IP {
      if a == ip {
        MoveSlot(s.calls, call, ip, place);
      } else {
        MoveOtherSlot(s.calls, call, ip, place, a);
        assert CountOf(s.ipConns, a) == |SlotHolders(s.calls, a)|;
      }
    }
  }

  // Removing an address always finds a positive count: the guard against zero never acts.
  lemma RemoveFindsACount(s: State, call: nat)
    requires SlotsAgree(s) && At(s, call, Uncounted)
    ensures CountOf(s.ipConns, s.calls[call].ip) > 0
  {
    var ip := s.calls[call].ip;
    assert call in SlotHolders(s.calls, ip);
    assert CountOf(s.ipConns, ip) == |SlotHolders(s.calls, ip)|;
  }

  // ---- conservation -------------------------------------------------------------------------------------------

  // The address of the call a step is about.
  function IpOf(s: State, step: Step): string
    requires Enabled(s, step)
  {
    if step.Enter? then step.ip else s.calls[step.call].ip
  }

  function PlaceAfter(s: State, step: Step): Place
    requires Enabled(s, step)
  {
    Apply(s, step).calls[step.call].place
  }

  lemma CallsAfter(s: State, step: Step)
    requires Enabled(s, step)
    ensures Apply(s, step).calls == s.calls[step.call := Call(IpOf(s, step), PlaceAfter(s, step))]
  {
  }

  // What a step does to the three resources, by where its call stood and stands.
  lemma SlotTaken(s: State, step: Step)
    requires Enabled(s, step) && (step.RemoveIp? ==> CountOf(s.ipConns, IpOf(s, step)) > 0)
    ensures var before := step.call in s.calls && HoldsSlot(s.calls[step.call].place);
            CountOf(Apply(s, step).ipConns, IpOf(s, step)) ==
            CountOf(s.ipConns, IpOf(s, step)) + (if HoldsSlot(PlaceAfter(s, step)) && !before then 1 else 0)
            - (if !HoldsSlot(PlaceAfter(s, step)) && before then 1 else 0)
    ensures forall a: string | a != IpOf(s, step) :: CountOf(Apply(s, step).ipConns, a) == CountOf(s.ipConns, a)
    ensures CountOf(s.ipConns, IpOf(s, step)) <= MAX_CONNS_PER_IP ==>
              CountOf(Apply(s, step).ipConns, IpOf(s, step)) <= MAX_CONNS_PER_IP
  {
  }

  lemma CountTaken(s: State, step: Step)
    requires Enabled(s, step)
    ensures var before := step.call in s.calls && HoldsCount(s.calls[step.call].place);
            Apply(s, step).activeConns ==
            s.activeConns + (if HoldsCount(PlaceAfter(s, step)) && !before then 1 else 0)
            - (if !HoldsCount(PlaceAfter(s, step)) && before then 1 else 0)
  {
  }

  lemma ConnTaken(s: State, step: Step)
    requires Enabled(s, step)
    requires step.call in s.conns <==> step.call in s.calls && HoldsConn(s.calls[step.call].place)
    ensures Apply(s, step).conns == Put(s.conns, step.call, HoldsConn(PlaceAfter(s, step)))
  {
  }

  lemma SlotsStep(s: State, step: Step)
    requires SlotsAgree(s) && Enabled(s, step)
    ensures SlotsAgree(Apply(s, step))
  {
    var t, ip, place := Apply(s, step), IpOf(s, step), PlaceAfter(s, step);
    assert CountOf(s.ipConns, ip) == |SlotHolders(s.calls, ip)| <= MAX_CONNS_PER_IP;
    assert step.call in SlotHolders(s.calls, ip) <==> step.call in s.calls && HoldsSlot(s.calls[step.call].place);
    if step.RemoveIp? {
      RemoveFindsACount(s, step.call);
    }
    SlotTaken(s, step);
    CallsAfter(s, step);
    SlotsMove(s, t, step.call, ip, place);
  }

  lemma CountStep(s: State, step: Step)
    requires s.activeConns == |CountHolders(s.calls)| && Enabled(s, step)
    ensures Apply(s, step).activeConns == |CountHolders(Apply(s, step).calls)|
  {
    CountTaken(s, step);
    CallsAfter(s, step);
    MoveCount(s.calls, step.call, IpOf(s, step), PlaceAfter(s, step));
  }

  lemma ConnStep(s: State, step: Step)
    requires s.conns == ConnHolders(s.calls) && Enabled(s, step)
    ensures Apply(s, step).conns == ConnHolders(Apply(s, step).calls)
  {
    ConnTaken(s, step);
    CallsAfter(s, step);
    MoveConn(s.calls, step.call, IpOf(s, step), PlaceAfter(s, step));
  }

  // In every interleaving of any number of calls: the count of an address is the number of calls
  // from it between add and remove, and at most ten; the active connections and the registered
  // ones are those of their holders.
  lemma {:induction false} Conservation(steps: seq<Step>)
    ensures Conserved(Run(steps))
  {
    if steps == [] {
      assert forall ip: string :: SlotHolders(START.calls, ip) == {};
    } else {
      var before, step := Run(steps[..|steps| - 1]), steps[|steps| - 1];
      Conservation(steps[..|steps| - 1]);
      if Enabled(before, step) {
        SlotsStep(before, step);
        CountStep(before, step);
        ConnStep(before, step);
      }
    }
  }

  // In any run a call is turned away exactly if ten calls from its address hold a slot.
  lemma TurnedAwayIff(steps: seq<Step>, call: nat)
    requires Enabled(Run(steps), AddIp(call))
    ensures var s := Run(steps);
            var holders := set c | c in s.calls && s.calls[c].ip == s.calls[call].ip && HoldsSlot(s.calls[c].place);
            Run(steps + [AddIp(call)]).calls[call].place == if |holders| == 10 then Done else HasSlot
  {
    var s := Run(steps);
    assert (steps + [AddIp(call)])[..|steps|] == steps;
    Conservation(steps);
    var ip := s.calls[call].ip;
    assert SlotHolders(s.calls, ip) == set c | c in s.calls && s.calls[c].ip == ip && HoldsSlot(s.calls[c].place);
    assert CountOf(s.ipConns, ip) == |SlotHolders(s.calls, ip)|;
  }

  // Removing never meets a zero, in any run.
  lemma GuardNeverActs(steps: seq<Step>, call: nat)
    requires Enabled(Run(steps), RemoveIp(call))
    ensures CountOf(Run(steps).ipConns, Run(steps).calls[call].ip) > 0
  {
    Conservation(steps);
    RemoveFindsACount(Run(steps), call);
  }

  // When every call has returned, by whichever exit, nothing is left.
  lemma AllReturned(steps: seq<Step>)
    requires forall c | c in Run(steps).calls :: Run(steps).calls[c].place == Done
    ensures Run(steps).activeConns == 0 && Run(steps).conns == {}
    ensures forall ip: string :: CountOf(Run(steps).ipConns, ip) == 0
  {
    var s := Run(steps);
    Conservation(steps);
    assert CountHolders(s.calls) == {} && ConnHolders(s.calls) == {};
    assert forall ip: string :: SlotHolders(s.calls, ip) == {};
  }
}
