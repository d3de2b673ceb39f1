// The query cache as a value: its slots from most to least recently used.
module LruModel {
  import opened Options
  import opened Sets

  // The key of a cached query. The SHA-256 digest of the query is taken to be injective, so
  // the query stands for its own digest.
  datatype Key = Key(query: string, maxResults: nat)

  datatype Slot<V> = Slot(key: Key, value: V, expireAt: int)

  type Slots<V> = seq<Slot<V>>

  ghost predicate DistinctKeys<V>(s: Slots<V>) {
    forall i, j | 0 <= i < j < |s| :: s[i].key != s[j].key
  }

  // The index of key k, or |s|.
  function Find<V>(s: Slots<V>, k: Key): (i: nat)
    ensures i <= |s|
    ensures i < |s| ==> s[i].key == k
    ensures forall j | 0 <= j < i :: s[j].key != k
  {
    if s == [] then 0 else if s[0].key == k then 0 else 1 + Find(s[1..], k)
  }

  function Without<T>(s: seq<T>, i: nat): seq<T>
    requires i < |s|
  {
    s[..i] + s[i + 1..]
  }

  function Get<V>(s: Slots<V>, k: Key, now: int): (Slots<V>, Option<V>) {
    var i := Find(s, k);
    if i == |s| then (s, None)
    else if now > s[i].expireAt then (Without(s, i), None)
    else ([s[i]] + Without(s, i), Some(s[i].value))
  }

  // What is left of the slots when a new key has to fit in.
  function MakeRoom<V>(s: Slots<V>, capacity: nat): Slots<V> {
    if |s| >= capacity && s != [] then s[..|s| - 1] else s
  }

  function Set<V>(s: Slots<V>, capacity: nat, ttl: nat, k: Key, v: V, now: int): Slots<V> {
    var i := Find(s, k);
    [Slot(k, v, now + ttl)] + if i < |s| then Without(s, i) else MakeRoom(s, capacity)
  }

  // ---- runs -------------------------------------------------------------------------------------

  datatype Op<V> = GetOp(key: Key, at: int) | SetOp(key: Key, value: V, at: int)

  function Apply<V>(s: Slots<V>, capacity: nat, ttl: nat, op: Op<V>): Slots<V> {
    match op
    case GetOp(k, at) => Get(s, k, at).0
    case SetOp(k, v, at) => Set(s, capacity, ttl, k, v, at)
  }

  function Run<V>(capacity: nat, ttl: nat, ops: seq<Op<V>>): Slots<V> {
    if ops == [] then [] else Apply(Run(capacity, ttl, ops[..|ops| - 1]), capacity, ttl, ops[|ops| - 1])
  }

  // A set touches its key; a get touches it when it hits.
  predicate Touches<V>(s: Slots<V>, op: Op<V>, k: Key) {
    op.key == k && (op.GetOp? ==> Get(s, k, op.at).1.Some?)
  }

  // One more than the index of the last operation that touched k; 0 if none did.
  function LastTouch<V>(capacity: nat, ttl: nat, ops: seq<Op<V>>, k: Key): nat {
    if ops == [] then 0
    else if Touches(Run(capacity, ttl, ops[..|ops| - 1]), ops[|ops| - 1], k) then |ops|
    else LastTouch(capacity, ttl, ops[..|ops| - 1], k)
  }

  // What the last set of k stored, and when it expires.
  function LastSet<V>(ttl: nat, ops: seq<Op<V>>, k: Key): Option<Slot<V>> {
    if ops == [] then None else
      var op := ops[|ops| - 1];
      if op.SetOp? && op.key == k then Some(Slot(k, op.value, op.at + ttl))
      else LastSet(ttl, ops[..|ops| - 1], k)
  }

  // ---- what one operation does to the order -----------------------------------------------------------

  // The index of the slot that op drops or moves to the front; |s| if it does neither.
  function Dropped<V>(s: Slots<V>, capacity: nat, op: Op<V>): nat {
    var i := Find(s, op.key);
    if i < |s| || op.GetOp? then i else if |s| >= capacity && s != [] then |s| - 1 else |s|
  }

  function Rest<V>(s: Slots<V>, capacity: nat, op: Op<V>): Slots<V> {
    var d := Dropped(s, capacity, op);
    if d < |s| then Without(s, d) else s
  }

  lemma RestIsWithout<V>(s: Slots<V>, capacity: nat, op: Op<V>)
    requires DistinctKeys(s)
    ensures forall j | 0 <= j < |Rest(s, capacity, op)| :: Rest(s, capacity, op)[j].key != op.key
    ensures capacity >= 1 && |s| <= capacity && Touches(s, op, op.key) ==> |Rest(s, capacity, op)| < capacity
  {
  }

  // Every operation drops at most one slot and puts the touched one, if any, in front.
  lemma ApplyShape<V>(s: Slots<V>, capacity: nat, ttl: nat, op: Op<V>)
    requires DistinctKeys(s)
    ensures var t := Apply(s, capacity, ttl, op);
            if Touches(s, op, op.key)
            then t == [t[0]] + Rest(s, capacity, op) && t[0].key == op.key
                 && t[0] == (if op.SetOp? then Slot(op.key, op.value, op.at + ttl) else s[Find(s, op.key)])
            else t == Rest(s, capacity, op)
    ensures forall j | 0 <= j < |Rest(s, capacity, op)| :: Rest(s, capacity, op)[j].key != op.key
    ensures capacity >= 1 && |s| <= capacity && Touches(s, op, op.key) ==> |Rest(s, capacity, op)| < capacity
  {
    RestIsWithout(s, capacity, op);
    match op
    case GetOp(k, at) =>
      var i := Find(s, k);
      assert i < |s| && at <= s[i].expireAt ==> Get(s, k, at).1.Some?;
    case SetOp(k, v, at) =>
  }

  // Dropping one slot keeps any order the slots are in.
  lemma RestInOrder<V>(s: Slots<V>, capacity: nat, op: Op<V>, rank: Key -> nat)
    requires forall i, j | 0 <= i < j < |s| :: rank(s[i].key) > rank(s[j].key)
    ensures var r := Rest(s, capacity, op);
            forall i, j | 0 <= i < j < |r| :: rank(r[i].key) > rank(r[j].key)
  {
  }

  lemma PrependInOrder<V>(x: Slot<V>, r: Slots<V>, rank: Key -> nat)
    requires forall i, j | 0 <= i < j < |r| :: rank(r[i].key) > rank(r[j].key)
    requires forall j | 0 <= j < |r| :: rank(x.key) > rank(r[j].key)
    ensures var t := [x] + r; forall i, j | 0 <= i < j < |t| :: rank(t[i].key) > rank(t[j].key)
  {
  }

  lemma OrderAfter<V>(s: Slots<V>, capacity: nat, ttl: nat, op: Op<V>, before: Key -> nat, after: Key -> nat, n: nat)
    requires DistinctKeys(s)
    requires forall i, j | 0 <= i < j < |s| :: before(s[i].key) > before(s[j].key)
    requires forall k: Key :: before(k) < n
    requires forall k: Key | k != op.key :: after(k) == before(k)
    requires Touches(s, op, op.key) ==> after(op.key) == n
    ensures var t := Apply(s, capacity, ttl, op);
            forall i, j | 0 <= i < j < |t| :: after(t[i].key) > after(t[j].key)
  {
    ApplyShape(s, capacity, ttl, op);
    RestInOrder(s, capacity, op, before);
    var r := Rest(s, capacity, op);
    assert forall j | 0 <= j < |r| :: after(r[j].key) == before(r[j].key);
    if Touches(s, op, op.key) {
      PrependInOrder(Apply(s, capacity, ttl, op)[0], r, after);
    }
  }

  lemma ContentAfter<V>(s: Slots<V>, capacity: nat, ttl: nat, op: Op<V>)
    requires DistinctKeys(s)
    ensures forall x | x in Apply(s, capacity, ttl, op) ::
              (x in s && (op.SetOp? ==> x.key != op.key)) || (op.SetOp? && x == Slot(op.key, op.value, op.at + ttl))
    ensures capacity >= 1 && |s| <= capacity ==> |Apply(s, capacity, ttl, op)| <= capacity
  {
    ApplyShape(s, capacity, ttl, op);
  }

  // ---- structure of every reachable state ----------------------------------------------------------

  lemma {:induction false} TouchedAlready<V>(capacity: nat, ttl: nat, ops: seq<Op<V>>, k: Key)
    ensures LastTouch(capacity, ttl, ops, k) <= |ops|
  {
    if ops != [] {
      TouchedAlready(capacity, ttl, ops[..|ops| - 1], k);
    }
  }

  ghost predicate InTouchOrder<V>(capacity: nat, ttl: nat, ops: seq<Op<V>>, s: Slots<V>) {
    forall i, j | 0 <= i < j < |s| ::
      LastTouch(capacity, ttl, ops, s[i].key) > LastTouch(capacity, ttl, ops, s[j].key)
  }

  // The slots of a reachable cache: each key once, at most `capacity`, most recently touched first.
  lemma {:induction false} Structure<V>(capacity: nat, ttl: nat, ops: seq<Op<V>>)
    requires capacity >= 1
    ensures var s := Run(capacity, ttl, ops);
            DistinctKeys(s) && |s| <= capacity && InTouchOrder(capacity, ttl, ops, s)
  {
    if ops != [] {
      var prefix, op := ops[..|ops| - 1], ops[|ops| - 1];
      Structure(capacity, ttl, prefix);
      var s := Run(capacity, ttl, prefix);
      forall k: Key ensures LastTouch(capacity, ttl, prefix, k) < |ops| {
        TouchedAlready(capacity, ttl, prefix, k);
      }
      OrderAfter(s, capacity, ttl, op,
                 k => LastTouch(capacity, ttl, prefix, k), k => LastTouch(capacity, ttl, ops, k), |ops|);
      ContentAfter(s, capacity, ttl, op);
    }
  }

  // Each slot holds the value and the expiry of the last set of its key.
  lemma {:induction false} HoldsLastSet<V>(capacity: nat, ttl: nat, ops: seq<Op<V>>, x: Slot<V>)
    requires capacity >= 1 && x in Run(capacity, ttl, ops)
    ensures LastSet(ttl, ops, x.key) == Some(x)
  {
    var prefix, op := ops[..|ops| - 1], ops[|ops| - 1];
    Structure(capacity, ttl, prefix);
    ContentAfter(Run(capacity, ttl, prefix), capacity, ttl, op);
    if x in Run(capacity, ttl, prefix) {
      HoldsLastSet(capacity, ttl, prefix, x);
    }
  }

  lemma OneMore<V>(capacity: nat, ttl: nat, ops: seq<Op<V>>, op: Op<V>)
    ensures Run(capacity, ttl, ops + [op]) == Apply(Run(capacity, ttl, ops), capacity, ttl, op)
  {
    assert (ops + [op])[..|ops|] == ops;
  }

  lemma EvictBack<V>(s: Slots<V>, capacity: nat, ttl: nat, k: Key, v: V, now: int)
    requires capacity >= 1 && |s| == capacity && Find(s, k) == |s|
    ensures Set(s, capacity, ttl, k, v, now) == [Slot(k, v, now + ttl)] + s[..|s| - 1]
  {
    assert MakeRoom(s, capacity) == s[..|s| - 1];
  }

  // A set of a new key at capacity evicts the key whose last touch is the oldest, and only it.
  lemma EvictsLeastRecent<V>(capacity: nat, ttl: nat, ops: seq<Op<V>>, op: Op<V>)
    requires capacity >= 1 && op.SetOp?
    requires var s := Run(capacity, ttl, ops); |s| == capacity && Find(s, op.key) == |s|
    ensures var s := Run(capacity, ttl, ops);
            && Run(capacity, ttl, ops + [op]) == [Slot(op.key, op.value, op.at + ttl)] + s[..|s| - 1]
            && forall i | 0 <= i < |s| - 1 ::
                 LastTouch(capacity, ttl, ops, s[i].key) > LastTouch(capacity, ttl, ops, s[|s| - 1].key)
  {
    Structure(capacity, ttl, ops);
    OneMore(capacity, ttl, ops, op);
    EvictBack(Run(capacity, ttl, ops), capacity, ttl, op.key, op.value, op.at);
  }

  // ---- retention ---------------------------------------------------------------------------------------

  // The keys touched by the operations of `more`, run after `ops`.
  function TouchedBy<V>(capacity: nat, ttl: nat, ops: seq<Op<V>>, more: seq<Op<V>>): set<Key> {
    if more == [] then {} else
      var fewer, op := more[..|more| - 1], more[|more| - 1];
      TouchedBy(capacity, ttl, ops, fewer)
        + if Touches(Run(capacity, ttl, ops + fewer), op, op.key) then {op.key} else {}
  }

  ghost function KeysOf<V>(s: Slots<V>): set<Key> {
    set x | x in s :: x.key
  }

  lemma {:induction false} KeysCount<V>(s: Slots<V>)
    requires DistinctKeys(s)
    ensures |KeysOf(s)| == |s|
  {
    if s != [] {
      var rest := s[..|s| - 1];
      KeysCount(rest);
      assert KeysOf(s) == KeysOf(rest) + {s[|s| - 1].key};
    }
  }

  lemma FindIs<V>(s: Slots<V>, k: Key, i: nat)
    requires i < |s| && s[i].key == k && forall j | 0 <= j < i :: s[j].key != k
    ensures Find(s, k) == i
  {
  }

  // A slot is not evicted while the keys in front of it and the new key are below capacity.
  lemma NotEvicted<V>(s: Slots<V>, capacity: nat, op: Op<V>, k: Key, touched: set<Key>)
    requires DistinctKeys(s) && |s| <= capacity && op.key != k
    requires Find(s, k) < |s| && KeysOf(s[..Find(s, k)]) <= touched
    requires |touched + if Touches(s, op, op.key) then {op.key} else {}| < capacity
    ensures Dropped(s, capacity, op) != Find(s, k)
  {
    var i := Find(s, k);
    if Dropped(s, capacity, op) == i {
      assert op.SetOp? && i == |s| - 1 && |s| == capacity && Find(s, op.key) == |s|;
      KeysCount(s[..i]);
      var front := KeysOf(s[..i]);
      assert op.key !in front;
      SubsetSize(front + {op.key}, touched + {op.key});
      assert false;
    }
  }

  lemma WithoutKeeps<V>(s: Slots<V>, d: nat, k: Key)
    requires d < |s| && Find(s, k) < |s| && d != Find(s, k)
    ensures var r := Without(s, d);
            && Find(r, k) < |r| && r[Find(r, k)] == s[Find(s, k)]
            && forall x | x in r[..Find(r, k)] :: x in s[..Find(s, k)]
  {
    var i, r := Find(s, k), Without(s, d);
    WithoutAt(s, d);
    var m := if d < i then i - 1 else i;
    FindIs(r, k, m);
    forall x | x in r[..m] ensures x in s[..i] {
      var j :| 0 <= j < m && r[j] == x;
      assert x == if j < d then s[..i][j] else s[..i][j + 1];
    }
  }

  lemma WithoutAt<T>(s: seq<T>, d: nat)
    requires d < |s|
    ensures |Without(s, d)| == |s| - 1
    ensures forall j | 0 <= j < |s| - 1 :: Without(s, d)[j] == if j < d then s[j] else s[j + 1]
  {
  }

  lemma RestKeeps<V>(s: Slots<V>, capacity: nat, op: Op<V>, k: Key)
    requires Find(s, k) < |s| && Dropped(s, capacity, op) != Find(s, k)
    ensures var r := Rest(s, capacity, op);
            && Find(r, k) < |r| && r[Find(r, k)] == s[Find(s, k)]
            && KeysOf(r[..Find(r, k)]) <= KeysOf(s[..Find(s, k)])
  {
    if Dropped(s, capacity, op) < |s| {
      WithoutKeeps(s, Dropped(s, capacity, op), k);
    }
  }

  lemma PrependKeeps<V>(x: Slot<V>, r: Slots<V>, k: Key)
    requires x.key != k && Find(r, k) < |r|
    ensures var t := [x] + r;
            Find(t, k) == Find(r, k) + 1 && KeysOf(t[..Find(t, k)]) == {x.key} + KeysOf(r[..Find(r, k)])
  {
    var t := [x] + r;
    assert t[1..] == r;
    assert t[..Find(t, k)] == [x] + r[..Find(r, k)];
  }

  lemma RetainedStep<V>(s: Slots<V>, capacity: nat, ttl: nat, op: Op<V>, k: Key, touched: set<Key>)
    requires DistinctKeys(s) && |s| <= capacity && op.key != k
    requires Find(s, k) < |s| && KeysOf(s[..Find(s, k)]) <= touched
    requires |touched + if Touches(s, op, op.key) then {op.key} else {}| < capacity
    ensures var t := Apply(s, capacity, ttl, op);
            && Find(t, k) < |t| && t[Find(t, k)] == s[Find(s, k)]
            && KeysOf(t[..Find(t, k)]) <= touched + if Touches(s, op, op.key) then {op.key} else {}
  {
    NotEvicted(s, capacity, op, k, touched);
    ApplyShape(s, capacity, ttl, op);
    RestKeeps(s, capacity, op, k);
    if Touches(s, op, op.key) {
      PrependKeeps(Apply(s, capacity, ttl, op)[0], Rest(s, capacity, op), k);
    }
  }

  lemma RunLast<V>(capacity: nat, ttl: nat, ops: seq<Op<V>>, more: seq<Op<V>>)
    requires more != []
    ensures Run(capacity, ttl, ops + more) ==
            Apply(Run(capacity, ttl, ops + more[..|more| - 1]), capacity, ttl, more[|more| - 1])
  {
    assert (ops + more)[..|ops + more| - 1] == ops + more[..|more| - 1];
  }

  // After an operation that touches k, the slot of k stays cached while fewer than `capacity`
  // other keys are touched, and only keys touched since then are in front of it.
  lemma {:induction false} Retained<V>(capacity: nat, ttl: nat, ops: seq<Op<V>>, more: seq<Op<V>>, k: Key)
    requires capacity >= 1 && ops != []
    requires Touches(Run(capacity, ttl, ops[..|ops| - 1]), ops[|ops| - 1], k)
    requires forall op | op in more :: op.key != k
    requires |TouchedBy(capacity, ttl, ops, more)| < capacity
    ensures Run(capacity, ttl, ops) != [] && Run(capacity, ttl, ops)[0].key == k
    ensures var s := Run(capacity, ttl, ops + more);
            && Find(s, k) < |s| && s[Find(s, k)] == Run(capacity, ttl, ops)[0]
            && KeysOf(s[..Find(s, k)]) <= TouchedBy(capacity, ttl, ops, more)
  {
    if more == [] {
      assert ops + more == ops;
      Structure(capacity, ttl, ops[..|ops| - 1]);
      ApplyShape(Run(capacity, ttl, ops[..|ops| - 1]), capacity, ttl, ops[|ops| - 1]);
    } else {
      var fewer, op := more[..|more| - 1], more[|more| - 1];
      var touched, s := TouchedBy(capacity, ttl, ops, fewer), Run(capacity, ttl, ops + fewer);
      SubsetSize(touched, TouchedBy(capacity, ttl, ops, more));
      Retained(capacity, ttl, ops, fewer, k);
      RunLast(capacity, ttl, ops, more);
      Structure(capacity, ttl, ops + fewer);
      RetainedStep(s, capacity, ttl, op, k, touched);
    }
  }

  // A key touched by ops is hit by its next get, with the value last set for it, unless its
  // expiry has passed or `capacity` other keys have been touched meanwhile.
  lemma NextGetHits<V>(capacity: nat, ttl: nat, ops: seq<Op<V>>, more: seq<Op<V>>, k: Key, now: int)
    requires capacity >= 1 && ops != []
    requires Touches(Run(capacity, ttl, ops[..|ops| - 1]), ops[|ops| - 1], k)
    requires forall op | op in more :: op.key != k
    requires |TouchedBy(capacity, ttl, ops, more)| < capacity
    ensures LastSet(ttl, ops, k).Some?
    ensures Get(Run(capacity, ttl, ops + more), k, now).1 ==
            if now <= LastSet(ttl, ops, k).value.expireAt then Some(LastSet(ttl, ops, k).value.value) else None
  {
    Retained(capacity, ttl, ops, more, k);
    HoldsLastSet(capacity, ttl, ops, Run(capacity, ttl, ops)[0]);
  }

  // ---- coherence --------------------------------------------------------------------------------------

  // Every slot holds the value that f gives its key.
  ghost predicate Coherent<V>(s: Slots<V>, f: Key -> V) {
    forall x | x in s :: x.value == f(x.key)
  }

  lemma GetCoherent<V>(s: Slots<V>, k: Key, now: int, f: Key -> V)
    requires Coherent(s, f)
    ensures Coherent(Get(s, k, now).0, f)
    ensures Get(s, k, now).1.Some? ==> Get(s, k, now).1.value == f(k)
  {
    var i := Find(s, k);
    if i < |s| {
      assert s[i] in s;
    }
  }

  lemma SetCoherent<V>(s: Slots<V>, capacity: nat, ttl: nat, k: Key, now: int, f: Key -> V)
    requires Coherent(s, f)
    ensures Coherent(Set(s, capacity, ttl, k, f(k), now), f)
  {
    forall x | x in Set(s, capacity, ttl, k, f(k), now) ensures x in s || x == Slot(k, f(k), now + ttl) {
    }
  }

  // If every set stores the value f gives its key, every hit returns that value, whatever
  // the interleaving and the clock.
  lemma {:induction false} HitsAgree<V>(capacity: nat, ttl: nat, ops: seq<Op<V>>, f: Key -> V, k: Key, now: int)
    requires forall op | op in ops :: op.SetOp? ==> op.value == f(op.key)
    ensures Coherent(Run(capacity, ttl, ops), f)
    ensures var hit := Get(Run(capacity, ttl, ops), k, now).1; hit.Some? ==> hit.value == f(k)
  {
    if ops != [] {
      var prefix, op := ops[..|ops| - 1], ops[|ops| - 1];
      HitsAgree(capacity, ttl, prefix, f, k, now);
      GetCoherent(Run(capacity, ttl, prefix), op.key, op.at, f);
      SetCoherent(Run(capacity, ttl, prefix), capacity, ttl, op.key, op.at, f);
      assert op in ops;
    }
    GetCoherent(Run(capacity, ttl, ops), k, now, f);
  }
}
