// The query cache as it is built: a map into a doubly linked list of entries, the front of
// the list being the most recently used one.
module LruCache {
  import opened Options
  import opened LruModel

  class Entry<V> {
    const key: Key
    var value: V
    var expireAt: int
    var prev: Entry?<V>
    var next: Entry?<V>
    ghost const owner: EntryList<V>

    constructor (key: Key, value: V, expireAt: int, ghost owner: EntryList<V>)
      ensures this.key == key && this.value == value && this.expireAt == expireAt && this.owner == owner
    {
      this.key, this.value, this.expireAt, this.owner := key, value, expireAt, owner;
      prev, next := null, null;
    }
  }

  // A doubly linked list of entries.
  class EntryList<V> {
    var front: Entry?<V>
    var back: Entry?<V>
    var len: nat
    ghost var order: seq<Entry<V>>
    ghost var nodes: set<Entry<V>>

    // The links visit exactly the entries of `order`, in that order, in both directions.
    // `nodes` are the entries that have been in the list; an entry belongs to one list for ever.
    ghost predicate Valid()
      reads this, nodes
    {
      && (forall e | e in nodes :: e.owner == this)
      && len == |order| && (forall i | 0 <= i < |order| :: order[i] in nodes)
      && (forall i, j | 0 <= i < j < |order| :: order[i] != order[j])
      && (forall i, j | 0 <= i && i + 1 == j && j < |order| :: order[i].next == order[j] && order[j].prev == order[i])
      && (if order == [] then front == null && back == null
          else front == order[0] && back == order[|order| - 1] && front.prev == null && back.next == null)
    }

    constructor ()
      ensures Valid() && order == [] && nodes == {}
    {
      front, back, len, order, nodes := null, null, 0, [], {};
    }

    method Remove(e: Entry<V>, ghost i: nat)
      requires Valid() && i < |order| && order[i] == e
      modifies this, nodes`prev, nodes`next
      ensures Valid() && order == Without(old(order), i) && nodes == old(nodes)
    {
      assert i > 0 ==> order[i - 1].next == e && e.prev == order[i - 1];
      assert i + 1 < |order| ==> order[i + 1].prev == e && e.next == order[i + 1];
      if e.prev == null {
        front := e.next;
      } else {
        e.prev.next := e.next;
      }
      if e.next == null {
        back := e.prev;
      } else {
        e.next.prev := e.prev;
      }
      e.prev, e.next := null, null;
      len := len - 1;
      order := order[..i] + order[i + 1..];
    }

    method PushFront(e: Entry<V>)
      requires Valid() && e !in order && e.owner == this
      modifies this, nodes`prev, nodes`next, e`prev, e`next
      ensures Valid() && order == [e] + old(order) && nodes == old(nodes) + {e}
    {
      e.prev, e.next := null, front;
      if front == null {
        back := e;
      } else {
        front.prev := e;
      }
      front := e;
      len := len + 1;
      order, nodes := [e] + order, nodes + {e};
    }

    method MoveToFront(e: Entry<V>, ghost i: nat)
      requires Valid() && i < |order| && order[i] == e
      modifies this, nodes`prev, nodes`next
      ensures Valid() && order == [e] + Without(old(order), i) && nodes == old(nodes)
    {
      Remove(e, i);
      PushFront(e);
    }
  }

  ghost predicate Indexed<V>(items: map<Key, Entry<V>>, order: seq<Entry<V>>) {
    && (forall e | e in order :: e.key in items && items[e.key] == e)
    && (forall k | k in items :: items[k] in order && items[k].key == k)
  }

  lemma IndexedWithout<V>(items: map<Key, Entry<V>>, order: seq<Entry<V>>, i: nat)
    requires Indexed(items, order) && i < |order| && forall j, k | 0 <= j < k < |order| :: order[j] != order[k]
    ensures Indexed(items - {order[i].key}, Without(order, i))
    ensures Indexed(items, [order[i]] + Without(order, i))
    ensures forall e | e in Without(order, i) :: e in order
  {
    var rest := Without(order, i);
    forall e | e in rest ensures e in order && e.key != order[i].key {
      var j :| 0 <= j < |rest| && rest[j] == e;
      assert e == order[if j < i then j else j + 1];
    }
    forall k | k in items && k != order[i].key ensures items[k] in rest {
      var j :| 0 <= j < |order| && order[j] == items[k];
      assert items[k] == rest[if j < i then j else j - 1];
    }
  }

  ghost function SlotOf<V>(e: Entry<V>): Slot<V>
    reads e
  {
    Slot(e.key, e.value, e.expireAt)
  }

  ghost function SlotsOf<V>(order: seq<Entry<V>>): (s: Slots<V>)
    reads order
  {
    seq(|order|, i requires 0 <= i < |order| reads order => SlotOf(order[i]))
  }

  lemma SlotsWithout<V>(order: seq<Entry<V>>, i: nat)
    requires i < |order|
    ensures SlotsOf(Without(order, i)) == Without(SlotsOf(order), i)
    ensures SlotsOf([order[i]] + Without(order, i)) == [SlotOf(order[i])] + Without(SlotsOf(order), i)
  {
  }

  twostate lemma SlotsSame<V>(order: seq<Entry<V>>)
    requires forall e | e in order :: SlotOf(e) == old(SlotOf(e))
    ensures SlotsOf(order) == old(SlotsOf(order))
  {
    assert forall i | 0 <= i < |order| :: order[i] in order;
  }

  twostate lemma HeadChanged<V>(order: seq<Entry<V>>)
    requires order != [] && forall i | 1 <= i < |order| :: SlotOf(order[i]) == old(SlotOf(order[i]))
    ensures SlotsOf(order) == [SlotOf(order[0])] + old(SlotsOf(order))[1..]
  {
  }

  class RagLru<V> {
    const capacity: nat
    const ttl: nat
    var items: map<Key, Entry<V>>
    const list: EntryList<V>

    // The map and the list hold the same entries.
    ghost predicate Valid()
      reads this, list, list.nodes
    {
      list.Valid() && Indexed(items, list.order)
    }

    ghost function Abs(): Slots<V>
      requires list.Valid()
      reads list, list.nodes
    {
      SlotsOf(list.order)
    }

    constructor (capacity: nat, ttl: nat)
      ensures Valid() && list.order == [] && Abs() == [] && fresh(list)
      ensures this.capacity == capacity && this.ttl == ttl
    {
      this.capacity, this.ttl, items := capacity, ttl, map[];
      list := new EntryList();
    }

    // An entry's index in the list is the index of its slot.
    lemma FindEntry(e: Entry<V>) returns (i: nat)
      requires Valid() && e in list.order
      ensures i < |list.order| && list.order[i] == e && Find(Abs(), e.key) == i
    {
      i :| 0 <= i < |list.order| && list.order[i] == e;
      assert forall j | 0 <= j < |list.order| :: list.order[j] in list.order;
      FindIs(Abs(), e.key, i);
    }

    // Forget an entry: list.Remove and delete.
    method Evict(e: Entry<V>, ghost i: nat)
      requires Valid() && i < |list.order| && list.order[i] == e
      modifies this`items, list, list.nodes
      ensures Valid() && Abs() == Without(old(Abs()), i) && items == old(items) - {e.key}
      ensures list.nodes == old(list.nodes)
    {
      IndexedWithout(items, list.order, i);
      SlotsWithout(list.order, i);
      list.Remove(e, i);
      items := items - {e.key};
      SlotsSame(list.order);
    }

    method Refresh(e: Entry<V>, ghost i: nat)
      requires Valid() && i < |list.order| && list.order[i] == e
      modifies list, list.nodes
      ensures Valid() && list.order != [] && list.order[0] == e
      ensures Abs() == [SlotOf(e)] + Without(old(Abs()), i) && SlotOf(e) == old(SlotOf(e)) == old(Abs())[i]
      ensures list.nodes == old(list.nodes)
    {
      IndexedWithout(items, list.order, i);
      SlotsWithout(list.order, i);
      list.MoveToFront(e, i);
      SlotsSame(list.order);
    }

    method Insert(e: Entry<V>)
      requires Valid() && e !in list.nodes && e.key !in items && e.owner == list
      modifies this`items, list, list.nodes, e
      ensures Valid() && list.nodes == old(list.nodes) + {e}
      ensures Abs() == [old(SlotOf(e))] + old(Abs())
    {
      ghost var before := list.order;
      assert SlotsOf([e] + before) == [SlotOf(e)] + SlotsOf(before);
      list.PushFront(e);
      items := items[e.key := e];
      SlotsSame(list.order);
    }

    method Get(k: Key, now: int) returns (r: Option<V>)
      requires Valid()
      modifies this`items, list, list.nodes
      ensures Valid() && list.nodes == old(list.nodes)
      ensures (Abs(), r) == LruModel.Get(old(Abs()), k, now)
    {
      if k !in items {
        assert Find(Abs(), k) == |Abs()|;
        return None;
      }
      var e := items[k];
      ghost var i := FindEntry(e);
      if now > e.expireAt {
        Evict(e, i);
        return None;
      }
      r := Some(e.value);
      Refresh(e, i);
    }

    // Store a new value and expiry in the front entry.
    method Overwrite(e: Entry<V>, v: V, expireAt: int, ghost rest: Slots<V>)
      requires Valid() && list.order != [] && list.order[0] == e && Abs() == [SlotOf(e)] + rest
      modifies e`value, e`expireAt
      ensures Valid() && Abs() == [Slot(e.key, v, expireAt)] + rest
    {
      e.value, e.expireAt := v, expireAt;
      assert forall j | 1 <= j < |list.order| :: list.order[j] != list.order[0];
      HeadChanged(list.order);
    }

    // Update an existing entry.
    method Update(e: Entry<V>, ghost i: nat, v: V, now: int)
      requires Valid() && i < |list.order| && list.order[i] == e
      modifies list, list.nodes
      ensures Valid() && list.nodes == old(list.nodes)
      ensures Abs() == [Slot(e.key, v, now + ttl)] + Without(old(Abs()), i)
    {
      ghost var rest := Without(Abs(), i);
      Refresh(e, i);
      Overwrite(e, v, now + ttl, rest);
    }

    // Evict the oldest entry when at capacity.
    method MakeRoom()
      requires Valid()
      modifies this`items, list, list.nodes
      ensures Valid() && list.nodes == old(list.nodes)
      ensures Abs() == LruModel.MakeRoom(old(Abs()), capacity) && items.Keys <= old(items).Keys
    {
      if list.len >= capacity {
        var oldest := list.back;
        if oldest != null {
          IndexedWithout(items, list.order, |list.order| - 1);
          Evict(oldest, |list.order| - 1);
        }
      }
    }

    method Add(k: Key, v: V, now: int)
      requires Valid() && k !in items
      modifies this`items, list, list.nodes
      ensures Valid() && fresh(list.nodes - old(list.nodes))
      ensures Abs() == [Slot(k, v, now + ttl)] + old(Abs())
    {
      var e := new Entry(k, v, now + ttl, list);
      Insert(e);
    }

    method Set(k: Key, v: V, now: int)
      requires Valid()
      modifies this`items, list, list.nodes
      ensures Valid() && fresh(list.nodes - old(list.nodes))
      ensures Abs() == LruModel.Set(old(Abs()), capacity, ttl, k, v, now)
    {
      if k in items {
        ghost var i := FindEntry(items[k]);
        Update(items[k], i, v, now);
        return;
      }
      assert Find(Abs(), k) == |Abs()|;
      MakeRoom();
      Add(k, v, now);
    }
  }
}
