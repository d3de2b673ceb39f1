// Go slices of messages: a window onto a backing array that other slices may share.
module Slices {

  datatype Message = Message(role: string, content: string, timestamp: nat, hasImage: bool)

  datatype Slice = Slice(arr: array<Message>, start: nat, len: nat) {
    function End(): nat {
      start + len
    }
  }

  predicate InBounds(s: Slice) {
    s.End() <= s.arr.Length
  }

  function Content(s: Slice): (c: seq<Message>)
    requires InBounds(s)
    reads s.arr
    ensures |c| == s.len
  {
    s.arr[s.start..s.End()]
  }

  // The last n elements, or all of them.
  function Last<T>(log: seq<T>, n: nat): (r: seq<T>)
    ensures |r| == if n < |log| then n else |log|
  {
    if n < |log| then log[|log| - n..] else log
  }

  lemma LastOfLast<T>(log: seq<T>, n: nat, m: nat)
    requires n <= m
    ensures Last(Last(log, m), n) == Last(log, n)
  {
  }

  lemma LastOfAppend<T>(log: seq<T>, x: T, n: nat)
    ensures Last(Last(log, n) + [x], n) == Last(log + [x], n)
  {
  }

  // append: in place when the array has room behind the slice, else into a larger copy.
  // Either way no slice of the same array that ends no later sees a change.
  method Append(s: Slice, msg: Message) returns (r: Slice)
    requires InBounds(s)
    modifies s.arr
    ensures InBounds(r) && Content(r) == old(Content(s)) + [msg]
    ensures forall t: Slice | t.arr == s.arr && t.End() <= s.End() :: Content(t) == old(Content(t))
    ensures r.arr == s.arr || fresh(r.arr)
    ensures r.arr == s.arr ==> r == Slice(s.arr, s.start, s.len + 1)
  {
    if s.End() < s.arr.Length {
      s.arr[s.End()] := msg;
      return Slice(s.arr, s.start, s.len + 1);
    }
    var room: nat :| true;
    var bigger := new Message[s.len + 1 + room];
    forall i | 0 <= i < s.len {
      bigger[i] := s.arr[s.start + i];
    }
    bigger[s.len] := msg;
    r := Slice(bigger, 0, s.len + 1);
  }

  // s[len(s)-n:] when the slice is longer than n.
  function Trim(s: Slice, n: nat): Slice {
    if s.len > n then Slice(s.arr, s.start + (s.len - n), n) else s
  }

  // The slice holds the last n messages of the log.
  ghost predicate Holds(s: Slice, log: seq<Message>, n: nat)
    reads s.arr
  {
    InBounds(s) && Content(s) == Last(log, n)
  }

  lemma TrimIsLast(s: Slice, n: nat)
    requires InBounds(s)
    ensures InBounds(Trim(s, n)) && Content(Trim(s, n)) == Last(Content(s), n)
  {
  }

  // append followed by the trim to the last n, for a slice holding the last n of a log.
  method AppendTrimmed(s: Slice, msg: Message, n: nat, ghost log: seq<Message>) returns (r: Slice)
    requires Holds(s, log, n)
    modifies s.arr
    ensures Holds(r, log + [msg], n)
    ensures forall t: Slice | t.arr == s.arr && t.End() <= s.End() :: Content(t) == old(Content(t))
    ensures fresh(r.arr) || (r.arr == s.arr && r.End() > s.End())
  {
    var h := Append(s, msg);
    r := Trim(h, n);
    LastOfAppend(log, msg, n);
    TrimIsLast(h, n);
  }
}
