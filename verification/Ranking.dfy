// Ranking corpus positions by score and keeping the best k.
module Ranking {

  datatype Hit = Hit(idx: nat, score: real)

  ghost predicate Descending(hits: seq<Hit>) {
    forall i, j | 0 <= i < j < |hits| :: hits[i].score >= hits[j].score
  }

  ghost predicate Sorts(f: seq<Hit> -> seq<Hit>) {
    forall s :: multiset(f(s)) == multiset(s) && Descending(f(s))
  }

  // sort.Slice by descending score: deterministic, with its own way of ordering equal scores.
  type Sorter = f: seq<Hit> -> seq<Hit> | Sorts(f) witness SomeSort

  function Insert(h: Hit, s: seq<Hit>): seq<Hit> {
    if s == [] || h.score >= s[0].score then [h] + s else [s[0]] + Insert(h, s[1..])
  }

  lemma {:induction false} InsertKeeps(h: Hit, s: seq<Hit>)
    ensures multiset(Insert(h, s)) == multiset(s) + multiset{h}
  {
    if s != [] && h.score < s[0].score {
      assert s == [s[0]] + s[1..];
      InsertKeeps(h, s[1..]);
    }
  }

  lemma {:induction false} InsertDescends(h: Hit, s: seq<Hit>)
    requires Descending(s)
    ensures Descending(Insert(h, s))
    ensures forall x | x in Insert(h, s) :: x.score <= h.score || (s != [] && x.score <= s[0].score)
  {
    if s != [] && h.score < s[0].score {
      InsertDescends(h, s[1..]);
      var r := Insert(h, s[1..]);
      assert forall i | 0 <= i < |r| :: r[i] in r;
    }
  }

  function SomeSort(s: seq<Hit>): (r: seq<Hit>)
    ensures multiset(r) == multiset(s) && Descending(r)
  {
    if s == [] then [] else
      assert s == [s[0]] + s[1..];
      InsertKeeps(s[0], SomeSort(s[1..]));
      InsertDescends(s[0], SomeSort(s[1..]));
      Insert(s[0], SomeSort(s[1..]))
  }

  // The positions with a positive score, in corpus order.
  function Hits(scores: seq<real>): seq<Hit> {
    if scores == [] then [] else
      var n := |scores| - 1;
      Hits(scores[..n]) + if scores[n] > 0.0 then [Hit(n, scores[n])] else []
  }

  // r lists each position with a positive score once, with its score, best first.
  ghost predicate Ranks(r: seq<Hit>, scores: seq<real>) {
    && Descending(r)
    && (forall h | h in r :: h.idx < |scores| && h.score == scores[h.idx] > 0.0)
    && (forall i | 0 <= i < |scores| && scores[i] > 0.0 :: Hit(i, scores[i]) in r)
    && (forall i, j | 0 <= i < j < |r| :: r[i].idx != r[j].idx)
  }

  lemma {:induction false} HitsAre(scores: seq<real>)
    ensures var hits := Hits(scores);
            && (forall h | h in hits :: h.idx < |scores| && h.score == scores[h.idx] > 0.0)
            && (forall i | 0 <= i < |scores| && scores[i] > 0.0 :: Hit(i, scores[i]) in hits)
            && (forall i, j | 0 <= i < j < |hits| :: hits[i].idx < hits[j].idx)
  {
    if scores != [] {
      var n := |scores| - 1;
      HitsAre(scores[..n]);
      assert forall h | h in Hits(scores[..n]) :: h in Hits(scores);
      assert scores[n] > 0.0 ==> Hits(scores)[|Hits(scores)| - 1] == Hit(n, scores[n]);
    }
  }

  lemma {:induction false} CountedOnce(s: seq<Hit>, h: Hit)
    requires forall i, j | 0 <= i < j < |s| :: s[i].idx < s[j].idx
    ensures multiset(s)[h] <= 1
  {
    if s != [] {
      assert s == s[..|s| - 1] + [s[|s| - 1]];
      CountedOnce(s[..|s| - 1], h);
      if h in s[..|s| - 1] {
        assert h != s[|s| - 1];
      }
    }
  }

  lemma CountedTwice(s: seq<Hit>, i: nat, j: nat)
    requires i < j < |s| && s[i] == s[j]
    ensures multiset(s)[s[i]] >= 2
  {
    assert s == s[..j] + [s[j]] + s[j + 1..];
    assert s[..j][i] in multiset(s[..j]);
  }

  lemma SortedHitsRank(r: seq<Hit>, scores: seq<real>)
    requires multiset(r) == multiset(Hits(scores)) && Descending(r)
    ensures Ranks(r, scores)
  {
    var hits := Hits(scores);
    HitsAre(scores);
    forall h: Hit ensures h in r <==> h in hits {
      assert h in multiset(r) <==> h in multiset(hits);
    }
    forall i, j | 0 <= i < j < |r| ensures r[i].idx != r[j].idx {
      assert r[i] in r && r[j] in r;
      if r[i] == r[j] {
        CountedTwice(r, i, j);
        CountedOnce(hits, r[i]);
      }
    }
  }

  ghost function Matching(scores: seq<real>): set<nat> {
    set i: nat | i < |scores| && scores[i] > 0.0
  }

  function Top(r: seq<Hit>, k: nat): seq<nat> {
    seq(if k < |r| then k else |r|, i requires 0 <= i < |r| => r[i].idx)
  }

  lemma {:induction false} DistinctCount(s: seq<nat>, all: set<nat>)
    requires forall i, j | 0 <= i < j < |s| :: s[i] != s[j]
    requires forall x :: x in all <==> x in s
    ensures |all| == |s|
  {
    if s != [] {
      var rest, last := s[..|s| - 1], s[|s| - 1];
      forall x ensures x in all - {last} <==> x in rest {
        assert x in rest ==> exists i :: 0 <= i < |rest| && s[i] == x;
        assert x in s ==> x in rest || x == last;
      }
      DistinctCount(rest, all - {last});
    }
  }

  lemma RankCount(r: seq<Hit>, scores: seq<real>)
    requires Ranks(r, scores)
    ensures |r| == |Matching(scores)|
  {
    var p := Top(r, |r|);
    forall x ensures x in Matching(scores) <==> x in p {
      if x in Matching(scores) {
        var j :| 0 <= j < |r| && r[j] == Hit(x, scores[x]);
        assert p[j] == x;
      }
      if x in p {
        var j :| 0 <= j < |p| && p[j] == x;
        assert r[j] in r;
      }
    }
    DistinctCount(p, Matching(scores));
  }

  // The first k of a ranking: min(k, matches) distinct matching positions in descending score,
  // and no position left out scores higher than one that is in.
  lemma TopIsTop(r: seq<Hit>, scores: seq<real>, k: nat)
    requires Ranks(r, scores)
    ensures var p, all := Top(r, k), Matching(scores);
            && |p| == (if k < |all| then k else |all|)
            && (forall i | 0 <= i < |p| :: p[i] in all)
            && (forall i, j | 0 <= i < j < |p| :: p[i] != p[j] && scores[p[i]] >= scores[p[j]])
            && (forall d, i | d in all && d !in p && 0 <= i < |p| :: scores[p[i]] >= scores[d])
  {
    RankCount(r, scores);
    var p := Top(r, k);
    assert forall i {:trigger r[i]} | 0 <= i < |p| :: r[i] in r && p[i] == r[i].idx && p[i] in p;
    forall d, i | d in Matching(scores) && d !in p && 0 <= i < |p| ensures scores[p[i]] >= scores[d] {
      var j :| 0 <= j < |r| && r[j] == Hit(d, scores[d]);
      assert r[i].score >= r[j].score;
    }
  }
}
