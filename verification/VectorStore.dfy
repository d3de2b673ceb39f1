// The in-memory TF-IDF index and its top-k search.
module VectorStore {
  import opened Tokenizer
  import opened TfIdf
  import opened Ranking

  // ---- the index --------------------------------------------------------------------------------------

  ghost function TFs(fold: Folding, docs: seq<KBEntry>): seq<Weights> {
    seq(|docs|, i requires 0 <= i < |docs| => DocTF(fold, docs[i]))
  }

  // In how many of the documents the term occurs.
  ghost function DocFrequency(tfs: seq<Weights>, term: string): nat {
    if tfs == [] then 0
    else DocFrequency(tfs[..|tfs| - 1], term) + if term in tfs[|tfs| - 1] then 1 else 0
  }

  ghost function Idf(lib: Library, tfs: seq<Weights>, term: string): real {
    lib.log(1.0 + (|tfs| as real) / ((1 + DocFrequency(tfs, term)) as real))
  }

  function Product(x: real, y: real): real {
    x * y
  }

  ghost function Vector(lib: Library, tfs: seq<Weights>, i: nat): Weights
    requires i < |tfs|
  {
    map t | t in tfs[i] :: Product(tfs[i][t], Idf(lib, tfs, t))
  }

  ghost function Vectors(lib: Library, docs: seq<KBEntry>): (v: seq<Weights>)
    ensures |v| == |docs|
  {
    seq(|docs|, i requires 0 <= i < |docs| => Vector(lib, TFs(lib.fold, docs), i))
  }

  lemma IdfPositive(lib: Library, tfs: seq<Weights>, term: string)
    requires tfs != []
    ensures Idf(lib, tfs, term) > 0.0
  {
    Quotient(|tfs| as real, (1 + DocFrequency(tfs, term)) as real);
  }

  lemma ProductPositive(x: real, y: real)
    requires x > 0.0 && y > 0.0
    ensures Product(x, y) > 0.0
  {
  }

  lemma WeightedPositive(lib: Library, tfs: seq<Weights>, i: nat)
    requires i < |tfs| && Positive(tfs[i])
    ensures Positive(Vector(lib, tfs, i)) && Vector(lib, tfs, i).Keys == tfs[i].Keys
  {
    forall t | t in tfs[i] ensures Vector(lib, tfs, i)[t] > 0.0 {
      IdfPositive(lib, tfs, t);
      ProductPositive(tfs[i][t], Idf(lib, tfs, t));
    }
  }

  // Every weight is positive, and a document has a weight for exactly its tokens.
  lemma VectorPositive(lib: Library, docs: seq<KBEntry>, i: nat)
    requires i < |docs|
    ensures Positive(Vectors(lib, docs)[i]) && forall t :: t in Vectors(lib, docs)[i] <==> HasToken(lib.fold, docs[i], t)
  {
    DocTFNormal(lib.fold, docs[i]);
    assert TFs(lib.fold, docs)[i] == DocTF(lib.fold, docs[i]);
    WeightedPositive(lib, TFs(lib.fold, docs), i);
    assert Vectors(lib, docs)[i].Keys == DocTF(lib.fold, docs[i]).Keys;
  }

  lemma {:induction false} DocFrequencyIsCount(tfs: seq<Weights>, term: string)
    ensures DocFrequency(tfs, term) == |set d: nat | d < |tfs| && term in tfs[d]|
  {
    if tfs != [] {
      var n := |tfs| - 1;
      DocFrequencyIsCount(tfs[..n], term);
      var before := set d: nat | d < n && term in tfs[..n][d];
      assert forall d: nat | d < n :: tfs[..n][d] == tfs[d];
      assert (set d: nat | d < |tfs| && term in tfs[d]) == before + if term in tfs[n] then {n} else {};
    }
  }

  // The documents that have the term among their tokens.
  ghost function DocsWith(fold: Folding, docs: seq<KBEntry>, term: string): set<nat> {
    set d: nat | d < |docs| && HasToken(fold, docs[d], term)
  }

  lemma DocFrequencyOfDocs(fold: Folding, docs: seq<KBEntry>, term: string)
    ensures DocFrequency(TFs(fold, docs), term) == |DocsWith(fold, docs, term)|
  {
    var tfs := TFs(fold, docs);
    DocFrequencyIsCount(tfs, term);
    forall d: nat | d < |docs| ensures term in tfs[d] <==> HasToken(fold, docs[d], term) {
      DocTFNormal(fold, docs[d]);
    }
    assert (set d: nat | d < |tfs| && term in tfs[d]) == DocsWith(fold, docs, term);
  }

  lemma IdfLaw(lib: Library, docs: seq<KBEntry>, term: string)
    ensures Idf(lib, TFs(lib.fold, docs), term) ==
            lib.log(1.0 + (|docs| as real) / ((1 + |DocsWith(lib.fold, docs, term)|) as real))
  {
    DocFrequencyOfDocs(lib.fold, docs, term);
  }

  lemma VectorAt(lib: Library, docs: seq<KBEntry>, i: nat, t: string)
    requires i < |docs| && t in DocTF(lib.fold, docs[i])
    ensures t in Vectors(lib, docs)[i]
    ensures Vectors(lib, docs)[i][t] == Product(DocTF(lib.fold, docs[i])[t], Idf(lib, TFs(lib.fold, docs), t))
  {
    assert TFs(lib.fold, docs)[i] == DocTF(lib.fold, docs[i]);
  }

  // A token's weight in a document: its share of the document, times log(1 + N / (1 + n)) for
  // the n of the N documents that have it.
  lemma WeightLaw(lib: Library, docs: seq<KBEntry>, i: nat, t: string)
    requires i < |docs| && HasToken(lib.fold, docs[i], t)
    ensures t in Vectors(lib, docs)[i] && t in DocTF(lib.fold, docs[i])
    ensures Vectors(lib, docs)[i][t] ==
            DocTF(lib.fold, docs[i])[t]
            * lib.log(1.0 + (|docs| as real) / ((1 + |DocsWith(lib.fold, docs, t)|) as real))
  {
    DocTFNormal(lib.fold, docs[i]);
    VectorAt(lib, docs, i, t);
    IdfLaw(lib, docs, t);
    ProductIs(Vectors(lib, docs)[i][t], DocTF(lib.fold, docs[i])[t], Idf(lib, TFs(lib.fold, docs), t),
              lib.log(1.0 + (|docs| as real) / ((1 + |DocsWith(lib.fold, docs, t)|) as real)));
  }

  lemma ProductIs(w: real, x: real, y: real, z: real)
    requires w == Product(x, y) && y == z
    ensures w == x * z
  {
  }

  // The same of all vectors at once, without a word on how they come about.
  ghost predicate WeighedBy(lib: Library, docs: seq<KBEntry>, vectors: seq<Weights>) {
    && |vectors| == |docs|
    && (forall i, t | 0 <= i < |docs| :: t in vectors[i] <==> HasToken(lib.fold, docs[i], t))
    && (forall i, t | 0 <= i < |docs| && t in vectors[i] ::
          t in DocTF(lib.fold, docs[i])
          && vectors[i][t] == DocTF(lib.fold, docs[i])[t]
             * lib.log(1.0 + (|docs| as real) / ((1 + |DocsWith(lib.fold, docs, t)|) as real)))
  }

  lemma VectorsWeigh(lib: Library, docs: seq<KBEntry>)
    ensures WeighedBy(lib, docs, Vectors(lib, docs))
  {
    var vectors := Vectors(lib, docs);
    forall i: nat, t: string | i < |docs| ensures t in vectors[i] <==> HasToken(lib.fold, docs[i], t) {
      VectorPositive(lib, docs, i);
    }
    forall i: nat, t: string | i < |docs| && t in vectors[i]
      ensures t in DocTF(lib.fold, docs[i])
      ensures vectors[i][t] == DocTF(lib.fold, docs[i])[t]
              * lib.log(1.0 + (|docs| as real) / ((1 + |DocsWith(lib.fold, docs, t)|) as real))
    {
      WeightLaw(lib, docs, i, t);
    }
  }

  lemma RarerLog(log: Logarithm, n: nat, a: nat, b: nat)
    requires n > 0 && a < b
    ensures log(1.0 + (n as real) / ((1 + a) as real)) > log(1.0 + (n as real) / ((1 + b) as real))
  {
    SmallerQuotient(n as real, (1 + a) as real, (1 + b) as real);
  }

  lemma SmallerQuotient(n: real, a: real, b: real)
    requires n > 0.0 && 0.0 < a < b
    ensures 1.0 < 1.0 + n / b < 1.0 + n / a
  {
  }

  lemma LargerProduct(x: real, y: real, z: real)
    requires x > 0.0 && y < z
    ensures Product(x, y) < Product(x, z)
  {
  }

  lemma RarerIdf(lib: Library, docs: seq<KBEntry>, t: string, u: string)
    requires docs != [] && |DocsWith(lib.fold, docs, t)| < |DocsWith(lib.fold, docs, u)|
    ensures Idf(lib, TFs(lib.fold, docs), t) > Idf(lib, TFs(lib.fold, docs), u)
  {
    IdfLaw(lib, docs, t);
    IdfLaw(lib, docs, u);
    RarerLog(lib.log, |docs|, |DocsWith(lib.fold, docs, t)|, |DocsWith(lib.fold, docs, u)|);
  }

  // Of two terms with equal shares of a document, the one in fewer documents weighs more.
  lemma RarerWeighsMore(lib: Library, docs: seq<KBEntry>, i: nat, t: string, u: string)
    requires i < |docs| && HasToken(lib.fold, docs[i], t) && HasToken(lib.fold, docs[i], u)
    requires At(DocTF(lib.fold, docs[i]), t) == At(DocTF(lib.fold, docs[i]), u)
    requires |DocsWith(lib.fold, docs, t)| < |DocsWith(lib.fold, docs, u)|
    ensures At(Vectors(lib, docs)[i], t) > At(Vectors(lib, docs)[i], u)
  {
    DocTFNormal(lib.fold, docs[i]);
    VectorAt(lib, docs, i, t);
    VectorAt(lib, docs, i, u);
    RarerIdf(lib, docs, t, u);
    var tfs := TFs(lib.fold, docs);
    LargerProduct(DocTF(lib.fold, docs[i])[t], Idf(lib, tfs, u), Idf(lib, tfs, t));
  }

  // ---- search -----------------------------------------------------------------------------------------

  function Score(vec: Weights, terms: seq<string>): real {
    if terms == [] then 0.0 else Score(vec, terms[..|terms| - 1]) + At(vec, terms[|terms| - 1])
  }

  ghost function Scores(lib: Library, docs: seq<KBEntry>, query: string): (s: seq<real>)
    ensures |s| == |docs|
  {
    seq(|docs|, i requires 0 <= i < |docs| => Score(Vectors(lib, docs)[i], Tokens(lib.fold, query)))
  }

  // The corpus positions of the results, best first.
  ghost function Positions(lib: Library, sort: Sorter, docs: seq<KBEntry>, query: string, topK: nat): seq<nat> {
    Top(sort(Hits(Scores(lib, docs, query))), topK)
  }

  ghost function DocsAt(docs: seq<KBEntry>, p: seq<nat>): (out: seq<KBEntry>)
    requires forall i | 0 <= i < |p| :: p[i] < |docs|
    ensures |out| == |p| && forall i | 0 <= i < |p| :: out[i] == docs[p[i]]
  {
    seq(|p|, i requires 0 <= i < |p| => docs[p[i]])
  }

  ghost function SearchResult(lib: Library, sort: Sorter, docs: seq<KBEntry>, query: string, topK: nat): seq<KBEntry> {
    PositionsInRange(lib, sort, docs, query, topK);
    DocsAt(docs, Positions(lib, sort, docs, query, topK))
  }

  class MemoryVectorStore {
    const lib: Library
    const sort: Sorter
    var docs: seq<KBEntry>
    var vectors: seq<Weights>
    var idf: Weights

    ghost predicate Valid()
      reads this
    {
      vectors == Vectors(lib, docs)
    }

    constructor (lib: Library, sort: Sorter)
      ensures Valid() && docs == [] && this.lib == lib && this.sort == sort
    {
      this.lib, this.sort := lib, sort;
      docs, vectors, idf := [], [], map[];
    }

    method Index(docs: seq<KBEntry>)
      modifies this
      ensures Valid() && this.docs == docs && WeighedBy(lib, docs, vectors)
    {
      this.docs := docs;
      var tfs := TermFrequencies(docs);
      var df := CountDocs(tfs);
      idf := InverseFrequencies(tfs, df);
      vectors := Weigh(tfs, idf);
      assert vectors == Vectors(lib, docs);
      VectorsWeigh(lib, docs);
    }

    // Step 1: term frequencies per document.
    method TermFrequencies(docs: seq<KBEntry>) returns (tfs: seq<Weights>)
      ensures tfs == TFs(lib.fold, docs)
    {
      tfs := [];
      ghost var fold := lib.fold;
      ghost var want := (doc: KBEntry) => DocTF(fold, doc);
      for i := 0 to |docs|
        invariant |tfs| == i && forall j | 0 <= j < i :: tfs[j] == want(docs[j])
      {
        var tf := ComputeDocTF(lib.fold, docs[i]);
        tfs := tfs + [tf];
      }
    }

    method WeighDoc(tf: Weights, idf: Weights) returns (vec: Weights)
      requires tf.Keys <= idf.Keys
      ensures vec == map t | t in tf :: Product(tf[t], idf[t])
    {
      vec := map[];
      var todo := tf.Keys;
      while todo != {}
        invariant todo <= tf.Keys
        invariant vec == map t | t in tf && t !in todo :: Product(tf[t], idf[t])
      {
        var t :| t in todo;
        vec, todo := vec[t := Product(tf[t], idf[t])], todo - {t};
      }
    }

    // Step 4: term frequency times inverse document frequency.
    method Weigh(tfs: seq<Weights>, idf: Weights) returns (vectors: seq<Weights>)
      requires forall i | 0 <= i < |tfs| :: tfs[i].Keys <= idf.Keys
      requires forall t | t in idf :: idf[t] == Idf(lib, tfs, t)
      ensures |vectors| == |tfs| && forall i | 0 <= i < |tfs| :: vectors[i] == Vector(lib, tfs, i)
    {
      vectors := [];
      for i := 0 to |tfs|
        invariant |vectors| == i && forall j | 0 <= j < i :: vectors[j] == Vector(lib, tfs, j)
      {
        var vec := WeighDoc(tfs[i], idf);
        vectors := vectors + [vec];
      }
    }

    // Step 2: how many documents contain each term.
    method CountDocs(tfs: seq<Weights>) returns (df: map<string, nat>)
      ensures forall t :: t in df <==> DocFrequency(tfs, t) > 0
      ensures forall t | t in df :: df[t] == DocFrequency(tfs, t)
      ensures forall i | 0 <= i < |tfs| :: tfs[i].Keys <= df.Keys
    {
      df := map[];
      for i := 0 to |tfs|
        invariant forall t :: t in df <==> DocFrequency(tfs[..i], t) > 0
        invariant forall t | t in df :: df[t] == DocFrequency(tfs[..i], t)
        invariant forall j | 0 <= j < i :: tfs[j].Keys <= df.Keys
      {
        ghost var before := df;
        var todo := tfs[i].Keys;
        while todo != {}
          invariant todo <= tfs[i].Keys
          invariant df.Keys == before.Keys + (tfs[i].Keys - todo)
          invariant forall t | t in df ::
            (df[t] == (if t in before then before[t] else 0) + if t in tfs[i] && t !in todo then 1 else 0)
        {
          var t :| t in todo;
          df, todo := df[t := (if t in df then df[t] else 0) + 1], todo - {t};
        }
        assert tfs[..i + 1][..i] == tfs[..i];
      }
      assert tfs[..|tfs|] == tfs;
    }

    // Step 3: the inverse document frequency of every term.
    method InverseFrequencies(tfs: seq<Weights>, df: map<string, nat>) returns (idf: Weights)
      requires forall t | t in df :: df[t] == DocFrequency(tfs, t)
      ensures idf.Keys == df.Keys && forall t | t in df :: idf[t] == Idf(lib, tfs, t)
    {
      idf := map[];
      var todo := df.Keys;
      while todo != {}
        invariant todo <= df.Keys && idf.Keys == df.Keys - todo
        invariant forall t | t in idf :: idf[t] == Idf(lib, tfs, t)
      {
        var t :| t in todo;
        idf, todo := idf[t := lib.log(1.0 + (|tfs| as real) / ((1 + df[t]) as real))], todo - {t};
      }
    }

    method ScoreDoc(vec: Weights, terms: seq<string>) returns (score: real)
      ensures score == Score(vec, terms)
    {
      score := 0.0;
      for j := 0 to |terms|
        invariant score == Score(vec, terms[..j])
      {
        assert terms[..j + 1][..j] == terms[..j];
        score := score + At(vec, terms[j]);
      }
      assert terms[..|terms|] == terms;
    }

    method CollectHits(terms: seq<string>, ghost scores: seq<real>) returns (hits: seq<Hit>)
      requires |scores| == |vectors| && forall i | 0 <= i < |scores| :: scores[i] == Score(vectors[i], terms)
      ensures hits == Hits(scores)
    {
      hits := [];
      for i := 0 to |vectors|
        invariant hits == Hits(scores[..i])
      {
        var score := ScoreDoc(vectors[i], terms);
        assert scores[..i + 1][..i] == scores[..i];
        if score > 0.0 {
          hits := hits + [Hit(i, score)];
        }
      }
      assert scores[..|scores|] == scores;
    }

    method Search(query: string, topK: nat) returns (out: seq<KBEntry>)
      requires Valid()
      ensures out == SearchResult(lib, sort, docs, query, topK)
    {
      var terms := Tokenize(lib.fold, query);
      if |docs| == 0 || |terms| == 0 {
        NothingFound(lib, sort, docs, query, topK);
        return [];
      }
      var hits := CollectHits(terms, Scores(lib, docs, query));
      hits := sort(hits);
      assert Top(hits, topK) == Positions(lib, sort, docs, query, topK);
      PositionsInRange(lib, sort, docs, query, topK);
      out := Pick(hits, topK);
    }

    // The documents of the first topK hits, or of all of them if there are fewer.
    method Pick(hits: seq<Hit>, topK: nat) returns (out: seq<KBEntry>)
      requires forall i | 0 <= i < |Top(hits, topK)| :: Top(hits, topK)[i] < |docs|
      ensures out == DocsAt(docs, Top(hits, topK))
    {
      if |hits| == 0 {
        return [];
      }
      var k := if topK > |hits| then |hits| else topK;
      out := [];
      for i := 0 to k
        invariant |out| == i && forall j | 0 <= j < i :: out[j] == docs[Top(hits, topK)[j]]
      {
        assert Top(hits, topK)[i] == hits[i].idx;
        out := out + [docs[hits[i].idx]];
      }
    }
  }

  // ---- what a search returns ---------------------------------------------------------------------------

  lemma RankedHits(sort: Sorter, scores: seq<real>)
    ensures Ranks(sort(Hits(scores)), scores)
  {
    SortedHitsRank(sort(Hits(scores)), scores);
  }

  lemma PositionsInRange(lib: Library, sort: Sorter, docs: seq<KBEntry>, query: string, topK: nat)
    ensures forall i | 0 <= i < |Positions(lib, sort, docs, query, topK)| :: Positions(lib, sort, docs, query, topK)[i] < |docs|
  {
    var scores := Scores(lib, docs, query);
    RankedHits(sort, scores);
    TopIsTop(sort(Hits(scores)), scores, topK);
  }

  lemma NothingFound(lib: Library, sort: Sorter, docs: seq<KBEntry>, query: string, topK: nat)
    requires docs == [] || Tokens(lib.fold, query) == []
    ensures Positions(lib, sort, docs, query, topK) == [] && SearchResult(lib, sort, docs, query, topK) == []
  {
    var scores := Scores(lib, docs, query);
    RankedHits(sort, scores);
    TopIsTop(sort(Hits(scores)), scores, topK);
    assert Matching(scores) == {};
  }

  // A document matches a query when they share a token.
  ghost predicate Matches(fold: Folding, doc: KBEntry, query: string) {
    exists t | t in Tokens(fold, query) :: HasToken(fold, doc, t)
  }

  lemma {:induction false} ScorePositive(vec: Weights, terms: seq<string>)
    requires Positive(vec)
    ensures Score(vec, terms) >= 0.0
    ensures Score(vec, terms) > 0.0 <==> exists t | t in terms :: t in vec
  {
    if terms != [] {
      ScorePositive(vec, terms[..|terms| - 1]);
    }
  }

  lemma ScoredIffMatches(lib: Library, docs: seq<KBEntry>, query: string, i: nat)
    requires i < |docs|
    ensures Scores(lib, docs, query)[i] > 0.0 <==> Matches(lib.fold, docs[i], query)
  {
    VectorPositive(lib, docs, i);
    ScorePositive(Vectors(lib, docs)[i], Tokens(lib.fold, query));
  }

  lemma {:induction false} ScoreAdds(vec: Weights, a: seq<string>, b: seq<string>)
    ensures Score(vec, a + b) == Score(vec, a) + Score(vec, b)
  {
    if b == [] {
      assert a + b == a;
    } else {
      assert (a + b)[..|a + b| - 1] == a + b[..|b| - 1];
      ScoreAdds(vec, a, b[..|b| - 1]);
    }
  }

  // The score of a one-token query is the token's weight, and the score of two texts joined by a
  // blank is the sum of their scores.
  lemma ScoreIsSumOfWeights(lib: Library, docs: seq<KBEntry>, a: string, b: string, i: nat)
    requires i < |docs|
    ensures |Tokens(lib.fold, a)| == 1 ==> Scores(lib, docs, a)[i] == At(Vectors(lib, docs)[i], Tokens(lib.fold, a)[0])
    ensures Scores(lib, docs, a + " " + b)[i] == Scores(lib, docs, a)[i] + Scores(lib, docs, b)[i]
  {
    var vec, x, y := Vectors(lib, docs)[i], Tokens(lib.fold, a), Tokens(lib.fold, b);
    TokensJoin(lib.fold, a, b);
    ScoreAdds(vec, x, y);
    if |x| == 1 {
      assert x[..0] == [];
      assert Score(vec, x) == Score(vec, x[..0]) + At(vec, x[0]);
    }
  }

  ghost function MatchingDocs(fold: Folding, docs: seq<KBEntry>, query: string): set<nat> {
    set i: nat | i < |docs| && Matches(fold, docs[i], query)
  }

  lemma MatchingIsMatching(lib: Library, docs: seq<KBEntry>, query: string)
    ensures Matching(Scores(lib, docs, query)) == MatchingDocs(lib.fold, docs, query)
  {
    forall i: nat | i < |docs| ensures Scores(lib, docs, query)[i] > 0.0 <==> Matches(lib.fold, docs[i], query) {
      ScoredIffMatches(lib, docs, query, i);
    }
  }

  // Search is a correct top-k: distinct matching documents in descending score, as many as
  // asked for or all there are, and none left out scores higher than one returned.
  lemma SearchIsTopK(lib: Library, sort: Sorter, docs: seq<KBEntry>, query: string, topK: nat)
    ensures var p, out := Positions(lib, sort, docs, query, topK), SearchResult(lib, sort, docs, query, topK);
            var scores, all := Scores(lib, docs, query), MatchingDocs(lib.fold, docs, query);
            && |out| == |p| == (if topK < |all| then topK else |all|)
            && (forall i | 0 <= i < |p| :: p[i] in all && out[i] == docs[p[i]])
            && (forall i, j | 0 <= i < j < |p| :: p[i] != p[j] && scores[p[i]] >= scores[p[j]])
            && (forall d, i | d in all && d !in p && 0 <= i < |p| :: scores[p[i]] >= scores[d])
  {
    var scores := Scores(lib, docs, query);
    RankedHits(sort, scores);
    TopIsTop(sort(Hits(scores)), scores, topK);
    MatchingIsMatching(lib, docs, query);
  }

  lemma ResultsAreDocs(lib: Library, sort: Sorter, docs: seq<KBEntry>, query: string, topK: nat)
    ensures forall x | x in SearchResult(lib, sort, docs, query, topK) :: x in docs
  {
    PositionsInRange(lib, sort, docs, query, topK);
  }

  // A smaller k gives a prefix.
  lemma SmallerTopKIsPrefix(lib: Library, sort: Sorter, docs: seq<KBEntry>, query: string, k: nat, topK: nat)
    requires k <= topK
    ensures SearchResult(lib, sort, docs, query, k) <= SearchResult(lib, sort, docs, query, topK)
  {
  }
}
