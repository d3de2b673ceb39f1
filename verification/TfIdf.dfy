// Term weights of documents: field-weighted, L1-normalised term frequencies times the
// inverse document frequency. float64 is modelled by the reals.
module TfIdf {
  import opened Tokenizer

  datatype KBEntry = KBEntry(domain: string, id: string, name: string, category: string,
                             description: string, visualSymptoms: seq<string>)

  type Weights = map<string, real>

  // math.Log, of which only this is used: above 1 it is positive and increasing.
  type Logarithm = f: real -> real | Rises(f) witness (x: real) => x

  ghost predicate Rises(f: real -> real) {
    (forall x :: x > 1.0 ==> f(x) > 0.0) && forall x, y :: 1.0 < x < y ==> f(x) < f(y)
  }

  // What of the standard library the search uses.
  datatype Library = Library(log: Logarithm, fold: Folding)

  function At(m: Weights, term: string): real {
    if term in m then m[term] else 0.0
  }

  // ---- frequencies --------------------------------------------------------------------------------

  function AddTokens(m: Weights, toks: seq<string>, weight: real): Weights {
    if toks == [] then m else
      var m' := AddTokens(m, toks[..|toks| - 1], weight);
      m'[toks[|toks| - 1] := At(m', toks[|toks| - 1]) + weight]
  }

  function Join(parts: seq<string>): string {
    if parts == [] then "" else if |parts| == 1 then parts[0] else parts[0] + " " + Join(parts[1..])
  }

  function Frequencies(fold: Folding, doc: KBEntry): Weights {
    AddTokens(AddTokens(AddTokens(map[], Tokens(fold, doc.name + " " + doc.id + " " + doc.category), 3.0),
                        Tokens(fold, doc.description), 2.0),
              Tokens(fold, Join(doc.visualSymptoms)), 1.0)
  }

  ghost function Sum(m: Weights, keys: set<string>): real
    requires keys <= m.Keys
  {
    if keys == {} then 0.0 else
      var k :| k in keys;
      m[k] + Sum(m, keys - {k})
  }

  ghost function Normalise(freq: Weights): Weights {
    var total := Sum(freq, freq.Keys);
    if total > 0.0 then map t | t in freq :: freq[t] / total else freq
  }

  // The document's term frequencies.
  ghost function DocTF(fold: Folding, doc: KBEntry): Weights {
    Normalise(Frequencies(fold, doc))
  }

  lemma {:induction false} SumPick(m: Weights, keys: set<string>, k: string)
    requires k in keys && keys <= m.Keys
    ensures Sum(m, keys) == m[k] + Sum(m, keys - {k})
  {
    var j :| j in keys && Sum(m, keys) == m[j] + Sum(m, keys - {j});
    if j != k {
      SumPick(m, keys - {j}, k);
      SumPick(m, keys - {k}, j);
      assert keys - {j} - {k} == keys - {k} - {j};
    }
  }

  lemma AddQuotients(a: real, b: real, total: real)
    requires total > 0.0
    ensures a / total + b / total == (a + b) / total
  {
  }

  lemma {:induction false} SumScaled(m: Weights, m': Weights, keys: set<string>, total: real)
    requires keys <= m.Keys && keys <= m'.Keys && total > 0.0
    requires forall k | k in keys :: m'[k] == m[k] / total
    ensures Sum(m', keys) == Sum(m, keys) / total
  {
    if keys != {} {
      var k :| k in keys;
      SumPick(m, keys, k);
      SumPick(m', keys, k);
      SumScaled(m, m', keys - {k}, total);
      AddQuotients(m[k], Sum(m, keys - {k}), total);
    }
  }

  ghost predicate Positive(m: Weights) {
    forall k | k in m :: m[k] > 0.0
  }

  lemma {:induction false} SumPositive(m: Weights, keys: set<string>)
    requires keys <= m.Keys && Positive(m)
    ensures Sum(m, keys) >= 0.0 && (keys != {} ==> Sum(m, keys) > 0.0)
  {
    if keys != {} {
      var k :| k in keys;
      SumPick(m, keys, k);
      SumPositive(m, keys - {k});
    }
  }

  lemma {:induction false} AddTokensKeys(m: Weights, toks: seq<string>, weight: real)
    requires Positive(m) && weight > 0.0
    ensures var r := AddTokens(m, toks, weight); Positive(r) && forall t :: t in r <==> t in m || t in toks
  {
    if toks != [] {
      AddTokensKeys(m, toks[..|toks| - 1], weight);
    }
  }

  // The tokens of a document, field by field.
  ghost predicate HasToken(fold: Folding, doc: KBEntry, t: string) {
    t in Tokens(fold, doc.name) || t in Tokens(fold, doc.id) || t in Tokens(fold, doc.category) || t in Tokens(fold, doc.description)
    || exists i | 0 <= i < |doc.visualSymptoms| :: t in Tokens(fold, doc.visualSymptoms[i])
  }

  lemma {:induction false} TokensOfJoin(fold: Folding, parts: seq<string>, t: string)
    ensures t in Tokens(fold, Join(parts)) <==> exists i | 0 <= i < |parts| :: t in Tokens(fold, parts[i])
  {
    if |parts| == 1 {
      assert parts[0] == Join(parts);
    } else if |parts| > 1 {
      TokensJoin(fold, parts[0], Join(parts[1..]));
      TokensOfJoin(fold, parts[1..], t);
      assert forall i | 1 <= i < |parts| :: parts[i] == parts[1..][i - 1];
    }
  }

  lemma FrequenciesKeys(fold: Folding, doc: KBEntry)
    ensures Positive(Frequencies(fold, doc))
    ensures forall t :: t in Frequencies(fold, doc) <==> HasToken(fold, doc, t)
  {
    var name := Tokens(fold, doc.name + " " + doc.id + " " + doc.category);
    TokensJoin(fold, doc.name + " " + doc.id, doc.category);
    TokensJoin(fold, doc.name, doc.id);
    var a := AddTokens(map[], name, 3.0);
    AddTokensKeys(map[], name, 3.0);
    var b := AddTokens(a, Tokens(fold, doc.description), 2.0);
    AddTokensKeys(a, Tokens(fold, doc.description), 2.0);
    AddTokensKeys(b, Tokens(fold, Join(doc.visualSymptoms)), 1.0);
    forall t ensures t in Frequencies(fold, doc) <==> HasToken(fold, doc, t) {
      TokensOfJoin(fold, doc.visualSymptoms, t);
    }
  }

  function CountOf(toks: seq<string>, t: string): nat {
    multiset(toks)[t]
  }

  function Occurrences(fold: Folding, text: string, t: string): nat {
    CountOf(Tokens(fold, text), t)
  }

  function OccurrencesIn(fold: Folding, parts: seq<string>, t: string): nat {
    if parts == [] then 0 else Occurrences(fold, parts[0], t) + OccurrencesIn(fold, parts[1..], t)
  }

  lemma CountLast(toks: seq<string>, t: string)
    requires toks != []
    ensures CountOf(toks, t) == CountOf(toks[..|toks| - 1], t) + if toks[|toks| - 1] == t then 1 else 0
  {
    assert toks == toks[..|toks| - 1] + [toks[|toks| - 1]];
  }

  // weight added up n times.
  function Times(weight: real, n: nat): real {
    if n == 0 then 0.0 else Times(weight, n - 1) + weight
  }

  lemma {:induction false} AddTokensCounts(m: Weights, toks: seq<string>, weight: real, t: string)
    ensures At(AddTokens(m, toks, weight), t) == At(m, t) + Times(weight, CountOf(toks, t))
  {
    if toks != [] {
      AddTokensCounts(m, toks[..|toks| - 1], weight, t);
      CountLast(toks, t);
      RaiseOne(AddTokens(m, toks[..|toks| - 1], weight), toks[|toks| - 1], weight, t);
    }
  }

  lemma RaiseOne(m: Weights, k: string, weight: real, t: string)
    ensures At(m[k := At(m, k) + weight], t) == if k == t then At(m, t) + weight else At(m, t)
  {
  }

  lemma ThreeFields(a: seq<string>, b: seq<string>, c: seq<string>, t: string, i: nat, j: nat, k: nat)
    requires CountOf(a, t) == i && CountOf(b, t) == j && CountOf(c, t) == k
    ensures At(AddTokens(AddTokens(AddTokens(map[], a, 3.0), b, 2.0), c, 1.0), t) == Times(3.0, i) + Times(2.0, j) + Times(1.0, k)
  {
    var m := AddTokens(map[], a, 3.0);
    AddTokensCounts(map[], a, 3.0, t);
    AddTokensCounts(m, b, 2.0, t);
    AddTokensCounts(AddTokens(m, b, 2.0), c, 1.0, t);
  }

  lemma NameOccurrences(fold: Folding, a: string, b: string, c: string, t: string)
    ensures CountOf(Tokens(fold, a + " " + b + " " + c), t) == Occurrences(fold, a, t) + Occurrences(fold, b, t) + Occurrences(fold, c, t)
  {
    TokensJoin(fold, a + " " + b, c);
    TokensJoin(fold, a, b);
  }

  lemma {:induction false} OccurrencesJoin(fold: Folding, parts: seq<string>, t: string)
    ensures Occurrences(fold, Join(parts), t) == OccurrencesIn(fold, parts, t)
  {
    if |parts| == 1 {
      assert parts[1..] == [];
    } else if |parts| > 1 {
      TokensJoin(fold, parts[0], Join(parts[1..]));
      OccurrencesJoin(fold, parts[1..], t);
    }
  }

  // Before normalisation a token weighs 3 for each occurrence in the name, the id or the
  // category, 2 for each in the description and 1 for each in a symptom.
  lemma FrequencyCounts(fold: Folding, doc: KBEntry, t: string)
    ensures At(Frequencies(fold, doc), t) ==
            Times(3.0, Occurrences(fold, doc.name, t) + Occurrences(fold, doc.id, t) + Occurrences(fold, doc.category, t))
            + Times(2.0, Occurrences(fold, doc.description, t)) + Times(1.0, OccurrencesIn(fold, doc.visualSymptoms, t))
  {
    NameOccurrences(fold, doc.name, doc.id, doc.category, t);
    OccurrencesJoin(fold, doc.visualSymptoms, t);
    ThreeFields(Tokens(fold, doc.name + " " + doc.id + " " + doc.category), Tokens(fold, doc.description),
                Tokens(fold, Join(doc.visualSymptoms)), t,
                Occurrences(fold, doc.name, t) + Occurrences(fold, doc.id, t) + Occurrences(fold, doc.category, t),
                Occurrences(fold, doc.description, t), OccurrencesIn(fold, doc.visualSymptoms, t));
  }

  lemma Quotient(x: real, y: real)
    requires x > 0.0 && y > 0.0
    ensures x / y > 0.0 && y / y == 1.0
  {
  }

  lemma NormalisedPositive(freq: Weights)
    requires Positive(freq)
    ensures Positive(Normalise(freq)) && Normalise(freq).Keys == freq.Keys
  {
    var total := Sum(freq, freq.Keys);
    if total > 0.0 {
      forall t | t in freq ensures Normalise(freq)[t] > 0.0 {
        Quotient(freq[t], total);
      }
    }
  }

  lemma NormalisedSum(freq: Weights)
    requires Positive(freq) && freq.Keys != {}
    ensures freq.Keys == Normalise(freq).Keys && Sum(Normalise(freq), freq.Keys) == 1.0
  {
    var total := Sum(freq, freq.Keys);
    SumPositive(freq, freq.Keys);
    Quotient(total, total);
    SumScaled(freq, Normalise(freq), freq.Keys, total);
  }

  // A document's term frequencies are positive on exactly its tokens and sum to 1.
  lemma DocTFNormal(fold: Folding, doc: KBEntry)
    ensures Positive(DocTF(fold, doc))
    ensures forall t :: t in DocTF(fold, doc) <==> HasToken(fold, doc, t)
    ensures (exists t :: HasToken(fold, doc, t)) ==> Sum(DocTF(fold, doc), DocTF(fold, doc).Keys) == 1.0
  {
    FrequenciesKeys(fold, doc);
    NormalisedPositive(Frequencies(fold, doc));
    if t :| HasToken(fold, doc, t) {
      assert t in Frequencies(fold, doc);
      NormalisedSum(Frequencies(fold, doc));
    }
  }

  lemma AddTokensNext(m: Weights, toks: seq<string>, i: nat, weight: real)
    requires i < |toks|
    ensures var freq := AddTokens(m, toks[..i], weight);
            AddTokens(m, toks[..i + 1], weight) == freq[toks[i] := At(freq, toks[i]) + weight]
  {
    assert toks[..i + 1][..i] == toks[..i];
  }

  method AddTokensTo(fold: Folding, m: Weights, text: string, weight: real) returns (freq: Weights)
    ensures freq == AddTokens(m, Tokens(fold, text), weight)
  {
    freq := m;
    var toks := Tokenize(fold, text);
    for i := 0 to |toks|
      invariant freq == AddTokens(m, toks[..i], weight)
    {
      AddTokensNext(m, toks, i, weight);
      freq := freq[toks[i] := At(freq, toks[i]) + weight];
    }
    assert toks[..|toks|] == toks;
  }

  // The same keys, and any two values to each other as there.
  ghost predicate Proportional(w: Weights, freq: Weights) {
    w.Keys == freq.Keys && forall t, u | t in freq && u in freq :: w[t] * freq[u] == w[u] * freq[t]
  }

  lemma NormaliseKeepsShares(freq: Weights)
    requires Positive(freq)
    ensures Proportional(Normalise(freq), freq)
  {
    SumPositive(freq, freq.Keys);
    forall t, u | t in freq && u in freq ensures Normalise(freq)[t] * freq[u] == Normalise(freq)[u] * freq[t] {
      CrossMultiplied(freq[t], freq[u], Sum(freq, freq.Keys));
    }
  }

  // Two tokens' weights are to each other as their weighted counts.
  lemma SharesAreProportional(fold: Folding, doc: KBEntry)
    ensures Proportional(DocTF(fold, doc), Frequencies(fold, doc))
  {
    FrequenciesKeys(fold, doc);
    NormaliseKeepsShares(Frequencies(fold, doc));
  }

  lemma CrossMultiplied(a: real, b: real, total: real)
    requires total > 0.0
    ensures a / total * b == b / total * a
  {
  }

  method ComputeDocTF(fold: Folding, doc: KBEntry) returns (freq: Weights)
    ensures freq == DocTF(fold, doc)
  {
    freq := AddTokensTo(fold, map[], doc.name + " " + doc.id + " " + doc.category, 3.0);
    freq := AddTokensTo(fold, freq, doc.description, 2.0);
    freq := AddTokensTo(fold, freq, Join(doc.visualSymptoms), 1.0);
    ghost var raw := freq;
    var total, todo := 0.0, freq.Keys;
    while todo != {}
      invariant todo <= raw.Keys && total + Sum(raw, todo) == Sum(raw, raw.Keys)
    {
      var t :| t in todo;
      SumPick(raw, todo, t);
      total, todo := total + freq[t], todo - {t};
    }
    if total > 0.0 {
      todo := freq.Keys;
      while todo != {}
        invariant todo <= freq.Keys == raw.Keys
        invariant forall t | t in raw :: freq[t] == if t in todo then raw[t] else raw[t] / total
      {
        var t :| t in todo;
        freq, todo := freq[t := freq[t] / total], todo - {t};
      }
    }
  }
}
