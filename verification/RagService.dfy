// Knowledge-base queries: one index and one cache for everything, and one of each per domain.
// The caches are values here; LruCache.RagLru is the linked structure that implements them.
module RagService {
  import opened Options
  import opened TfIdf
  import opened Ranking
  import opened VectorStore
  import opened LruModel

  const RAG_CACHE_CAPACITY: nat := 128
  const RAG_CACHE_TTL: nat := 300_000_000_000

  type Results = seq<KBEntry>

  // ---- loading ------------------------------------------------------------------------------------------

  datatype KbFile = Unreadable | Malformed | Parsed(domain: string, problems: seq<KBEntry>)

  function Stamp(domain: string, problems: seq<KBEntry>): (r: seq<KBEntry>)
    ensures forall x | x in r :: x.domain == domain
  {
    seq(|problems|, i requires 0 <= i < |problems| => problems[i].(domain := domain))
  }

  // All entries of the files, each stamped with its file's domain.
  function AllEntries(files: seq<KbFile>): seq<KBEntry> {
    if files == [] then [] else
      var f := files[|files| - 1];
      AllEntries(files[..|files| - 1]) + if f.Parsed? then Stamp(f.domain, f.problems) else []
  }

  // The entries of the files of one domain, None if there is no such file.
  function DomainEntries(files: seq<KbFile>, domain: string): Option<seq<KBEntry>> {
    if files == [] then None else
      var f, before := files[|files| - 1], DomainEntries(files[..|files| - 1], domain);
      if f.Parsed? && f.domain == domain
      then Some((if before.Some? then before.value else []) + Stamp(domain, f.problems))
      else before
  }

  lemma {:induction false} EntriesAdd(a: seq<KbFile>, b: seq<KbFile>)
    ensures AllEntries(a + b) == AllEntries(a) + AllEntries(b)
  {
    if b == [] {
      assert a + b == a && AllEntries(a) + [] == AllEntries(a);
    } else {
      assert (a + b)[..|a + b| - 1] == a + b[..|b| - 1];
      EntriesAdd(a, b[..|b| - 1]);
    }
  }

  // Where the entry stands among those of one domain does not matter here, only that it is there.
  lemma {:induction false} DomainHas(files: seq<KbFile>, domain: string, x: KBEntry)
    ensures DomainEntries(files, domain).Some? <==> exists f | f in files :: f.Parsed? && f.domain == domain
    ensures (DomainEntries(files, domain).Some? && x in DomainEntries(files, domain).value) <==>
            exists f | f in files :: f.Parsed? && f.domain == domain && exists p | p in f.problems :: x == p.(domain := domain)
  {
    if files != [] {
      var fewer, f := files[..|files| - 1], files[|files| - 1];
      DomainHas(fewer, domain, x);
      assert files == fewer + [f];
      if f.Parsed? {
        StampHas(domain, f.problems, x);
      }
    }
  }

  lemma StampHas(domain: string, problems: seq<KBEntry>, x: KBEntry)
    ensures x in Stamp(domain, problems) <==> exists p | p in problems :: x == p.(domain := domain)
  {
    forall p | p in problems ensures p.(domain := domain) in Stamp(domain, problems) {
      var i :| 0 <= i < |problems| && problems[i] == p;
      assert Stamp(domain, problems)[i] == p.(domain := domain);
    }
  }

  // Of any two runs of files the entries follow each other, an unreadable file has none, and a
  // parsed one has its problems in order, each with the file's domain.
  lemma EntriesOfFiles(a: seq<KbFile>, b: seq<KbFile>, domain: string, problems: seq<KBEntry>)
    ensures AllEntries(a + b) == AllEntries(a) + AllEntries(b)
    ensures AllEntries([Unreadable]) == []
    ensures var r := AllEntries([Parsed(domain, problems)]);
            |r| == |problems| && forall i | 0 <= i < |r| :: r[i] == problems[i].(domain := domain)
  {
    EntriesAdd(a, b);
    var f := [Parsed(domain, problems)];
    assert f[..0] == [] && [Unreadable][..0] == [];
    assert AllEntries(f) == AllEntries(f[..0]) + Stamp(domain, problems);
  }

  // A second file of a domain adds to the first; files of other domains add nothing to it.
  lemma DomainGrows(files: seq<KbFile>, f: KbFile, domain: string)
    ensures var before, after := DomainEntries(files, domain), DomainEntries(files + [f], domain);
            if f.Parsed? && f.domain == domain
            then after.Some? && after.value == (if before.Some? then before.value else []) + AllEntries([f])
            else after == before
  {
    assert (files + [f])[..|files|] == files && [f][..0] == [];
    if f.Parsed? {
      assert AllEntries([f]) == AllEntries([f][..0]) + Stamp(f.domain, f.problems);
    }
  }

  lemma {:induction false} DomainEntriesStamped(files: seq<KbFile>, domain: string)
    ensures var r := DomainEntries(files, domain); r.Some? ==> forall x | x in r.value :: x.domain == domain
  {
    if files != [] {
      DomainEntriesStamped(files[..|files| - 1], domain);
    }
  }

  method LoadFiles(files: seq<KbFile>) returns (ok: bool, all: seq<KBEntry>, byDomain: map<string, seq<KBEntry>>)
    ensures ok <==> forall f | f in files :: !f.Malformed?
    ensures ok ==> all == AllEntries(files)
    ensures ok ==> forall d :: (if d in byDomain then Some(byDomain[d]) else None) == DomainEntries(files, d)
  {
    all, byDomain := [], map[];
    for i := 0 to |files|
      invariant forall f | f in files[..i] :: !f.Malformed?
      invariant all == AllEntries(files[..i])
      invariant forall d :: (if d in byDomain then Some(byDomain[d]) else None) == DomainEntries(files[..i], d)
    {
      assert files[..i + 1][..i] == files[..i];
      match files[i]
      case Unreadable =>
      case Malformed =>
        return false, [], map[];
      case Parsed(domain, problems) =>
        var stamped := Stamp(domain, problems);
        all := all + stamped;
        byDomain := byDomain[domain := (if domain in byDomain then byDomain[domain] else []) + stamped];
    }
    assert files[..|files|] == files;
    return true, all, byDomain;
  }

  // ---- the service ------------------------------------------------------------------------------------------

  // What the uncached search of a store returns for each cache key.
  ghost function Uncached(st: MemoryVectorStore): Key -> Results
    reads st
  {
    var lib, sort, docs := st.lib, st.sort, st.docs;
    (k: Key) => SearchResult(lib, sort, docs, k.query, k.maxResults)
  }

  // The cache after a query for key k: touched on a hit, holding the results after a miss.
  function AfterQuery(cache: Slots<Results>, k: Key, results: Results, now: int): Slots<Results> {
    var (s, hit) := Get(cache, k, now);
    if hit.Some? then s else Set(s, RAG_CACHE_CAPACITY, RAG_CACHE_TTL, k, results, now)
  }

  // After a query the same one hits, with the same results, for five minutes from the search; a hit
  // in between does not put that off.
  lemma QueryIsCached(cache: Slots<Results>, k: Key, results: Results, now: int, later: int)
    requires now <= later
    ensures var (before, after) := (Get(cache, k, now).1, Get(AfterQuery(cache, k, results, now), k, later).1);
            && (before.None? ==> after == if later <= now + 300_000_000_000 then Some(results) else None)
            && (before.Some? && after.Some? ==> after == before)
            && (before.Some? ==> after == Get(cache, k, later).1)
  {
    var i, c := Find(cache, k), AfterQuery(cache, k, results, now);
    if Get(cache, k, now).1.Some? {
      assert c[0] == cache[i];
    } else {
      assert c[0] == Slot(k, results, now + RAG_CACHE_TTL);
    }
  }

  // A search through a cache.
  method CachedSearch(cache: Slots<Results>, st: MemoryVectorStore, query: string, maxResults: nat, now: int)
      returns (results: Results, cache': Slots<Results>)
    requires st.Valid() && Coherent(cache, Uncached(st))
    ensures results == Uncached(st)(Key(query, maxResults)) && Coherent(cache', Uncached(st))
    ensures cache' == AfterQuery(cache, Key(query, maxResults), results, now)
  {
    var k := Key(query, maxResults);
    GetCoherent(cache, k, now, Uncached(st));
    var (s, hit) := Get(cache, k, now);
    if hit.Some? {
      return hit.value, s;
    }
    results := st.Search(query, maxResults);
    SetCoherent(s, RAG_CACHE_CAPACITY, RAG_CACHE_TTL, k, now, Uncached(st));
    cache' := Set(s, RAG_CACHE_CAPACITY, RAG_CACHE_TTL, k, results, now);
  }

  method SearchDomain(dc: Slots<Results>, ds: MemoryVectorStore, query: string, maxResults: nat, now: int)
      returns (results: Results, dc': Slots<Results>)
    requires ds.Valid() && Coherent(dc, Uncached(ds))
    ensures results == Uncached(ds)(Key(query, maxResults)) && Coherent(dc', Uncached(ds))
    ensures dc' == if query == "" then dc else AfterQuery(dc, Key(query, maxResults), results, now)
  {
    if |query| == 0 {
      NothingFound(ds.lib, ds.sort, ds.docs, query, maxResults);
      return [], dc;
    }
    results, dc' := CachedSearch(dc, ds, query, maxResults, now);
  }

  class RAGService {
    const entries: seq<KBEntry>
    const store: MemoryVectorStore
    const domainStores: map<string, MemoryVectorStore>
    var cache: Slots<Results>
    var domainCaches: map<string, Slots<Results>>

    constructor (entries: seq<KBEntry>, store: MemoryVectorStore, domainStores: map<string, MemoryVectorStore>,
                 domainCaches: map<string, Slots<Results>>)
      requires store.Valid() && store.docs == entries
      requires forall d | d in domainStores :: domainStores[d].Valid()
      requires forall d | d in domainCaches :: d in domainStores && domainCaches[d] == []
      ensures Valid() && this.entries == entries && this.store == store && this.domainStores == domainStores
      ensures cache == [] && this.domainCaches == domainCaches
    {
      this.entries, this.store, this.domainStores := entries, store, domainStores;
      this.cache, this.domainCaches := [], domainCaches;
    }

    // Every cache holds results of its own store's search.
    ghost predicate Valid()
      reads this, store, domainStores.Values
    {
      && store.Valid() && store.docs == entries && Coherent(cache, Uncached(store))
      && (forall d | d in domainStores :: domainStores[d].Valid())
      && (forall d | d in domainCaches :: d in domainStores && Coherent(domainCaches[d], Uncached(domainStores[d])))
    }

    // What a query for this domain returns without any cache.
    ghost function Answer(domain: string, query: string, maxResults: nat): Results
      reads store, domainStores.Values
    {
      var st := if domain != "" && domain in domainStores then domainStores[domain] else store;
      Uncached(st)(Key(query, maxResults))
    }

    method QueryKB(query: string, maxResults: nat, now: int) returns (results: Results)
      requires Valid()
      modifies this`cache
      ensures Valid()
      ensures cache == if entries == [] || query == "" then old(cache)
                       else AfterQuery(old(cache), Key(query, maxResults), results, now)
      ensures results == Answer("", query, maxResults)
      ensures results == SearchResult(store.lib, store.sort, store.docs, query, maxResults)
    {
      if |entries| == 0 || query == "" {
        NothingFound(store.lib, store.sort, store.docs, query, maxResults);
        return [];
      }
      results, cache := CachedSearch(cache, store, query, maxResults, now);
    }

    // The branch of QueryKBByDomain for a domain with a cache.
    method QueryCachedDomain(domain: string, query: string, maxResults: nat, now: int) returns (results: Results)
      requires Valid() && domain in domainCaches
      modifies this`domainCaches
      ensures Valid()
      ensures domainCaches == old(domainCaches)[domain := if query == "" then old(domainCaches)[domain]
                else AfterQuery(old(domainCaches)[domain], Key(query, maxResults), results, now)]
      ensures results == Uncached(domainStores[domain])(Key(query, maxResults))
    {
      var dc;
      results, dc := SearchDomain(domainCaches[domain], domainStores[domain], query, maxResults, now);
      domainCaches := domainCaches[domain := dc];
    }

    method QueryKBByDomain(domain: string, query: string, maxResults: nat, now: int) returns (results: Results)
      requires Valid()
      modifies this`cache, this`domainCaches
      ensures Valid()
      ensures results == Answer(domain, query, maxResults)
      ensures domain == "" || domain !in domainStores ==>
                results == SearchResult(store.lib, store.sort, store.docs, query, maxResults)
      ensures domain != "" && domain in domainStores ==>
                (results == SearchResult(domainStores[domain].lib, domainStores[domain].sort, domainStores[domain].docs, query, maxResults))
      ensures domain in domainStores && domain != "" ==> cache == old(cache)
      ensures domain !in domainStores || domain == "" ==> domainCaches == old(domainCaches)
      ensures domain !in old(domainCaches) ==> domainCaches == old(domainCaches)
      ensures domain !in domainStores || domain == "" ==>
                (cache == if entries == [] || query == "" then old(cache)
                          else AfterQuery(old(cache), Key(query, maxResults), results, now))
      ensures domain in domainStores && domain != "" && domain in old(domainCaches) ==>
                (domainCaches == old(domainCaches)[domain := if query == "" then old(domainCaches)[domain]
                  else AfterQuery(old(domainCaches)[domain], Key(query, maxResults), results, now)])
    {
      if domain == "" || domain !in domainStores {
        results := QueryKB(query, maxResults, now);
      } else if domain !in domainCaches {
        results := domainStores[domain].Search(query, maxResults);
      } else {
        results := QueryCachedDomain(domain, query, maxResults, now);
      }
    }

    // The indexes hold what the files hold.
    ghost predicate BuiltFrom(files: seq<KbFile>)
      reads store, domainStores.Values
    {
      && entries == AllEntries(files) && store.docs == entries
      && forall d :: (if d in domainStores then Some(domainStores[d].docs) else None) == DomainEntries(files, d)
    }

    // Every answer for a loaded, non-empty domain carries that domain's stamp.
    lemma AnswersAreStamped(files: seq<KbFile>, domain: string, query: string, maxResults: nat)
      requires BuiltFrom(files) && domain != "" && DomainEntries(files, domain).Some?
      ensures forall x | x in Answer(domain, query, maxResults) :: x.domain == domain && x in DomainEntries(files, domain).value
    {
      DomainEntriesStamped(files, domain);
      var st := domainStores[domain];
      assert DomainEntries(files, domain) == Some(st.docs);
      ResultsAreDocs(st.lib, st.sort, st.docs, query, maxResults);
    }
  }

  // An index for every domain.
  method BuildStores(byDomain: map<string, seq<KBEntry>>, lib: Library, sort: Sorter)
      returns (stores: map<string, MemoryVectorStore>)
    ensures stores.Keys == byDomain.Keys
    ensures forall d | d in stores :: stores[d].Valid() && stores[d].docs == byDomain[d]
  {
    stores := map[];
    var todo := byDomain.Keys;
    while todo != {}
      invariant todo <= byDomain.Keys && stores.Keys == byDomain.Keys - todo
      invariant forall d | d in stores :: stores[d].Valid() && stores[d].docs == byDomain[d]
    {
      var domain :| domain in todo;
      todo := todo - {domain};
      var ds := new MemoryVectorStore(lib, sort);
      ds.Index(byDomain[domain]);
      stores := stores[domain := ds];
    }
  }

  // newRAGServiceWith: load the files, then build an index and a cache for everything and for
  // every domain. Fails iff some file is malformed.
  method NewRAGService(files: seq<KbFile>, lib: Library, sort: Sorter) returns (svc: Option<RAGService>)
    ensures svc.None? <==> exists f | f in files :: f.Malformed?
    ensures svc.Some? ==> svc.value.Valid() && svc.value.BuiltFrom(files)
    ensures svc.Some? ==> svc.value.cache == [] && svc.value.domainCaches == map d | d in svc.value.domainStores :: []
  {
    var ok, all, byDomain := LoadFiles(files);
    if !ok {
      return None;
    }
    var store := new MemoryVectorStore(lib, sort);
    store.Index(all);
    var stores := BuildStores(byDomain, lib, sort);
    var r := new RAGService(all, store, stores, map d | d in byDomain :: []);
    svc := Some(r);
  }
}
