// A query through the cache of linked nodes, held in the heap.
module RagQuery {
  import opened LruModel
  import opened LruCache
  import opened VectorStore
  import opened RagService

  // Ask the cache, else search and keep the results: the same answer as without a cache, and
  // the cache as the value model has it.
  method QueryThrough(lru: RagLru<Results>, st: MemoryVectorStore, query: string, maxResults: nat, now: int)
      returns (results: Results)
    requires lru.Valid() && lru.capacity == RAG_CACHE_CAPACITY && lru.ttl == RAG_CACHE_TTL
    requires st.Valid() && Coherent(lru.Abs(), Uncached(st))
    modifies lru`items, lru.list, lru.list.nodes
    ensures lru.Valid() && st.Valid() && Coherent(lru.Abs(), Uncached(st))
    ensures results == old(Uncached(st))(Key(query, maxResults)) && Uncached(st) == old(Uncached(st))
    ensures lru.Abs() == AfterQuery(old(lru.Abs()), Key(query, maxResults), results, now)
    ensures fresh(lru.list.nodes - old(lru.list.nodes))
  {
    var k := Key(query, maxResults);
    ghost var f := Uncached(st);
    GetCoherent(lru.Abs(), k, now, f);
    var hit := lru.Get(k, now);
    if hit.Some? {
      return hit.value;
    }
    results := st.Search(query, maxResults);
    SetCoherent(lru.Abs(), RAG_CACHE_CAPACITY, RAG_CACHE_TTL, k, now, f);
    lru.Set(k, results, now);
  }
}
