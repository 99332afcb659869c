/**
 * `retrieve`: direct figure/table matches first, then semantic search over
 * every expansion of the query, a merge by id in which the later hit wins,
 * an optional cross-encoder rerank and a final truncation. The embedding
 * search and the cross-encoder are external oracles passed in as functions.
 */
module Retriever {
  import opened Wrappers
  import opened Strings
  import opened OrderedDicts
  import opened Chunks
  import opened Hits
  import opened Expansion
  import opened DirectMatches
  import opened Ranking

  /** `search(text, k)`: the chunks found with their similarity scores, or `None` when it raises. */
  type Search = (string, nat) -> Option<seq<(Chunk, real)>>

  /** `cross.predict(pairs)`: the scores of the (query, text) pairs, or `None` when it raises. */
  type Scorer = seq<(string, string)> -> Option<seq<real>>

  /** Default `topk` and `rerank_topk` of `retrieve`. */
  const DefaultTopK: nat := 15
  const DefaultRerankTopK: int := 5

  /** The records the semantic search contributes over `expanded`; a query whose search raises adds none. */
  function Found(search: Search, expanded: seq<string>, topk: nat): seq<(Chunk, real)>
    decreases |expanded|
  {
    if expanded == [] then []
    else
      var e := expanded[|expanded| - 1];
      Found(search, expanded[..|expanded| - 1], topk) + (match search(e, topk) case Some(rs) => rs case None => [])
  }

  /** Searching two runs of expansions is searching each in turn. */
  lemma {:induction false} FoundAppend(search: Search, a: seq<string>, b: seq<string>, topk: nat)
    ensures Found(search, a + b, topk) == Found(search, a, topk) + Found(search, b, topk)
    decreases |b|
  {
    if b == [] {
      assert a + b == a;
    } else {
      assert (a + b)[..|a + b| - 1] == a + b[..|b| - 1];
      assert (a + b)[|a + b| - 1] == b[|b| - 1];
      FoundAppend(search, a, b[..|b| - 1], topk);
    }
  }

  /** Every semantic record comes from the successful search of one expansion. */
  lemma {:induction false} FoundFrom(search: Search, expanded: seq<string>, topk: nat, r: (Chunk, real))
    requires r in Found(search, expanded, topk)
    ensures exists e, rs :: e in expanded && search(e, topk) == Some(rs) && r in rs
    decreases |expanded|
  {
    var p, e := expanded[..|expanded| - 1], expanded[|expanded| - 1];
    if r in Found(search, p, topk) {
      FoundFrom(search, p, topk, r);
      var e', rs :| e' in p && search(e', topk) == Some(rs) && r in rs;
      assert e' in expanded;
    } else {
      assert e in expanded;
    }
  }

  /** The chunks held by `hs`. */
  function ChunksOf(hs: seq<Hit>): (cs: seq<Chunk>)
    ensures |cs| == |hs| && forall i :: 0 <= i < |hs| ==> cs[i] == hs[i].chunk
  {
    seq(|hs|, i requires 0 <= i < |hs| => hs[i].chunk)
  }

  /** `merged = {}; for h in direct: merged[h["id"]] = h; for h in semantic: ...; list(merged.values())`. */
  function Merged(direct: seq<Hit>, semantic: seq<Hit>): seq<Hit> {
    Values(PutAll(Empty(), direct + semantic, Id))
  }

  /** `[(query, h["text"]) for h in hits]`. */
  function Pairs(query: string, hs: seq<Hit>): (ps: seq<(string, string)>)
    ensures |ps| == |hs| && forall i :: 0 <= i < |hs| ==> ps[i] == (query, hs[i].chunk.text)
  {
    seq(|hs|, i requires 0 <= i < |hs| => (query, hs[i].chunk.text))
  }

  /** `h.get("rerank_score", 0)` for each hit. */
  function RerankKeys(hs: seq<Hit>): (keys: seq<real>)
    reads set h | h in hs
    ensures |keys| == |hs|
    ensures forall i :: 0 <= i < |hs| ==> keys[i] == hs[i].rerankScore.GetOr(0.0)
  {
    seq(|hs|, i reads set h | h in hs requires 0 <= i < |hs| => hs[i].rerankScore.GetOr(0.0))
  }

  /** `hs` listed in the order of the stable descending sort of `keys`. */
  function Reorder(hs: seq<Hit>, keys: seq<real>): (r: seq<Hit>)
    requires |keys| == |hs|
    ensures |r| == |hs|
  {
    var order := SortOrder(keys, |keys|);
    seq(|hs|, i requires 0 <= i < |hs| => hs[order[i]])
  }

  /** The merged ids are unique, and they are exactly the ids of the direct and the semantic hits. */
  lemma MergedIds(direct: seq<Hit>, semantic: seq<Hit>)
    ensures NoDuplicates(KeysOf(Merged(direct, semantic), Id))
    ensures forall k :: k in KeysOf(Merged(direct, semantic), Id) <==> k in KeysOf(direct + semantic, Id)
  {
    ValuesKeys(direct + semantic, Id);
  }

  /** Every merged hit is a direct or a semantic hit. */
  lemma MergedFrom(direct: seq<Hit>, semantic: seq<Hit>)
    ensures forall h :: h in Merged(direct, semantic) ==> h in direct || h in semantic
  {
    var d := PutAll(Empty(), direct + semantic, Id);
    PutAllValuesFrom(direct + semantic, Id);
    forall h | h in Merged(direct, semantic)
      ensures h in direct + semantic
    {
      var i :| 0 <= i < |d.keys| && Values(d)[i] == h;
      assert d.keys[i] in d.entries;
    }
  }

  /** Distinct ids make distinct objects. */
  lemma DistinctIds(hs: seq<Hit>)
    requires NoDuplicates(KeysOf(hs, Id))
    ensures NoDuplicates(hs)
  {
    forall i, j | 0 <= i < j < |hs|
      ensures hs[i] != hs[j]
    {
      assert KeysOf(hs, Id)[i] != KeysOf(hs, Id)[j];
    }
  }

  /** The one merged hit with a given id: a merged hit is the value stored under its id. */
  lemma MergedUnder(direct: seq<Hit>, semantic: seq<Hit>, h: Hit)
    requires h in Merged(direct, semantic)
    ensures var d := PutAll(Empty(), direct + semantic, Id); Id(h) in d.entries && d.entries[Id(h)] == h
  {
    var d := PutAll(Empty(), direct + semantic, Id);
    PutAllKeyedBy(Empty(), direct + semantic, Id);
    var i :| 0 <= i < |d.keys| && Values(d)[i] == h;
    assert d.keys[i] in d.entries;
  }

  /**
   * Last write wins: the last semantic hit with a given id is the merged hit
   * with that id, so a chunk found by both paths ends as its semantic hit.
   */
  lemma SemanticWins(direct: seq<Hit>, semantic: seq<Hit>, i: nat)
    requires i < |semantic| && LastWithKey(semantic, i, Id)
    ensures semantic[i] in Merged(direct, semantic)
    ensures forall h :: h in Merged(direct, semantic) && Id(h) == Id(semantic[i]) ==> h == semantic[i]
  {
    var all := direct + semantic;
    var d := PutAll(Empty(), all, Id);
    assert all[|direct| + i] == semantic[i];
    assert LastWithKey(all, |direct| + i, Id) by {
      forall j | |direct| + i < j < |all|
        ensures Id(all[j]) != Id(semantic[i])
      {
        assert all[j] == semantic[j - |direct|];
      }
    }
    PutAllLastWins(Empty(), all, Id, |direct| + i);
    ValuesKeys(all, Id);
    var k :| 0 <= k < |d.keys| && d.keys[k] == Id(semantic[i]);
    assert Values(d)[k] == semantic[i];
    forall h | h in Merged(direct, semantic) && Id(h) == Id(semantic[i])
      ensures h == semantic[i]
    {
      MergedUnder(direct, semantic, h);
    }
  }

  /** A direct hit that is the last direct hit with its id survives when no semantic hit shares its id. */
  lemma DirectKept(direct: seq<Hit>, semantic: seq<Hit>, i: nat)
    requires i < |direct| && LastWithKey(direct, i, Id) && Id(direct[i]) !in KeysOf(semantic, Id)
    ensures direct[i] in Merged(direct, semantic)
  {
    var all := direct + semantic;
    var d := PutAll(Empty(), all, Id);
    assert all[i] == direct[i];
    assert LastWithKey(all, i, Id) by {
      forall j | i < j < |all|
        ensures Id(all[j]) != Id(direct[i])
      {
        if j >= |direct| {
          assert all[j] == semantic[j - |direct|];
          assert KeysOf(semantic, Id)[j - |direct|] == Id(all[j]);
        }
      }
    }
    PutAllLastWins(Empty(), all, Id, i);
    ValuesKeys(all, Id);
    var k :| 0 <= k < |d.keys| && d.keys[k] == Id(direct[i]);
    assert Values(d)[k] == direct[i];
  }

  /** Merged hits are listed in the order their ids were first inserted: direct hits first, then semantic ones. */
  lemma MergedOrder(direct: seq<Hit>, semantic: seq<Hit>, a: nat, b: nat)
    requires a < b < |Merged(direct, semantic)|
    ensures var m, ks := Merged(direct, semantic), KeysOf(direct + semantic, Id);
      Id(m[a]) in ks && Id(m[b]) in ks && FirstIndex(ks, Id(m[a])) < FirstIndex(ks, Id(m[b]))
  {
    ValuesKeys(direct + semantic, Id);
    PutAllKeyOrder(direct + semantic, Id, a, b);
  }

  /** The reordering lists the same hits, each once when they were distinct. */
  lemma ReorderPermutes(hs: seq<Hit>, keys: seq<real>)
    requires |keys| == |hs|
    ensures forall h :: h in Reorder(hs, keys) <==> h in hs
    ensures NoDuplicates(hs) ==> NoDuplicates(Reorder(hs, keys))
  {
    var order := SortOrder(keys, |keys|);
    var r := Reorder(hs, keys);
    SortOrderCorrect(keys, |keys|);
    forall h | h in hs
      ensures h in r
    {
      var p :| 0 <= p < |hs| && hs[p] == h;
      assert p in order;
      var i :| 0 <= i < |order| && order[i] == p;
      assert r[i] == h;
    }
    if NoDuplicates(hs) {
      forall i, j | 0 <= i < j < |r|
        ensures r[i] != r[j]
      {
        assert Before(keys, order[i], order[j]);
      }
    }
  }

  /**
   * The reordering is the stable descending sort: of two listed hits, the
   * earlier one has the larger key, or an equal key and an earlier position.
   */
  lemma ReorderSorted(hs: seq<Hit>, keys: seq<real>, i: nat, j: nat)
    requires |keys| == |hs| && i < j < |hs|
    ensures exists a, b ::
      0 <= a < |hs| && 0 <= b < |hs| &&
      Reorder(hs, keys)[i] == hs[a] && Reorder(hs, keys)[j] == hs[b] &&
      (keys[a] > keys[b] || (keys[a] == keys[b] && a < b))
  {
    var order := SortOrder(keys, |keys|);
    SortOrderCorrect(keys, |keys|);
    assert Before(keys, order[i], order[j]);
    assert Reorder(hs, keys)[i] == hs[order[i]];
  }

  /** `hits` hold the semantic records `found` in order: `{"score": float(score), **chunk}`. */
  predicate HoldsRecords(hits: seq<Hit>, found: seq<(Chunk, real)>) {
    |hits| == |found| &&
    forall i :: 0 <= i < |hits| ==> hits[i].chunk == found[i].0 && hits[i].score == Some(found[i].1)
  }

  /** `for eq in expanded: try: semantic_candidates.extend(search(eq, k=topk)) except: pass`. */
  method SemanticHits(expanded: seq<string>, topk: nat, search: Search) returns (hits: seq<Hit>)
    ensures HoldsRecords(hits, Found(search, expanded, topk))
    ensures forall i :: 0 <= i < |hits| ==> fresh(hits[i]) && hits[i].rerankScore == None
  {
    hits := [];
    for k := 0 to |expanded|
      invariant HoldsRecords(hits, Found(search, expanded[..k], topk))
      invariant forall i :: 0 <= i < |hits| ==> fresh(hits[i]) && hits[i].rerankScore == None
    {
      assert expanded[..k + 1][..k] == expanded[..k];
      match search(expanded[k], topk)
      case Some(rs) =>
        for j := 0 to |rs|
          invariant HoldsRecords(hits, Found(search, expanded[..k], topk) + rs[..j])
          invariant forall i :: 0 <= i < |hits| ==> fresh(hits[i]) && hits[i].rerankScore == None
        {
          assert rs[..j + 1] == rs[..j] + [rs[j]];
          var h := new Hit(rs[j].0, Some(rs[j].1));
          hits := hits + [h];
        }
        assert rs[..|rs|] == rs;
      case None =>
    }
    assert expanded[..|expanded|] == expanded;
  }

  /** `merged = {}; for h in direct_hits: ...; for h in semantic_candidates: ...; hits = list(merged.values())`. */
  method MergeHits(direct: seq<Hit>, semantic: seq<Hit>) returns (hits: seq<Hit>)
    ensures hits == Merged(direct, semantic)
  {
    var merged: Dict<Hit> := Empty();
    for i := 0 to |direct|
      invariant merged == PutAll(Empty(), direct[..i], Id)
    {
      assert direct[..i + 1][..i] == direct[..i];
      merged := Put(merged, direct[i].chunk.id, direct[i]);
    }
    assert direct[..|direct|] == direct;
    ghost var afterDirect := merged;
    for i := 0 to |semantic|
      invariant merged == PutAll(afterDirect, semantic[..i], Id)
    {
      assert semantic[..i + 1][..i] == semantic[..i];
      merged := Put(merged, semantic[i].chunk.id, semantic[i]);
    }
    assert semantic[..|semantic|] == semantic;
    PutAllAppend(Empty(), direct, semantic, Id);
    hits := Values(merged);
  }

  /** `for h, score in zip(hits, scores): h["rerank_score"] = float(score)`, written into the dicts themselves. */
  method ApplyScores(hits: seq<Hit>, scores: seq<real>)
    requires NoDuplicates(hits)
    modifies set h | h in hits
    ensures forall i :: 0 <= i < |hits| ==>
      hits[i].rerankScore == if i < |scores| then Some(scores[i]) else old(hits[i].rerankScore)
  {
    var n := if |hits| < |scores| then |hits| else |scores|;
    for i := 0 to n
      invariant forall k :: 0 <= k < |hits| ==>
        hits[k].rerankScore == if k < i then Some(scores[k]) else old(hits[k].rerankScore)
    {
      hits[i].rerankScore := Some(scores[i]);
    }
  }

  /** The scores the cross-encoder gives the merged hits: none when it is missing, when fewer than two hits were merged, or when `predict` raises. */
  function ScoresFor(cross: Option<Scorer>, query: string, merged: seq<Hit>): Option<seq<real>> {
    if cross.Some? && |merged| > 1 then cross.value(Pairs(query, merged)) else None
  }

  /**
   * Step 3 of `retrieve`: with a cross-encoder and at least two hits, score
   * the (query, text) pairs, write the scores into the hits and sort them by
   * descending `rerank_score`; when `predict` raises, keep the merge order.
   */
  method Rerank(query: string, hits: seq<Hit>, cross: Option<Scorer>) returns (ranked: seq<Hit>)
    requires NoDuplicates(hits)
    modifies set h | h in hits
    ensures forall i :: 0 <= i < |hits| ==> (hits[i].rerankScore ==
      var scores := ScoresFor(cross, query, hits);
      if scores.Some? && i < |scores.value| then Some(scores.value[i]) else old(hits[i].rerankScore))
    ensures ranked == if ScoresFor(cross, query, hits).Some? then Reorder(hits, RerankKeys(hits)) else hits
  {
    ranked := hits;
    if cross.Some? && |hits| > 1 {
      var pairs := Pairs(query, hits);
      match cross.value(pairs)
      case Some(scores) =>
        ApplyScores(hits, scores);
        ranked := Reorder(hits, RerankKeys(hits));
      case None =>
    }
  }

  /** The retriever's module state: the loaded corpus and the cached cross-encoder. */
  class RetrieverState {
    /** `ALL_CHUNKS`. */
    const corpus: seq<Hit>
    /** `_cross`. */
    var cross: Option<Scorer>

    constructor (corpus: seq<Hit>)
      ensures this.corpus == corpus && cross == None
    {
      this.corpus := corpus;
      cross := None;
    }

    /**
     * `get_cross_encoder()`. `load` is the outcome of `CrossEncoder(...)`,
     * `None` when construction raises; a failure is not remembered, so the
     * next call tries again.
     */
    method GetCrossEncoder(load: Option<Scorer>) returns (c: Option<Scorer>)
      modifies this`cross
      ensures cross == if old(cross).Some? then old(cross) else load
      ensures c == cross
    {
      if cross.None? {
        match load
        case Some(model) => cross := Some(model);
        case None => cross := None;
      }
      c := cross;
    }

    /**
     * Steps 1 and 2 of `retrieve` and the merge: the direct matches, the
     * semantic hits of every expansion, and the merged list. Nothing is
     * written yet.
     */
    method Gather(query: string, topk: nat, search: Search)
      returns (hits: seq<Hit>, ghost expanded: seq<string>, ghost semantic: seq<Hit>)
      ensures NoDuplicates(expanded) && forall e :: e in expanded <==> e in Expansions(query)
      ensures HoldsRecords(semantic, Found(search, expanded, topk))
      ensures forall h :: h in semantic ==> fresh(h) && h.rerankScore == None
      ensures hits == Merged(DirectSpec(query, corpus), semantic)
      ensures NoDuplicates(hits) && forall h :: h in hits ==> h in corpus || h in semantic
    {
      var direct := DirectFigureTableMatches(query, corpus);
      DirectFromCorpus(query, corpus);
      var exp := ExpandQuery(query);
      expanded := exp;
      var sem := SemanticHits(exp, topk, search);
      semantic := sem;
      hits := MergeHits(direct, sem);
      MergedFrom(direct, sem);
      MergedIds(direct, sem);
      DistinctIds(hits);
    }

    /**
     * `retrieve(query, topk, rerank_topk)`. The ghost results name the
     * intermediate lists: the expansions in the order they were searched, the
     * semantic hits, the merged hits and the (possibly reranked) list that is
     * truncated.
     */
    method Retrieve(query: string, topk: nat, rerankTopk: int, search: Search, load: Option<Scorer>)
      returns (result: seq<Hit>, ghost expanded: seq<string>, ghost semantic: seq<Hit>,
               ghost merged: seq<Hit>, ghost ranked: seq<Hit>)
      modifies this`cross, set h | h in corpus
      ensures NoDuplicates(expanded) && forall e :: e in expanded <==> e in Expansions(query)
      ensures HoldsRecords(semantic, Found(search, expanded, topk))
      ensures forall h :: h in semantic ==> fresh(h)
      ensures merged == Merged(DirectSpec(query, corpus), semantic)
      ensures cross == if old(cross).Some? then old(cross) else load
      ensures forall i :: 0 <= i < |merged| ==> (merged[i].rerankScore ==
        var scores := ScoresFor(cross, query, merged);
        if scores.Some? && i < |scores.value| then Some(scores.value[i])
        else if merged[i] in corpus then old(merged[i].rerankScore)
        else None)
      ensures forall h :: h in corpus && h !in merged ==> h.rerankScore == old(h.rerankScore)
      ensures ranked == if ScoresFor(cross, query, merged).Some? then Reorder(merged, RerankKeys(merged)) else merged
      ensures result == Slice(ranked, 0, rerankTopk)
      ensures rerankTopk >= 0 ==> |result| == if rerankTopk < |merged| then rerankTopk else |merged|
    {
      var hits;
      hits, expanded, semantic := Gather(query, topk, search);
      merged := hits;
      assert forall h :: h in semantic ==> h !in corpus;
      var c := GetCrossEncoder(load);
      hits := Rerank(query, hits, c);
      ranked := hits;
      result := Slice(hits, 0, rerankTopk);
    }
  }
}
