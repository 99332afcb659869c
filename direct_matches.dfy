/**
 * `direct_figure_table_matches`: a scan of the in-memory corpus for chunks
 * whose metadata names one of the figure/table identifiers of the query,
 * deduplicated by id.
 */
module DirectMatches {
  import opened Wrappers
  import opened Strings
  import opened OrderedDicts
  import opened Chunks
  import opened FigureIds
  import opened Hits

  /**
   * The table branch: the query mentions `table`, the chunk's `type` contains
   * `table`, and some identifier occurs in the lower-cased chunk id.
   */
  predicate TableQualifies(qlow: string, ids: set<string>, c: Chunk) {
    Contains(qlow, "table") && Contains(KindOf(c), "table")
    && exists fid :: fid in ids && Contains(Lower(c.id), fid)
  }

  /** The identifiers found in the normalised `figure_tag`; none when the tag is empty. */
  function TagHits(ids: set<string>, c: Chunk): (found: set<string>)
    ensures found <= ids
  {
    if TagOf(c) == "" then {}
    else set fid | fid in ids && Contains(Normalize(TagOf(c)), fid)
  }

  /** `h` repeated `n` times. */
  function Repeat(h: Hit, n: nat): (r: seq<Hit>)
    ensures |r| == n && forall i :: 0 <= i < n ==> r[i] == h
  {
    seq(n, _ => h)
  }

  lemma RepeatSnoc(h: Hit, n: nat)
    ensures Repeat(h, n + 1) == Repeat(h, n) + [h]
  {
  }

  /** What the scan appends for one corpus dict: once for the table branch, once per identifier in its tag. */
  function Copies(qlow: string, ids: set<string>, h: Hit): seq<Hit> {
    (if TableQualifies(qlow, ids, h.chunk) then [h] else []) + Repeat(h, |TagHits(ids, h.chunk)|)
  }

  /** The `matches` list after scanning `corpus`. */
  function Scan(qlow: string, ids: set<string>, corpus: seq<Hit>): seq<Hit>
    decreases |corpus|
  {
    if corpus == [] then []
    else Scan(qlow, ids, corpus[..|corpus| - 1]) + Copies(qlow, ids, corpus[|corpus| - 1])
  }

  /** A corpus dict is matched by the table branch or by the figure-tag branch. */
  predicate Qualifies(qlow: string, ids: set<string>, h: Hit) {
    TableQualifies(qlow, ids, h.chunk) || TagHits(ids, h.chunk) != {}
  }

  /** The list `direct_figure_table_matches(query)` returns for the corpus `corpus`. */
  function DirectSpec(query: string, corpus: seq<Hit>): seq<Hit> {
    Values(PutAll(Empty(), Scan(Lower(query), ExtractFigIds(query), corpus), Id))
  }

  /** `direct_figure_table_matches(query)` over the corpus `corpus` (`ALL_CHUNKS`). */
  method DirectFigureTableMatches(query: string, corpus: seq<Hit>) returns (result: seq<Hit>)
    ensures result == DirectSpec(query, corpus)
  {
    var qlow := Lower(query);
    var figIds := ExtractFigIdsFromQuery(query);
    ghost var ids := ExtractFigIds(query);
    var matches: seq<Hit> := [];
    for i := 0 to |corpus|
      invariant matches == Scan(qlow, ids, corpus[..i])
    {
      assert corpus[..i + 1][..i] == corpus[..i];
      matches := ScanOne(qlow, figIds, ids, corpus[i], matches);
    }
    assert corpus[..|corpus|] == corpus;
    result := Dedupe(matches);
  }

  /**
   * One pass of the scan loop: the table branch, then the figure-tag branch,
   * for corpus dict `c`; `figIds` is the identifier list, holding the
   * elements of `ids` once each.
   */
  method ScanOne(qlow: string, figIds: seq<string>, ghost ids: set<string>, c: Hit, matches: seq<Hit>)
    returns (out: seq<Hit>)
    requires NoDuplicates(figIds) && forall t :: t in figIds <==> t in ids
    ensures out == matches + Copies(qlow, ids, c)
  {
    out := matches;
    var t := KindOf(c.chunk);
    if Contains(qlow, "table") {
      if Contains(t, "table") {
        if exists fid :: fid in figIds && Contains(Lower(c.chunk.id), fid) {
          out := out + [c];
        }
      }
    }
    var tag := TagOf(c.chunk);
    if tag != "" {
      out := AppendTagHits(Normalize(tag), figIds, c, out);
      assert (set fid | fid in figIds && Contains(Normalize(tag), fid)) == TagHits(ids, c.chunk);
    }
  }

  /** `for fid in fig_ids: if fid in tag_norm: matches.append(c)`. */
  method AppendTagHits(tagNorm: string, figIds: seq<string>, c: Hit, matches: seq<Hit>) returns (out: seq<Hit>)
    requires NoDuplicates(figIds)
    ensures out == matches + Repeat(c, |set fid | fid in figIds && Contains(tagNorm, fid)|)
  {
    out := matches;
    ghost var found: set<string> := {};
    for j := 0 to |figIds|
      invariant forall t :: t in found <==> t in figIds[..j] && Contains(tagNorm, t)
      invariant out == matches + Repeat(c, |found|)
    {
      var fid := figIds[j];
      assert figIds[..j + 1] == figIds[..j] + [fid];
      if Contains(tagNorm, fid) {
        assert fid !in found;
        RepeatSnoc(c, |found|);
        out := out + [c];
        found := found + {fid};
      }
    }
    assert figIds[..|figIds|] == figIds;
    assert found == set fid | fid in figIds && Contains(tagNorm, fid);
  }

  /** `uniq = {}; for m in matches: uniq[m["id"]] = m; return list(uniq.values())`. */
  method Dedupe(matches: seq<Hit>) returns (result: seq<Hit>)
    ensures result == Values(PutAll(Empty(), matches, Id))
  {
    var uniq: Dict<Hit> := Empty();
    for j := 0 to |matches|
      invariant uniq == PutAll(Empty(), matches[..j], Id)
    {
      assert matches[..j + 1][..j] == matches[..j];
      uniq := Put(uniq, matches[j].chunk.id, matches[j]);
    }
    assert matches[..|matches|] == matches;
    result := Values(uniq);
  }

  /** The scan lists exactly the corpus dicts that qualify. */
  lemma {:induction false} InScan(qlow: string, ids: set<string>, corpus: seq<Hit>, h: Hit)
    ensures h in Scan(qlow, ids, corpus) <==> h in corpus && Qualifies(qlow, ids, h)
    decreases |corpus|
  {
    if corpus != [] {
      var p, c := corpus[..|corpus| - 1], corpus[|corpus| - 1];
      InScan(qlow, ids, p, h);
      assert corpus == p + [c];
      assert h in Copies(qlow, ids, c) <==> h == c && Qualifies(qlow, ids, c) by {
        if h == c && TagHits(ids, c.chunk) != {} {
          var r := Repeat(c, |TagHits(ids, c.chunk)|);
          assert r[0] == c;
        }
      }
    }
  }

  /** The dedup keys of the result are exactly the ids of the corpus dicts that qualify. */
  lemma DirectIds(query: string, corpus: seq<Hit>, k: string)
    ensures k in KeysOf(DirectSpec(query, corpus), Id) <==>
      exists h :: h in corpus && Id(h) == k && Qualifies(Lower(query), ExtractFigIds(query), h)
  {
    var qlow, ids := Lower(query), ExtractFigIds(query);
    var matches := Scan(qlow, ids, corpus);
    ValuesKeys(matches, Id);
    assert k in KeysOf(DirectSpec(query, corpus), Id) <==> k in KeysOf(matches, Id);
    if k in KeysOf(matches, Id) {
      var j :| 0 <= j < |matches| && Id(matches[j]) == k;
      InScan(qlow, ids, corpus, matches[j]);
    }
    if h :| h in corpus && Id(h) == k && Qualifies(qlow, ids, h) {
      InScan(qlow, ids, corpus, h);
      var j :| 0 <= j < |matches| && matches[j] == h;
      assert KeysOf(matches, Id)[j] == k;
    }
  }

  /** Every returned dict is a corpus dict that qualifies, and no two share an id. */
  lemma DirectFromCorpus(query: string, corpus: seq<Hit>)
    ensures forall h :: h in DirectSpec(query, corpus) ==>
      h in corpus && Qualifies(Lower(query), ExtractFigIds(query), h)
    ensures NoDuplicates(KeysOf(DirectSpec(query, corpus), Id))
  {
    var qlow, ids := Lower(query), ExtractFigIds(query);
    var matches := Scan(qlow, ids, corpus);
    var d := PutAll(Empty(), matches, Id);
    PutAllKeyedBy(Empty(), matches, Id);
    PutAllValuesFrom(matches, Id);
    forall h | h in DirectSpec(query, corpus)
      ensures h in corpus && Qualifies(qlow, ids, h)
    {
      InScan(qlow, ids, corpus, h);
    }
    assert KeysOf(DirectSpec(query, corpus), Id) == d.keys;
  }

  /** A query without identifiers matches nothing. */
  lemma DirectNoIds(query: string, corpus: seq<Hit>)
    requires ExtractFigIds(query) == {}
    ensures DirectSpec(query, corpus) == []
  {
    var qlow := Lower(query);
    var matches := Scan(qlow, {}, corpus);
    if matches != [] {
      InScan(qlow, {}, corpus, matches[0]);
      assert false;
    }
  }

  /**
   * The figure-tag branch alone finds a dict whose non-empty tag, normalised,
   * contains an identifier of the query, whether or not the query mentions
   * `table`.
   */
  lemma FigureTagFound(query: string, corpus: seq<Hit>, h: Hit, fid: string)
    requires h in corpus && TagOf(h.chunk) != ""
    requires fid in ExtractFigIds(query) && Contains(Normalize(TagOf(h.chunk)), fid)
    ensures Id(h) in KeysOf(DirectSpec(query, corpus), Id)
  {
    assert fid in TagHits(ExtractFigIds(query), h.chunk);
    DirectIds(query, corpus, Id(h));
  }

  /** Without `table` in the query, only the figure-tag branch can match. */
  lemma NoTableOnlyTags(query: string, corpus: seq<Hit>, k: string)
    requires !Contains(Lower(query), "table")
    ensures k in KeysOf(DirectSpec(query, corpus), Id) <==>
      exists h :: h in corpus && Id(h) == k && TagHits(ExtractFigIds(query), h.chunk) != {}
  {
    DirectIds(query, corpus, k);
  }

  /** The tag `Figure III.5` normalises to `figureiii.5`: the space goes and the letters are lower-cased. */
  lemma NormalizeFigureTag(tag: string)
    requires tag == "Figure III.5"
    ensures Normalize(tag) == "figureiii.5"
  {
    assert tag == "Figure" + " " + "III.5";
    NormalizeJoinsPieces("Figure", "III.5");
    LowerFigureTag();
  }

  lemma LowerFigureTag()
    ensures Lower("Figure" + "III.5") == "figureiii.5"
  {
    assert LowerChar('F') == 'f' && LowerChar('I') == 'i';
  }

  lemma RomanIdInFigureTag()
    ensures Contains("figureiii.5", "iii.5")
  {
    assert OccursAt("iii.5", "figureiii.5", 6) by {
      assert "figureiii.5"[6..11] == "iii.5";
    }
  }

  /** The query `Figure III.5` directly matches every corpus dict tagged `Figure III.5`. */
  lemma FigureQueryFindsTaggedChunk(query: string, corpus: seq<Hit>, h: Hit)
    requires query == "Figure III.5"
    requires h in corpus && TagOf(h.chunk) == query
    ensures Id(h) in KeysOf(DirectSpec(query, corpus), Id)
  {
    FigureRomanExtracts();
    NormalizeFigureTag(query);
    RomanIdInFigureTag();
    FigureTagFound(query, corpus, h, "iii.5");
  }
}
