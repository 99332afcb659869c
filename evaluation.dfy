/**
 * `check_hit(expected_page, hits)` of the retrieval evaluation: whether the
 * expected page is among the pages of the retrieved chunks.
 */
module Evaluation {
  import opened Wrappers
  import opened Chunks

  /** `h["meta"]` raises `KeyError` for a hit without a `"meta"` key. */
  datatype KeyError = MissingMeta(index: nat)

  /**
   * `[h["meta"].get("page") for h in hits]`, or the first position whose hit
   * has no `meta`.
   */
  function RetrievedPages(hits: seq<Chunk>): (r: Result<seq<Option<int>>, KeyError>)
    ensures r.Ok? <==> forall i :: 0 <= i < |hits| ==> hits[i].meta.Some?
    ensures r.Ok? ==> (|r.value| == |hits| &&
      forall i :: 0 <= i < |hits| ==> r.value[i] == PageOf(hits[i].meta.value))
    ensures r.Err? ==> (r.error.index < |hits| && hits[r.error.index].meta.None? &&
      forall i :: 0 <= i < r.error.index ==> hits[i].meta.Some?)
    decreases |hits|
  {
    if hits == [] then Ok([])
    else
      match hits[0].meta
      case None => Err(MissingMeta(0))
      case Some(m) =>
        match RetrievedPages(hits[1..])
        case Ok(rest) => Ok([PageOf(m)] + rest)
        case Err(MissingMeta(i)) => Err(MissingMeta(i + 1))
  }

  /** `check_hit(expected_page, hits)`; `None` is Python's `None`. */
  function CheckHit(expected: Option<int>, hits: seq<Chunk>): Result<bool, KeyError> {
    match RetrievedPages(hits)
    case Err(e) => Err(e)
    case Ok(pages) => if expected.None? then Ok(None !in pages) else Ok(expected in pages)
  }

  /** For an expected page, the check holds iff some hit's `meta.page` is that page. */
  lemma CheckHitPage(p: int, hits: seq<Chunk>)
    requires forall i :: 0 <= i < |hits| ==> hits[i].meta.Some?
    ensures CheckHit(Some(p), hits) == Ok(exists i :: 0 <= i < |hits| && PageOf(hits[i].meta.value) == Some(p))
  {
    var pages := RetrievedPages(hits).value;
    if Some(p) in pages {
      var i :| 0 <= i < |pages| && pages[i] == Some(p);
      assert PageOf(hits[i].meta.value) == Some(p);
    }
  }

  /** With no expected page, the check holds iff every hit has a (non-null) page. */
  lemma CheckHitNone(hits: seq<Chunk>)
    requires forall i :: 0 <= i < |hits| ==> hits[i].meta.Some?
    ensures CheckHit(None, hits) == Ok(forall i :: 0 <= i < |hits| ==> PageOf(hits[i].meta.value).Some?)
  {
    var pages := RetrievedPages(hits).value;
    if None in pages {
      var i :| 0 <= i < |pages| && pages[i] == None;
      assert PageOf(hits[i].meta.value).None?;
    }
  }

  /** A hit without `meta` makes the check raise, whatever the expected page. */
  lemma CheckHitRaises(expected: Option<int>, hits: seq<Chunk>, i: nat)
    requires i < |hits| && hits[i].meta.None?
    ensures CheckHit(expected, hits).Err?
  {
  }

  /** With no hits, a page is never found, and "no page expected" always holds. */
  lemma CheckHitEmpty(p: int)
    ensures CheckHit(Some(p), []) == Ok(false)
    ensures CheckHit(None, []) == Ok(true)
  {
  }

  /** The check depends only on the set of retrieved pages, not on their order or repetition. */
  lemma CheckHitPageSet(expected: Option<int>, a: seq<Chunk>, b: seq<Chunk>)
    requires RetrievedPages(a).Ok? && RetrievedPages(b).Ok?
    requires forall x :: x in RetrievedPages(a).value <==> x in RetrievedPages(b).value
    ensures CheckHit(expected, a) == CheckHit(expected, b)
  {
  }
}
