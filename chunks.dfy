/**
 * The chunk records that the chunker writes to `chunks.jsonl` and that the
 * retriever, the evaluation and the generator read back: `{"id", "text",
 * "meta": {"page", "type", "source"?, "path"?, "figure_tag"?}}`.
 */
module Chunks {
  import opened Wrappers
  import opened Strings

  /** One key of a JSON object: missing, present with `null`, or present with a value. */
  datatype Entry<T> = Absent | Null | Has(value: T)

  /** The `meta` dict. `kind` is its `"type"` entry (read with default `""`). */
  datatype Meta = Meta(page: Entry<int>, kind: string, source: Entry<string>,
                       path: Entry<string>, figureTag: Entry<string>)

  /** A chunk dict; `meta` is `None` when the dict has no `"meta"` key. */
  datatype Chunk = Chunk(id: string, text: string, meta: Option<Meta>)

  /** `c.get("meta", {}).get("type", "")`. */
  function KindOf(c: Chunk): string {
    match c.meta
    case Some(m) => m.kind
    case None => ""
  }

  /**
   * `c.get("meta", {}).get("figure_tag", "")` as a truth value: a missing key
   * and a `null` value both read as the empty (falsy) tag.
   */
  function TagOf(c: Chunk): string {
    match c.meta
    case Some(m) => (match m.figureTag case Has(t) => t case _ => "")
    case None => ""
  }

  /** `meta.get("page")`: `None` for a missing key and for `null`. */
  function PageOf(m: Meta): Option<int> {
    match m.page
    case Has(p) => Some(p)
    case _ => None
  }

  /** `f"{page}"` for a page number that may be `None`. */
  function PageText(page: Option<int>): string {
    match page
    case Some(p) => IntToString(p)
    case None => "None"
  }

  /** The `"page"` entry written for a page number that may be `None`. */
  function PageEntry(page: Option<int>): Entry<int> {
    match page
    case Some(p) => Has(p)
    case None => Null
  }
}
