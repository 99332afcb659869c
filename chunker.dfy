/**
 * The chunk builders of `src/chunker.py`: the sliding word window
 * (`chunk_text`), the table serialiser (`semantic_table_text`), the figure-tag
 * guard around an abstract regular expression (`extract_figure_tag`) and the
 * per-page assembly of text, table and image chunks (`page_to_chunks`).
 */
module Chunker {
  import opened Wrappers
  import opened Strings
  import opened Chunks
  import opened FilterMaps

  /** `SOURCE_NAME` in `page_to_chunks`. */
  const SourceName: string := "Swiggy Annual Report FY 2023-24"

  // ---------------------------------------------------------------------------
  // semantic_table_text

  /** A table cell: `None` or its text. */
  type Cell = Option<string>

  /** A table row; `None` stands for a row that is not a list, on which serialising raises. */
  type Row = Option<seq<Cell>>

  type Table = seq<Row>

  /** `str(c) if c is not None else ""` for each cell. */
  function CellTexts(cells: seq<Cell>): (ts: seq<string>)
    ensures |ts| == |cells|
  {
    seq(|cells|, i requires 0 <= i < |cells| => cells[i].GetOr(""))
  }

  /** `"\t".join(...)` of the rendered cells. */
  function RowText(cells: seq<Cell>): string {
    Join(CellTexts(cells), "\t")
  }

  /** The loop over `header_row`: the stripped text of every cell that is not `None`. */
  function HeaderLabels(header: seq<Cell>): seq<string> {
    if header == [] then []
    else (if header[0].Some? then [Strip(header[0].value)] else []) + HeaderLabels(header[1..])
  }

  function FieldsDescription(labels: seq<string>): string {
    if labels == [] then "" else "This table includes fields: " + Join(labels, ", ") + ". "
  }

  predicate AllRowsAreLists(table: Table) {
    forall i :: 0 <= i < |table| ==> table[i].Some?
  }

  function TableHeading(page: Option<int>, idx: int): string {
    "TABLE (page " + PageText(page) + ", table " + IntToString(idx) + "): "
  }

  /** The description of a table: built from its first row, `""` for an empty table. */
  function TableDescription(table: Table): string
    requires AllRowsAreLists(table)
  {
    FieldsDescription(HeaderLabels(if |table| > 0 then table[0].value else []))
  }

  /** The rendered rows, one line each. */
  function RowTexts(table: Table): (rows: seq<string>)
    requires AllRowsAreLists(table)
    ensures |rows| == |table|
  {
    seq(|table|, i requires 0 <= i < |table| && AllRowsAreLists(table) => RowText(table[i].value))
  }

  /** `semantic_table_text(table, page, idx)`; `None` when it raises. */
  function SemanticTableText(table: Table, page: Option<int>, idx: int): Option<string> {
    if !AllRowsAreLists(table) then None
    else Some(TableHeading(page, idx) + TableDescription(table) + "\n" + Join(RowTexts(table), "\n"))
  }

  /** The header yields no labels exactly when all of its cells are `None`. */
  lemma {:induction false} HeaderLabelsEmptyIff(header: seq<Cell>)
    ensures HeaderLabels(header) == [] <==> forall i :: 0 <= i < |header| ==> header[i].None?
    decreases |header|
  {
    if header != [] {
      HeaderLabelsEmptyIff(header[1..]);
      if forall i :: 0 <= i < |header[1..]| ==> header[1..][i].None? {
        if header[0].None? {
          forall i | 0 <= i < |header| ensures header[i].None? {
            if i > 0 { assert header[i] == header[1..][i - 1]; }
          }
        }
      } else {
        var i :| 0 <= i < |header[1..]| && header[1..][i].Some?;
        assert header[i + 1].Some?;
      }
    }
  }

  /** The description is `""` exactly when the first row has no cell that is not `None`. */
  lemma TableDescriptionEmptyIff(table: Table)
    requires AllRowsAreLists(table)
    ensures TableDescription(table) == "" <==>
      (|table| == 0 || forall i :: 0 <= i < |table[0].value| ==> table[0].value[i].None?)
  {
    var header := if |table| > 0 then table[0].value else [];
    HeaderLabelsEmptyIff(header);
    var labels := HeaderLabels(header);
    if labels != [] {
      assert |FieldsDescription(labels)| > 0;
    }
  }

  /** A row that can be read back: at least one cell, no cell holding a tab or a line break. */
  predicate PlainRow(cells: seq<Cell>) {
    |cells| > 0 && forall i :: 0 <= i < |cells| && cells[i].Some? ==>
      '\t' !in cells[i].value && '\n' !in cells[i].value
  }

  /**
   * The serialised table decodes back: after the heading, the description and
   * one line break, splitting on line breaks gives one line per row, and
   * splitting a line on tabs gives that row's cells (`None` as `""`).
   */
  lemma TableTextDecodes(table: Table, page: Option<int>, idx: int)
    requires AllRowsAreLists(table) && |table| > 0
    requires forall i :: 0 <= i < |table| ==> PlainRow(table[i].value)
    ensures SemanticTableText(table, page, idx).Some?
    ensures var r := SemanticTableText(table, page, idx).value;
      var head := TableHeading(page, idx) + TableDescription(table) + "\n";
      |head| <= |r| && r[..|head|] == head &&
      var lines := SplitOn(r[|head|..], '\n');
      |lines| == |table| &&
      forall i :: 0 <= i < |table| ==> SplitOn(lines[i], '\t') == CellTexts(table[i].value)
  {
    var rows := RowTexts(table);
    var head := TableHeading(page, idx) + TableDescription(table) + "\n";
    var r := SemanticTableText(table, page, idx).value;
    assert r == head + Join(rows, "\n");
    assert r[..|head|] == head && r[|head|..] == Join(rows, "\n");
    forall i | 0 <= i < |table| ensures '\n' !in rows[i] && SplitOn(rows[i], '\t') == CellTexts(table[i].value) {
      var cells := table[i].value;
      var ts := CellTexts(cells);
      assert rows[i] == Join(ts, "\t");
      forall k | 0 <= k < |ts| ensures '\t' !in ts[k] && '\n' !in ts[k] {
        assert ts[k] == cells[k].GetOr("");
      }
      SplitOnJoin(ts, '\t');
      JoinAvoids(ts, "\t", '\n');
    }
    SplitOnJoin(rows, '\n');
  }

  /** A character absent from the parts and the separator is absent from the join. */
  lemma {:induction false} JoinAvoids(parts: seq<string>, sep: string, c: char)
    requires c !in sep && forall k :: 0 <= k < |parts| ==> c !in parts[k]
    ensures c !in Join(parts, sep)
    decreases |parts|
  {
    if |parts| > 1 {
      JoinAvoids(parts[1..], sep, c);
    }
  }

  // ---------------------------------------------------------------------------
  // extract_figure_tag

  /**
   * `regex.search(text)`: the text of the first match (`m.group(0)`), if any.
   * `FIG_REGEX` and the fallback pattern of `extract_figure_tag` are not
   * modelled; they are passed in as matchers.
   */
  type Matcher = string -> Option<string>

  /** A matcher reports a piece of the text it scanned, as a regular expression search does. */
  ghost predicate FindsSubstrings(m: Matcher) {
    forall t :: m(t).Some? ==> Contains(t, m(t).value)
  }

  /** `text_to_scan`: each non-empty input followed by a line break. */
  function ScanText(ocr: string, surrounding: string): string {
    (if ocr != "" then ocr + "\n" else "") + (if surrounding != "" then surrounding + "\n" else "")
  }

  /** The scanned text is blank exactly when both inputs are. */
  lemma ScanTextBlankIff(ocr: string, surrounding: string)
    ensures Blank(ScanText(ocr, surrounding)) <==> Blank(ocr) && Blank(surrounding)
  {
    var a := if ocr != "" then ocr + "\n" else "";
    var b := if surrounding != "" then surrounding + "\n" else "";
    var t := a + b;
    if Blank(t) {
      forall i | 0 <= i < |ocr| ensures IsSpace(ocr[i]) { assert ocr[i] == t[i]; }
      forall i | 0 <= i < |surrounding| ensures IsSpace(surrounding[i]) { assert surrounding[i] == t[|a| + i]; }
    }
  }

  /** `extract_figure_tag(ocr_text, surrounding_text)` with its two regular expressions as matchers. */
  function ExtractFigureTag(ocr: string, surrounding: string, fig: Matcher, simple: Matcher): string {
    var text := ScanText(ocr, surrounding);
    if Strip(text) == "" then ""
    else match fig(text)
      case Some(g) => Strip(g)
      case None =>
        match simple(text)
        case Some(g) => g
        case None => ""
  }

  /**
   * No tag is found when both inputs are blank, and, for matchers that report
   * pieces of the text, a tag that is found is a piece of the scanned text.
   */
  lemma FigureTagFromText(ocr: string, surrounding: string, fig: Matcher, simple: Matcher)
    ensures Blank(ocr) && Blank(surrounding) ==> ExtractFigureTag(ocr, surrounding, fig, simple) == ""
    ensures var tag := ExtractFigureTag(ocr, surrounding, fig, simple);
      FindsSubstrings(fig) && FindsSubstrings(simple) && tag != "" ==> Contains(ScanText(ocr, surrounding), tag)
  {
    var text := ScanText(ocr, surrounding);
    ScanTextBlankIff(ocr, surrounding);
    StripEmptyIffBlank(text);
    if Strip(text) != "" && FindsSubstrings(fig) {
      match fig(text)
      case Some(g) =>
        StripOccurs(g);
        ContainsTransitive(text, g, Strip(g));
      case None =>
    }
  }

  // ---------------------------------------------------------------------------
  // chunk_text

  /** The default `chunk_size` of `chunk_text` and `page_to_chunks`. */
  const DefaultChunkSize: int := 300
  /** The default `overlap` of `chunk_text` and `page_to_chunks`. */
  const DefaultOverlap: int := 50

  /** How many windows start inside `n` words when each starts `step` words after the last. */
  function WindowCount(n: int, step: int): nat
    requires n <= 0 || step > 0
    decreases n
  {
    if n <= 0 then 0 else 1 + WindowCount(n - step, step)
  }

  /** Window `k` exists exactly when its first word `k * step` is one of the `n` words. */
  lemma {:induction false} WindowStarts(n: int, step: int, k: nat)
    requires step > 0
    ensures k < WindowCount(n, step) <==> k * step < n
    decreases n
  {
    if n > 0 && k > 0 {
      WindowStarts(n - step, step, k - 1);
      assert (k - 1) * step == k * step - step;
    }
  }

  /** `chunk_text` emits `ceil(n / step)` chunks: the count `c` satisfies `(c - 1) * step < n <= c * step`. */
  lemma {:induction false} WindowCountIsCeiling(n: int, step: int)
    requires n > 0 && step > 0
    ensures var c := WindowCount(n, step); (c - 1) * step < n <= c * step
    decreases n
  {
    var c := WindowCount(n, step);
    if n - step > 0 {
      WindowCountIsCeiling(n - step, step);
      MulSucc(c - 1, step);
      MulSucc(c - 2, step);
    } else {
      assert c == 1;
    }
  }

  /** Window `k` is the slice of the words from `k * step`, cut at the last word. */
  lemma WindowIsSlice(words: seq<string>, size: int, step: int, k: nat)
    requires size >= 0 && step > 0 && k * step < |words|
    ensures var lo := k * step; var hi := if lo + size < |words| then lo + size else |words|;
      Window(words, size, step, k) == words[lo..hi]
  {
    StartIsProduct(k, step);
  }

  lemma MulSucc(a: int, b: int)
    ensures (a + 1) * b == a * b + b
  {
  }

  function TextChunkId(page: Option<int>, k: nat): string {
    PageText(page) + "-txt-" + NatToString(k)
  }

  /** The meta `chunk_text` gives a text chunk: `{"page", "type": "text"}`. */
  function TextChunkMeta(page: Option<int>): Meta {
    Meta(PageEntry(page), "text", Absent, Absent, Absent)
  }

  /** The words of window `k`: `words[start : start + size]` with `start` the `k`-th start, `k * step`. */
  function Window(words: seq<string>, size: int, step: int, k: nat): seq<string> {
    Slice(words, Start(k, step), Start(k, step) + size)
  }

  /** Chunk number `k` of `chunk_text`. */
  function WindowChunk(words: seq<string>, page: Option<int>, size: int, step: int, k: nat): Chunk {
    Chunk(TextChunkId(page, k), Join(Window(words, size, step, k), " "), Some(TextChunkMeta(page)))
  }

  /**
   * `chunk_text(text, page, chunk_size, overlap)`. The loop ends only when the
   * window advances (`chunk_size > overlap`) or there are no words at all.
   */
  method ChunkText(text: string, page: Option<int>, chunkSize: int, overlap: int) returns (chunks: seq<Chunk>)
    requires chunkSize > overlap || Words(text) == []
    ensures var words := Words(text);
      |chunks| == WindowCount(|words|, chunkSize - overlap) &&
      forall k :: 0 <= k < |chunks| ==> chunks[k] == WindowChunk(words, page, chunkSize, chunkSize - overlap, k)
  {
    var words := Words(text);
    var step := chunkSize - overlap;
    chunks := [];
    var i := 0;
    var cid := 0;
    while i < |words|
      invariant |words| > 0 ==> step > 0
      invariant cid == |chunks|
      invariant WindowsSoFar(words, page, chunkSize, step, chunks, i)
      decreases |words| - i
    {
      var c := MakeWindowChunk(words, page, chunkSize, step, cid, i);
      WindowsSoFarStep(words, page, chunkSize, step, chunks, i, c);
      chunks := chunks + [c];
      cid := cid + 1;
      i := i + step;
    }
    assert WindowCount(|words| - i, step) == 0;
  }

  /** The state of the `chunk_text` loop: the first windows are emitted and `i` is where the next one starts. */
  ghost predicate WindowsSoFar(words: seq<string>, page: Option<int>, size: int, step: int, chunks: seq<Chunk>, i: int) {
    (step > 0 || (|words| == 0 && i >= 0)) &&
    i == Start(|chunks|, step) &&
    |chunks| + WindowCount(|words| - i, step) == WindowCount(|words|, step) &&
    forall k :: 0 <= k < |chunks| ==> chunks[k] == WindowChunk(words, page, size, step, k)
  }

  /** One pass of the loop keeps `WindowsSoFar`. */
  lemma WindowsSoFarStep(words: seq<string>, page: Option<int>, size: int, step: int, chunks: seq<Chunk>, i: int, c: Chunk)
    requires step > 0 && i < |words| && WindowsSoFar(words, page, size, step, chunks, i)
    requires c == WindowChunk(words, page, size, step, |chunks|)
    ensures WindowsSoFar(words, page, size, step, chunks + [c], i + step)
  {
    WindowCountStep(|words| - i, step);
    var next := chunks + [c];
    forall k | 0 <= k < |next| ensures next[k] == WindowChunk(words, page, size, step, k) {
      if k < |chunks| {
        assert next[k] == chunks[k];
      }
    }
  }

  /** The first word of window `k`: `i` after `k` passes of `i += chunk_size - overlap`. */
  function Start(k: nat, step: int): int {
    if k == 0 then 0 else Start(k - 1, step) + step
  }

  lemma {:induction false} StartIsProduct(k: nat, step: int)
    ensures Start(k, step) == k * step
  {
    if k > 0 {
      StartIsProduct(k - 1, step);
      MulSucc(k - 1, step);
    }
  }

  /** One pass of the `chunk_text` loop: the chunk of the window that starts at word `i`. */
  method MakeWindowChunk(words: seq<string>, page: Option<int>, chunkSize: int, step: int, cid: nat, i: int)
    returns (c: Chunk)
    requires i == Start(cid, step)
    ensures c == WindowChunk(words, page, chunkSize, step, cid)
  {
    var chunkWords := Slice(words, i, i + chunkSize);
    var ctext := Join(chunkWords, " ");
    c := Chunk(PageText(page) + "-txt-" + NatToString(cid), ctext, Some(TextChunkMeta(page)));
  }

  /** A window that starts inside the text is followed by the windows of the rest. */
  lemma WindowCountStep(n: int, step: int)
    requires n > 0 && step > 0
    ensures WindowCount(n, step) == 1 + WindowCount(n - step, step)
  {
  }

  /** Every window holds at most `chunk_size` words. */
  lemma WindowSize(words: seq<string>, page: Option<int>, size: int, step: int, k: nat)
    requires size >= 0 && step > 0
    requires forall j :: 0 <= j < |words| ==> IsWord(words[j])
    ensures |Words(WindowChunk(words, page, size, step, k).text)| <= size
  {
    var w := Window(words, size, step, k);
    if w != [] {
      forall j | 0 <= j < |w| ensures IsWord(w[j]) {
        var a := SliceBound(Start(k, step), |words|);
        assert w[j] == words[a + j];
      }
      WordsOfJoin(w);
    }
  }

  /**
   * With a non-negative overlap every word lies in some window: word `w` is
   * among the words of window `w / step`.
   */
  lemma WindowsCoverWords(words: seq<string>, size: int, step: int, w: nat)
    requires step > 0 && size >= step && w < |words|
    ensures var k := w / step; k < WindowCount(|words|, step) && words[w] in Window(words, size, step, k)
  {
    var k := w / step;
    assert k * step + w % step == w;
    WindowStarts(|words|, step, k);
    WindowIsSlice(words, size, step, k);
    var lo := k * step;
    var hi := if lo + size < |words| then lo + size else |words|;
    assert words[lo..hi][w - lo] == words[w];
  }

  /** With the defaults each window starts 250 words after the last, so `n` words give `ceil(n / 250)` chunks. */
  lemma DefaultChunkCount(n: int)
    requires n > 0
    ensures var c := WindowCount(n, DefaultChunkSize - DefaultOverlap); (c - 1) * 250 < n <= c * 250
  {
    WindowCountIsCeiling(n, DefaultChunkSize - DefaultOverlap);
  }

  // ---------------------------------------------------------------------------
  // page_to_chunks

  /** An image of a page: its OCR text (`""` when missing or `None`) and its path. */
  datatype Image = Image(ocr: string, path: Option<string>)

  /**
   * A page dict from ingestion: `"page"` (possibly `None`), `"text"`,
   * `"tables"` and `"images"`, the last three already defaulted as
   * `page_to_chunks` does (`or ""`, `or []`).
   */
  datatype PageInput = PageInput(page: Option<int>, text: string, tables: seq<Table>, images: seq<Image>)

  /** The `"figure_tag"` key is written only for a non-empty tag. */
  function TagEntry(tag: string): (e: Entry<string>)
    ensures e.Has? <==> tag != ""
    ensures e.Has? ==> e.value == tag
  {
    if tag != "" then Has(tag) else Absent
  }

  /** `img.get("path")`: the key is always written, `None` when the image has no path. */
  function PathEntry(path: Option<string>): Entry<string> {
    match path
    case Some(p) => Has(p)
    case None => Null
  }

  /** A text chunk after `c["meta"]` is replaced with the page's metadata. */
  function EnrichTextChunk(c: Chunk, page: Option<int>, fig: Matcher, simple: Matcher): Chunk
  {
    var tag := ExtractFigureTag("", c.text, fig, simple);
    c.(meta := Some(Meta(PageEntry(page), "text", Has(SourceName), Absent, TagEntry(tag))))
  }

  function TextChunks(pg: PageInput, size: int, overlap: int, fig: Matcher, simple: Matcher): (cs: seq<Chunk>)
    requires size > overlap || Blank(pg.text)
  {
    if Strip(pg.text) == "" then []
    else
      StripEmptyIffBlank(pg.text);
      var words := Words(pg.text);
      seq(WindowCount(|words|, size - overlap),
          k requires 0 <= k => EnrichTextChunk(WindowChunk(words, pg.page, size, size - overlap, k), pg.page, fig, simple))
  }

  /** The chunk for table `i` from its serialised text. */
  function TableChunkOf(txt: string, page: Option<int>, i: nat, fig: Matcher, simple: Matcher): Chunk
  {
    var tag := ExtractFigureTag("", txt, fig, simple);
    Chunk(PageText(page) + "-tbl-" + NatToString(i), txt,
          Some(Meta(PageEntry(page), "table", Has(SourceName), Absent, TagEntry(tag))))
  }

  /** The chunk for table `i`, or `None` when serialising it raises. */
  function TableChunk(table: Table, page: Option<int>, i: nat, fig: Matcher, simple: Matcher): Option<Chunk>
  {
    match SemanticTableText(table, page, i)
    case None => None
    case Some(txt) => Some(TableChunkOf(txt, page, i, fig, simple))
  }

  /** The conversion the table loop applies to table `i`. */
  function TableConversion(page: Option<int>, fig: Matcher, simple: Matcher): (Table, nat) -> Option<Chunk> {
    (table: Table, i: nat) => TableChunk(table, page, i, fig, simple)
  }

  /** The table chunks of a page, skipping the tables whose serialisation raises. */
  function TableChunks(tables: seq<Table>, page: Option<int>, fig: Matcher, simple: Matcher): seq<Chunk> {
    FilterMap(tables, TableConversion(page, fig, simple), |tables|)
  }

  /** The positions of the tables that yield a chunk. */
  function TableIndices(tables: seq<Table>, page: Option<int>, fig: Matcher, simple: Matcher): seq<nat> {
    Kept(tables, TableConversion(page, fig, simple), |tables|)
  }

  /** The one chunk emitted for image `i`. */
  function ImageChunk(img: Image, page: Option<int>, pageText: string, i: nat, fig: Matcher, simple: Matcher): Chunk
  {
    var tag := ExtractFigureTag(img.ocr, pageText, fig, simple);
    var p := PageText(page);
    var meta := Meta(PageEntry(page), "image", Has(SourceName), PathEntry(img.path), Absent);
    if Strip(img.ocr) != "" then
      Chunk(p + "-imgocr-" + NatToString(i),
            (if tag != "" then tag + " " else "") + "IMAGE_OCR (page " + p + "): " + img.ocr,
            Some(meta.(figureTag := TagEntry(tag))))
    else
      Chunk(p + "-img-" + NatToString(i), "IMAGE (page " + p + ") - no OCR text", Some(meta))
  }

  function ImageChunks(pg: PageInput, fig: Matcher, simple: Matcher): (cs: seq<Chunk>)
    ensures |cs| == |pg.images|
  {
    seq(|pg.images|, i requires 0 <= i < |pg.images| => ImageChunk(pg.images[i], pg.page, pg.text, i, fig, simple))
  }

  /** What `page_to_chunks` returns: text chunks, then table chunks, then image chunks. */
  function PageChunks(pg: PageInput, size: int, overlap: int, fig: Matcher, simple: Matcher): seq<Chunk>
    requires size > overlap || Blank(pg.text)
  {
    TextChunks(pg, size, overlap, fig, simple) + TableChunks(pg.tables, pg.page, fig, simple) +
    ImageChunks(pg, fig, simple)
  }

  lemma AppendNext<T>(xs: seq<T>, ys: seq<T>, m: nat)
    requires m < |ys|
    ensures xs + ys[..m + 1] == (xs + ys[..m]) + [ys[m]]
  {
    assert ys[..m + 1] == ys[..m] + [ys[m]];
  }

  /** The text-chunk loop of `page_to_chunks`: each chunk's meta is replaced with the page's. */
  method EnrichTextChunks(textChunks: seq<Chunk>, page: Option<int>, fig: Matcher, simple: Matcher)
    returns (chunks: seq<Chunk>)
    ensures |chunks| == |textChunks|
    ensures forall j :: 0 <= j < |chunks| ==> chunks[j] == EnrichTextChunk(textChunks[j], page, fig, simple)
  {
    chunks := [];
    var j := 0;
    while j < |textChunks|
      invariant 0 <= j <= |textChunks| && |chunks| == j
      invariant forall k :: 0 <= k < j ==> chunks[k] == EnrichTextChunk(textChunks[k], page, fig, simple)
    {
      var c := textChunks[j];
      var figTag := ExtractFigureTag("", c.text, fig, simple);
      var meta := Meta(page := PageEntry(page), kind := "text", source := Has(SourceName),
                       path := Absent, figureTag := Absent);
      if figTag != "" {
        meta := meta.(figureTag := Has(figTag));
      }
      c := c.(meta := Some(meta));
      chunks := chunks + [c];
      j := j + 1;
    }
  }

  /** The table loop of `page_to_chunks`: one chunk per table that serialises; a table that raises is skipped. */
  method AppendTableChunks(chunks: seq<Chunk>, tables: seq<Table>, page: Option<int>, fig: Matcher, simple: Matcher)
    returns (out: seq<Chunk>)
    ensures out == chunks + TableChunks(tables, page, fig, simple)
  {
    out := chunks;
    ghost var conv := TableConversion(page, fig, simple);
    for t := 0 to |tables|
      invariant out == chunks + FilterMap(tables, conv, t)
    {
      var c := MakeTableChunk(tables[t], page, t, fig, simple);
      FilterMapStep(chunks, tables, conv, t, out, c);
      if c.Some? {
        out := out + [c.value];
      }
    }
  }

  /** One pass of the table loop: serialise table `t`, tag it, and build its chunk, or `None` when serialising raises. */
  method MakeTableChunk(table: Table, page: Option<int>, t: nat, fig: Matcher, simple: Matcher)
    returns (c: Option<Chunk>)
    ensures c == TableConversion(page, fig, simple)(table, t)
  {
    var tblText := SemanticTableText(table, page, t);
    c := None;
    if tblText.Some? {
      var figTag := ExtractFigureTag("", tblText.value, fig, simple);
      var meta := Meta(page := PageEntry(page), kind := "table", source := Has(SourceName),
                       path := Absent, figureTag := Absent);
      if figTag != "" {
        meta := meta.(figureTag := Has(figTag));
      }
      c := Some(Chunk(PageText(page) + "-tbl-" + NatToString(t), tblText.value, Some(meta)));
    }
  }

  /** The image loop of `page_to_chunks`: exactly one chunk per image. */
  method AppendImageChunks(chunks: seq<Chunk>, pg: PageInput, fig: Matcher, simple: Matcher)
    returns (out: seq<Chunk>)
    ensures out == chunks + ImageChunks(pg, fig, simple)
  {
    out := chunks;
    var page := pg.page;
    var images := pg.images;
    var m := 0;
    while m < |images|
      invariant 0 <= m <= |images|
      invariant out == chunks + ImageChunks(pg, fig, simple)[..m]
    {
      AppendNext(chunks, ImageChunks(pg, fig, simple), m);
      var ocrText := images[m].ocr;
      var figTag := ExtractFigureTag(ocrText, pg.text, fig, simple);
      var p := PageText(page);
      if Strip(ocrText) != "" {
        var txt := (if figTag != "" then figTag + " " else "") + "IMAGE_OCR (page " + p + "): " + ocrText;
        var meta := Meta(page := PageEntry(page), kind := "image", source := Has(SourceName),
                         path := PathEntry(images[m].path), figureTag := Absent);
        if figTag != "" {
          meta := meta.(figureTag := Has(figTag));
        }
        out := out + [Chunk(p + "-imgocr-" + NatToString(m), txt, Some(meta))];
      } else {
        var meta := Meta(page := PageEntry(page), kind := "image", source := Has(SourceName),
                         path := PathEntry(images[m].path), figureTag := Absent);
        out := out + [Chunk(p + "-img-" + NatToString(m), "IMAGE (page " + p + ") - no OCR text", Some(meta))];
      }
      m := m + 1;
    }
    assert ImageChunks(pg, fig, simple)[..|images|] == ImageChunks(pg, fig, simple);
  }

  /**
   * `page_to_chunks(page_obj, chunk_size, overlap)`: text chunks (only for a
   * page whose text is not blank), then table chunks, then image chunks, each
   * loop being one of the methods above.
   */
  method PageToChunks(pg: PageInput, chunkSize: int, overlap: int, fig: Matcher, simple: Matcher)
    returns (chunks: seq<Chunk>)
    requires chunkSize > overlap || Blank(pg.text)
    ensures chunks == PageChunks(pg, chunkSize, overlap, fig, simple)
  {
    chunks := [];
    if Strip(pg.text) != "" {
      StripEmptyIffBlank(pg.text);
      WordsEmptyIffBlank(pg.text);
      var textChunks := ChunkText(pg.text, pg.page, chunkSize, overlap);
      chunks := EnrichTextChunks(textChunks, pg.page, fig, simple);
    }
    assert chunks == TextChunks(pg, chunkSize, overlap, fig, simple);
    chunks := AppendTableChunks(chunks, pg.tables, pg.page, fig, simple);
    chunks := AppendImageChunks(chunks, pg, fig, simple);
  }

  // ---------------------------------------------------------------------------
  // Properties of page_to_chunks

  /**
   * One table chunk per table that serialises, in table order, each built
   * from that table's text; a table whose serialisation raises is skipped.
   */
  lemma TableChunksShape(tables: seq<Table>, page: Option<int>, fig: Matcher, simple: Matcher)
    ensures var cs, ix := TableChunks(tables, page, fig, simple), TableIndices(tables, page, fig, simple);
      |cs| == |ix| &&
      (forall k :: 0 <= k < |ix| ==>
        ix[k] < |tables| && AllRowsAreLists(tables[ix[k]]) &&
        cs[k] == TableChunkOf(SemanticTableText(tables[ix[k]], page, ix[k]).value, page, ix[k], fig, simple)) &&
      (forall k, l :: 0 <= k < l < |ix| ==> ix[k] < ix[l]) &&
      (forall i :: 0 <= i < |tables| && AllRowsAreLists(tables[i]) ==> i in ix)
  {
    var conv := TableConversion(page, fig, simple);
    var cs, ix := TableChunks(tables, page, fig, simple), TableIndices(tables, page, fig, simple);
    FilterMapShape(tables, conv, |tables|);
    KeptSpec(tables, conv, |tables|);
    forall k | 0 <= k < |ix|
      ensures AllRowsAreLists(tables[ix[k]]) &&
        cs[k] == TableChunkOf(SemanticTableText(tables[ix[k]], page, ix[k]).value, page, ix[k], fig, simple)
    {
      assert conv(tables[ix[k]], ix[k]) == Some(cs[k]);
    }
    forall i | 0 <= i < |tables| && AllRowsAreLists(tables[i]) ensures i in ix {
      assert conv(tables[i], i).Some?;
    }
  }

  /** The id suffixes written after the page number. */
  predicate IsIdTag(tag: string) {
    tag == "-txt-" || tag == "-tbl-" || tag == "-imgocr-" || tag == "-img-"
  }

  /** No id tag is a prefix of another: the tag is read back from the front of the suffix. */
  lemma TagsDistinct(t1: string, x: string, t2: string, y: string)
    requires IsIdTag(t1) && IsIdTag(t2) && t1 + x == t2 + y
    ensures t1 == t2
  {
    var u := t1 + x;
    assert u[1] == t1[1] && u[2] == t1[2] && u[4] == t1[4];
    assert u[1] == t2[1] && u[2] == t2[2] && u[4] == t2[4];
  }

  /** After a common page prefix, an id's tag and number part are read back. */
  lemma IdPartsDistinct(p: string, t1: string, x: string, t2: string, y: string)
    requires IsIdTag(t1) && IsIdTag(t2) && p + t1 + x == p + t2 + y
    ensures t1 == t2 && x == y
  {
    assert t1 + x == (p + t1 + x)[|p|..];
    assert t2 + y == (p + t2 + y)[|p|..];
    TagsDistinct(t1, x, t2, y);
    assert x == (t1 + x)[|t1|..];
    assert y == (t2 + y)[|t2|..];
  }

  /** Ids built from the same page, a tag and a number are equal only for the same tag and number. */
  lemma IdsDistinct(p: string, t1: string, n1: nat, t2: string, n2: nat)
    requires IsIdTag(t1) && IsIdTag(t2)
    requires p + t1 + NatToString(n1) == p + t2 + NatToString(n2)
    ensures t1 == t2 && n1 == n2
  {
    IdPartsDistinct(p, t1, NatToString(n1), t2, NatToString(n2));
    NatToStringInjective(n1, n2);
  }

  /** The tag and the number of chunk `i` of a page, by the part of the output it falls in. */
  function IdTagAt(pg: PageInput, nt: nat, ix: seq<nat>, i: nat): string {
    if i < nt then "-txt-"
    else if i < nt + |ix| then "-tbl-"
    else if i - nt - |ix| < |pg.images| && Strip(pg.images[i - nt - |ix|].ocr) != "" then "-imgocr-"
    else "-img-"
  }

  function IdNumberAt(nt: nat, ix: seq<nat>, i: nat): nat {
    if i < nt then i else if i < nt + |ix| then ix[i - nt] else i - nt - |ix|
  }

  /**
   * The layout of `page_to_chunks`' result: the text chunks, then the table
   * chunks, then one chunk per image, with ids `{page}-txt-{k}`,
   * `{page}-tbl-{i}` and `{page}-imgocr-{i}` / `{page}-img-{i}`.
   */
  lemma PageChunkIds(pg: PageInput, size: int, overlap: int, fig: Matcher, simple: Matcher)
    requires size > overlap || Blank(pg.text)
    ensures var cs := PageChunks(pg, size, overlap, fig, simple);
      var nt, ix := |TextChunks(pg, size, overlap, fig, simple)|, TableIndices(pg.tables, pg.page, fig, simple);
      |cs| == nt + |ix| + |pg.images| &&
      forall i :: 0 <= i < |cs| ==> cs[i].id == PageText(pg.page) + IdTagAt(pg, nt, ix, i) + NatToString(IdNumberAt(nt, ix, i))
  {
    var tc := TextChunks(pg, size, overlap, fig, simple);
    var bc := TableChunks(pg.tables, pg.page, fig, simple);
    var ic := ImageChunks(pg, fig, simple);
    var cs := PageChunks(pg, size, overlap, fig, simple);
    var nt, ix := |tc|, TableIndices(pg.tables, pg.page, fig, simple);
    TableChunksShape(pg.tables, pg.page, fig, simple);
    forall i | 0 <= i < |cs|
      ensures cs[i].id == PageText(pg.page) + IdTagAt(pg, nt, ix, i) + NatToString(IdNumberAt(nt, ix, i))
    {
      if i < nt {
        assert cs[i] == tc[i];
      } else if i < nt + |ix| {
        assert cs[i] == bc[i - nt];
      } else {
        assert cs[i] == ic[i - nt - |ix|];
      }
    }
  }

  /** Distinct positions of a page's output get a distinct tag or a distinct number. */
  lemma TagNumberDistinct(pg: PageInput, nt: nat, ix: seq<nat>, i: nat, j: nat)
    requires forall k, l :: 0 <= k < l < |ix| ==> ix[k] < ix[l]
    requires i < j
    ensures IdTagAt(pg, nt, ix, i) != IdTagAt(pg, nt, ix, j) || IdNumberAt(nt, ix, i) != IdNumberAt(nt, ix, j)
  {
  }

  /** Ids with a different tag or number differ. */
  lemma IdsDiffer(p: string, t1: string, n1: nat, t2: string, n2: nat)
    requires IsIdTag(t1) && IsIdTag(t2) && (t1 != t2 || n1 != n2)
    ensures p + t1 + NatToString(n1) != p + t2 + NatToString(n2)
  {
    if p + t1 + NatToString(n1) == p + t2 + NatToString(n2) {
      IdsDistinct(p, t1, n1, t2, n2);
      assert false;
    }
  }

  /** Distinct positions of a page's output get distinct ids. */
  lemma PositionIdsDiffer(pg: PageInput, nt: nat, ix: seq<nat>, i: nat, j: nat)
    requires forall k, l :: 0 <= k < l < |ix| ==> ix[k] < ix[l]
    requires i < j
    ensures PageText(pg.page) + IdTagAt(pg, nt, ix, i) + NatToString(IdNumberAt(nt, ix, i)) !=
      PageText(pg.page) + IdTagAt(pg, nt, ix, j) + NatToString(IdNumberAt(nt, ix, j))
  {
    TagNumberDistinct(pg, nt, ix, i, j);
    IdsDiffer(PageText(pg.page), IdTagAt(pg, nt, ix, i), IdNumberAt(nt, ix, i), IdTagAt(pg, nt, ix, j), IdNumberAt(nt, ix, j));
  }

  /** Ids are unique within one page. */
  lemma PageChunkIdsUnique(pg: PageInput, size: int, overlap: int, fig: Matcher, simple: Matcher)
    requires size > overlap || Blank(pg.text)
    ensures var cs := PageChunks(pg, size, overlap, fig, simple);
      forall i, j :: 0 <= i < j < |cs| ==> cs[i].id != cs[j].id
  {
    var cs := PageChunks(pg, size, overlap, fig, simple);
    var nt, ix := |TextChunks(pg, size, overlap, fig, simple)|, TableIndices(pg.tables, pg.page, fig, simple);
    PageChunkIds(pg, size, overlap, fig, simple);
    KeptSpec(pg.tables, TableConversion(pg.page, fig, simple), |pg.tables|);
    forall i, j | 0 <= i < j < |cs| ensures cs[i].id != cs[j].id {
      PositionIdsDiffer(pg, nt, ix, i, j);
    }
  }

  /**
   * The meta written for every chunk of `page_to_chunks`: the page, the given
   * type and the source name; a figure tag only when it is non-empty.
   */
  predicate MetaOk(c: Chunk, page: Option<int>, kind: string) {
    c.meta.Some? && c.meta.value.page == PageEntry(page) && c.meta.value.kind == kind &&
    c.meta.value.source == Has(SourceName) &&
    (c.meta.value.figureTag.Absent? || (c.meta.value.figureTag.Has? && c.meta.value.figureTag.value != ""))
  }

  lemma TextChunksMeta(pg: PageInput, size: int, overlap: int, fig: Matcher, simple: Matcher)
    requires size > overlap || Blank(pg.text)
    ensures var tc := TextChunks(pg, size, overlap, fig, simple);
      forall k :: 0 <= k < |tc| ==> MetaOk(tc[k], pg.page, "text")
  {
  }

  lemma TableChunksMeta(tables: seq<Table>, page: Option<int>, fig: Matcher, simple: Matcher)
    ensures var bc := TableChunks(tables, page, fig, simple);
      forall k :: 0 <= k < |bc| ==> MetaOk(bc[k], page, "table")
  {
    TableChunksShape(tables, page, fig, simple);
  }

  lemma ImageChunksMeta(pg: PageInput, fig: Matcher, simple: Matcher)
    ensures var ic := ImageChunks(pg, fig, simple);
      forall k :: 0 <= k < |ic| ==> MetaOk(ic[k], pg.page, "image")
  {
  }

  /**
   * Every chunk's meta carries the page, its type and the source name, with
   * a figure tag only when it is non-empty; the types come in the order
   * text, table, image.
   */
  lemma PageChunkMeta(pg: PageInput, size: int, overlap: int, fig: Matcher, simple: Matcher)
    requires size > overlap || Blank(pg.text)
    ensures var cs := PageChunks(pg, size, overlap, fig, simple);
      var nt, nb := |TextChunks(pg, size, overlap, fig, simple)|, |TableIndices(pg.tables, pg.page, fig, simple)|;
      |cs| == nt + nb + |pg.images| &&
      forall i :: 0 <= i < |cs| ==>
        MetaOk(cs[i], pg.page, if i < nt then "text" else if i < nt + nb then "table" else "image")
  {
    var tc := TextChunks(pg, size, overlap, fig, simple);
    var bc := TableChunks(pg.tables, pg.page, fig, simple);
    var ic := ImageChunks(pg, fig, simple);
    FilterMapShape(pg.tables, TableConversion(pg.page, fig, simple), |pg.tables|);
    TextChunksMeta(pg, size, overlap, fig, simple);
    TableChunksMeta(pg.tables, pg.page, fig, simple);
    ImageChunksMeta(pg, fig, simple);
    MetaOfParts(tc, bc, ic, pg.page);
  }

  /** Joining the text, table and image parts keeps each part's meta, in that order. */
  lemma MetaOfParts(tc: seq<Chunk>, bc: seq<Chunk>, ic: seq<Chunk>, page: Option<int>)
    requires forall k :: 0 <= k < |tc| ==> MetaOk(tc[k], page, "text")
    requires forall k :: 0 <= k < |bc| ==> MetaOk(bc[k], page, "table")
    requires forall k :: 0 <= k < |ic| ==> MetaOk(ic[k], page, "image")
    ensures var cs := tc + bc + ic;
      forall i :: 0 <= i < |cs| ==>
        MetaOk(cs[i], page, if i < |tc| then "text" else if i < |tc| + |bc| then "table" else "image")
  {
    var cs := tc + bc + ic;
    forall i | 0 <= i < |cs|
      ensures MetaOk(cs[i], page, if i < |tc| then "text" else if i < |tc| + |bc| then "table" else "image")
    {
      if i < |tc| {
        assert cs[i] == tc[i];
      } else if i < |tc| + |bc| {
        assert cs[i] == bc[i - |tc|];
      } else {
        assert cs[i] == ic[i - |tc| - |bc|];
      }
    }
  }

  /**
   * The chunk of one image: `{page}-imgocr-{i}` carrying the OCR text when it
   * is not blank, otherwise `{page}-img-{i}` with the fixed no-OCR text; the
   * image's path is always recorded.
   */
  lemma ImageChunkShape(img: Image, page: Option<int>, pageText: string, i: nat, fig: Matcher, simple: Matcher)
    ensures var c, p := ImageChunk(img, page, pageText, i, fig, simple), PageText(page);
      KindOf(c) == "image" && c.meta.Some? && c.meta.value.path == PathEntry(img.path) &&
      (!Blank(img.ocr) ==>
        c.id == p + "-imgocr-" + NatToString(i) &&
        exists pre :: c.text == pre + "IMAGE_OCR (page " + p + "): " + img.ocr) &&
      (Blank(img.ocr) ==>
        c.id == p + "-img-" + NatToString(i) && c.text == "IMAGE (page " + p + ") - no OCR text")
  {
    StripEmptyIffBlank(img.ocr);
  }

  /** Exactly one chunk per image, in image order, at the end of the page's output. */
  lemma PageImageChunks(pg: PageInput, size: int, overlap: int, fig: Matcher, simple: Matcher)
    requires size > overlap || Blank(pg.text)
    ensures var cs := PageChunks(pg, size, overlap, fig, simple);
      |cs| >= |pg.images| &&
      forall i :: 0 <= i < |pg.images| ==>
        cs[|cs| - |pg.images| + i] == ImageChunk(pg.images[i], pg.page, pg.text, i, fig, simple)
  {
    var cs := PageChunks(pg, size, overlap, fig, simple);
    var ic := ImageChunks(pg, fig, simple);
    assert cs[|cs| - |pg.images|..] == ic;
  }

  /** The text chunks are the windows of a page whose text is not blank, and nothing otherwise. */
  lemma PageTextChunks(pg: PageInput, size: int, overlap: int, fig: Matcher, simple: Matcher)
    requires size > overlap || Blank(pg.text)
    ensures var tc := TextChunks(pg, size, overlap, fig, simple);
      (Blank(pg.text) ==> tc == []) &&
      (!Blank(pg.text) ==>
        |tc| == WindowCount(|Words(pg.text)|, size - overlap) &&
        forall k :: 0 <= k < |tc| ==>
          tc[k].id == TextChunkId(pg.page, k) && tc[k].text == Join(Window(Words(pg.text), size, size - overlap, k), " "))
  {
    StripEmptyIffBlank(pg.text);
  }
}
