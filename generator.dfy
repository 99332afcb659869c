/**
 * The answer generator's pure part: the context built from the retrieved
 * chunks, the prompt filled from the template, and the choice of the field of
 * the model's JSON reply that becomes the answer. The HTTP call itself is
 * not modelled.
 */
module Generator {
  import opened Wrappers
  import opened Strings
  import opened Chunks

  /** Chunk texts longer than this are cut. */
  const ClipLimit: nat := 1200
  /** What replaces the cut-off rest of a long text. */
  const Ellipsis: string := " ... "

  /** `txt[:1200] + " ... "` when `len(txt) > 1200`, else `txt`. */
  function Clip(txt: string): string {
    if |txt| > ClipLimit then txt[..ClipLimit] + Ellipsis else txt
  }

  /** A clipped text is at most 1205 characters, keeps the first 1200, and is unchanged when short. */
  lemma ClipBounds(txt: string)
    ensures |Clip(txt)| <= ClipLimit + |Ellipsis|
    ensures |txt| <= ClipLimit ==> Clip(txt) == txt
    ensures |txt| > ClipLimit ==> |Clip(txt)| == ClipLimit + |Ellipsis| && Clip(txt)[..ClipLimit] == txt[..ClipLimit]
  {
  }

  /** Clipping twice is clipping once. */
  lemma ClipIdempotent(txt: string)
    ensures Clip(Clip(txt)) == Clip(txt)
  {
    if |txt| > ClipLimit {
      var c := Clip(txt);
      assert c[..ClipLimit] == txt[..ClipLimit];
    }
  }

  /** `c.get("meta", {}).get("page", "?")` as `str.format` prints it. */
  function PageLabel(c: Chunk): string {
    match c.meta
    case None => "?"
    case Some(m) =>
      match m.page
      case Absent => "?"
      case Null => "None"
      case Has(p) => IntToString(p)
  }

  /** `f"[page {page}] {txt}"`. */
  function Part(c: Chunk): string {
    "[page " + PageLabel(c) + "] " + Clip(c.text)
  }

  /** The parts of `chunks`, in order. */
  function Parts(chunks: seq<Chunk>): (ps: seq<string>)
    ensures |ps| == |chunks| && forall i :: 0 <= i < |chunks| ==> ps[i] == Part(chunks[i])
  {
    seq(|chunks|, i requires 0 <= i < |chunks| => Part(chunks[i]))
  }

  /** The separator between context parts. */
  const PartSeparator: string := "\n\n"

  /** `"\n\n".join(ctx_parts)`. */
  function Context(chunks: seq<Chunk>): string {
    Join(Parts(chunks), PartSeparator)
  }

  /** The loop of `generate_answer` that builds `ctx_parts`, then the join. */
  method BuildContext(chunks: seq<Chunk>) returns (context: string)
    ensures context == Context(chunks)
  {
    var ctxParts: seq<string> := [];
    for i := 0 to |chunks|
      invariant ctxParts == Parts(chunks[..i])
    {
      var c := chunks[i];
      var txt := c.text;
      if |txt| > ClipLimit {
        txt := txt[..ClipLimit] + Ellipsis;
      }
      var page := PageLabel(c);
      ctxParts := ctxParts + ["[page " + page + "] " + txt];
    }
    assert chunks[..|chunks|] == chunks;
    context := Join(ctxParts, PartSeparator);
  }

  /** Each part starts with its page label in brackets. */
  lemma PartShape(c: Chunk)
    ensures |Part(c)| > 0 && Part(c)[..6] == "[page "
    ensures Part(c)[6..6 + |PageLabel(c)|] == PageLabel(c)
  {
  }

  /** No chunks give an empty context; any chunk gives a non-empty one. */
  lemma ContextEmptyIff(chunks: seq<Chunk>)
    ensures Context(chunks) == "" <==> chunks == []
  {
    if chunks != [] {
      JoinStartsWith(Parts(chunks), PartSeparator);
      PartShape(chunks[0]);
    }
  }

  /** A join of parts starts with the first part. */
  lemma JoinStartsWith(parts: seq<string>, sep: string)
    requires parts != []
    ensures |Join(parts, sep)| >= |parts[0]| && Join(parts, sep)[..|parts[0]|] == parts[0]
  {
  }

  /** One more chunk appends the separator and its part: parts keep the input order. */
  lemma ContextSnoc(chunks: seq<Chunk>, c: Chunk)
    requires chunks != []
    ensures Context(chunks + [c]) == Context(chunks) + PartSeparator + Part(c)
  {
    assert Parts(chunks + [c]) == Parts(chunks) + [Part(c)];
    JoinSnoc(Parts(chunks), Part(c), PartSeparator);
  }

  /** `PROMPT_TEMPLATE` up to `{context}`. */
  const PromptHead: string := "\nYou are a strict document-reading assistant. Use ONLY the provided context to answer.\n\nRules:\n- NEVER use outside knowledge.\n- Provide a detailed, well-structured explanation.\n- Include all relevant details from the context.\n- Cite page numbers in parentheses, e.g. (page 4).\n- If the answer is not in the context, reply exactly: \"I don't know\".\n\nContext:\n"
  /** `PROMPT_TEMPLATE` between `{context}` and `{question}`. */
  const PromptMiddle: string := "\n\nQuestion:\n"
  /** `PROMPT_TEMPLATE` after `{question}`. */
  const PromptTail: string := "\n\nAnswer (with citations and full detail):\n"

  /** `PROMPT_TEMPLATE.format(context=context, question=question)`; substituted text is not formatted again. */
  function Prompt(context: string, question: string): string {
    PromptHead + context + PromptMiddle + question + PromptTail
  }

  /** The context and the question can be read back from the prompt at fixed offsets. */
  lemma PromptFields(context: string, question: string)
    ensures var p, h := Prompt(context, question), |PromptHead|;
      |p| == h + |context| + |PromptMiddle| + |question| + |PromptTail| &&
      p[..h] == PromptHead &&
      p[h..h + |context|] == context &&
      p[h + |context| + |PromptMiddle|..|p| - |PromptTail|] == question &&
      p[|p| - |PromptTail|..] == PromptTail
  {
  }

  /** The prompt determines its context and question. */
  lemma PromptInjective(c1: string, q1: string, c2: string, q2: string)
    requires |c1| == |c2| && Prompt(c1, q1) == Prompt(c2, q2)
    ensures c1 == c2 && q1 == q2
  {
    PromptFields(c1, q1);
    PromptFields(c2, q2);
  }

  /** The JSON reply of the model server. */
  datatype Json = JNull | JBool(b: bool) | JNumber(n: int) | JString(s: string)
                | JArray(items: seq<Json>) | JObject(fields: map<string, Json>)

  /** What `call_ollama` returns: the value of a field of the reply, or `str(data)` of the whole reply. */
  datatype Answer = FieldValue(value: Json) | Printed(data: Json)

  /** The choice of `call_ollama`: `"response"`, else `"text"`, else the printed reply. */
  function SelectResponse(data: Json): Answer {
    if data.JObject? then
      if "response" in data.fields then FieldValue(data.fields["response"])
      else if "text" in data.fields then FieldValue(data.fields["text"])
      else Printed(data)
    else Printed(data)
  }

  /** The answer is a field value exactly when the reply is an object with `"response"` or `"text"`; `"response"` wins. */
  lemma SelectResponseCases(data: Json)
    ensures SelectResponse(data).FieldValue? <==>
      data.JObject? && ("response" in data.fields || "text" in data.fields)
    ensures data.JObject? && "response" in data.fields ==> SelectResponse(data) == FieldValue(data.fields["response"])
    ensures data.JObject? && "response" !in data.fields && "text" in data.fields ==>
      SelectResponse(data) == FieldValue(data.fields["text"])
    ensures SelectResponse(data).Printed? ==> SelectResponse(data).data == data
  {
  }
}
