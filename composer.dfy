/**
 * The answer side of `RAGEngine.query`: the labelled context block handed to
 * the generator, the prompt around it, the deterministic `_fallback_response`
 * used when no generator is configured, and the choice between them.
 */
module Composer {
  import opened Wrappers
  import opened Text
  import opened Chunker

  const NoInformationMessage: string :=
    "I don't have specific information about that in my knowledge base. Please check with your team lead or the team wiki."
  const FallbackHeader: string := "Based on our team documentation, here's what I found:\n\n"
  const FallbackNote: string :=
    "\n*Note: Running in fallback mode. Configure your IBM API key for full AI-powered responses.*"
  const SnippetLimit: nat := 300
  const Ellipsis: string := "..."
  const ContextSeparator: string := "\n\n"
  const ErrorPrefix: string := "Error generating response: "

  // ------------------------------------------------------------------ context

  /** `f"[From {chunk['source']}]:\n{chunk['content']}"`. */
  const LabelOpen: string := "[From "
  const LabelClose: string := "]:\n"

  function Label(c: Chunk): string {
    LabelOpen + c.source + LabelClose + c.content
  }

  function Labels(cs: seq<Chunk>): (ls: seq<string>)
    ensures |ls| == |cs|
  {
    seq(|cs|, k requires 0 <= k < |cs| => Label(cs[k]))
  }

  /** The context of the prompt: the labelled chunks joined by a blank line. */
  function FormatContext(cs: seq<Chunk>): string {
    Join(ContextSeparator, Labels(cs))
  }

  /**
   * The blocks appear in retrieval order: the context is the blocks before
   * chunk `k`, a blank line, chunk `k`'s block, a blank line, the blocks after.
   */
  lemma FormatContextOrder(cs: seq<Chunk>, k: nat)
    requires k < |cs|
    ensures FormatContext(cs) ==
      (if k == 0 then "" else FormatContext(cs[..k]) + ContextSeparator) +
      Label(cs[k]) +
      (if k + 1 < |cs| then ContextSeparator + FormatContext(cs[k + 1..]) else "")
  {
    var ls := Labels(cs);
    assert Labels(cs[..k]) == ls[..k];
    assert Labels(cs[k + 1..]) == ls[k + 1..];
    var after := [ls[k]] + ls[k + 1..];
    assert ls == ls[..k] + after;
    var tail := if k + 1 < |cs| then ContextSeparator + FormatContext(cs[k + 1..]) else "";
    if k + 1 < |cs| {
      JoinAppend(ContextSeparator, [ls[k]], ls[k + 1..]);
      ConcatAssoc(ls[k], ContextSeparator, FormatContext(cs[k + 1..]));
    } else {
      assert after == [ls[k]];
    }
    assert Join(ContextSeparator, after) == ls[k] + tail;
    if k > 0 {
      JoinAppend(ContextSeparator, ls[..k], after);
      ConcatAssoc(FormatContext(cs[..k]) + ContextSeparator, ls[k], tail);
    }
  }

  /** The context is empty exactly when nothing was retrieved. */
  lemma FormatContextEmpty(cs: seq<Chunk>)
    ensures FormatContext(cs) == "" <==> cs == []
  {
    if cs != [] {
      FormatContextOrder(cs, 0);
      assert |Label(cs[0])| > 0;
    }
  }

  const PromptIntro: string := "You are TeamMind AI, a helpful assistant for team knowledge and onboarding.\n"
  const PromptInstructions: string :=
    "\n\nUse the following context from team documentation to answer the question. " +
    "If the answer is not in the context, say so but try to be helpful.\n\nCONTEXT:\n"
  const QuestionLabel: string := "\n\nUSER QUESTION: "
  const AnswerCue: string := "\n\nHELPFUL ANSWER:"

  /** The prompt of `query` around the mode text, the context and the question. */
  function Prompt(contextPrefix: string, context: string, userQuery: string): string {
    PromptIntro + contextPrefix + PromptInstructions + context + QuestionLabel + userQuery + AnswerCue
  }

  /**
   * The prompt starts with the introduction, the mode text and the
   * instructions, ends with the question and the answer cue, and carries the
   * context verbatim between them.
   */
  lemma PromptPlacesParts(contextPrefix: string, context: string, userQuery: string)
    ensures var r := Prompt(contextPrefix, context, userQuery);
      var head := PromptIntro + contextPrefix + PromptInstructions;
      var tail := QuestionLabel + userQuery + AnswerCue;
      StartsWith(r, head) && EndsWith(r, tail) && |r| == |head| + |context| + |tail| &&
      r[|head|..|head| + |context|] == context
  {
    var head := PromptIntro + contextPrefix + PromptInstructions;
    var x := head + context;
    ConcatAssoc(x, QuestionLabel, userQuery);
    ConcatAssoc(x, QuestionLabel + userQuery, AnswerCue);
    ConcatParts(head, context, QuestionLabel + userQuery + AnswerCue);
  }

  // ------------------------------------------------------------------ fallback answer

  /** `content[:300]`, with "..." added when the content was cut. */
  function Snippet(content: string): (r: string)
    ensures |content| <= SnippetLimit ==> r == content
    ensures |content| > SnippetLimit ==>
      |r| == SnippetLimit + |Ellipsis| && r[..SnippetLimit] == content[..SnippetLimit] && r[SnippetLimit..] == Ellipsis
  {
    var cut := content[..if |content| < SnippetLimit then |content| else SnippetLimit];
    if |content| > SnippetLimit then cut + Ellipsis else cut
  }

  const BlockOpen: string := "\U{1F4C4} **From "
  const BlockClose: string := "**:\n"
  const BlockEnd: string := "\n\n"

  /** `f"📄 **From {chunk['source']}**:\n{snippet}\n\n"`. */
  function Block(c: Chunk): string {
    BlockOpen + c.source + BlockClose + Snippet(c.content) + BlockEnd
  }

  function Blocks(cs: seq<Chunk>): string {
    if cs == [] then "" else Blocks(cs[..|cs| - 1]) + Block(cs[|cs| - 1])
  }

  /** What `_fallback_response` returns for the retrieved chunks. */
  function FallbackText(cs: seq<Chunk>): string {
    if cs == [] then NoInformationMessage else FallbackHeader + Blocks(cs) + FallbackNote
  }

  /** `_fallback_response`: builds the answer with `+=` over the retrieved chunks. */
  method ComposeFallback(query: string, chunks: seq<Chunk>) returns (response: string)
    ensures response == FallbackText(chunks)
  {
    if chunks == [] {
      return NoInformationMessage;
    }
    response := FallbackHeader;
    for i := 0 to |chunks|
      invariant response == FallbackHeader + Blocks(chunks[..i])
    {
      var content := chunks[i].content;
      var snippet := content[..if |content| < SnippetLimit then |content| else SnippetLimit];
      if |content| > SnippetLimit {
        snippet := snippet + Ellipsis;
      }
      assert snippet == Snippet(content);
      var block := BlockOpen + chunks[i].source + BlockClose + snippet + BlockEnd;
      assert block == Block(chunks[i]);
      assert chunks[..i + 1][..i] == chunks[..i];
      assert Blocks(chunks[..i + 1]) == Blocks(chunks[..i]) + block;
      ConcatAssoc(FallbackHeader, Blocks(chunks[..i]), block);
      response := response + block;
    }
    assert chunks[..|chunks|] == chunks;
    response := response + FallbackNote;
  }

  lemma {:induction false} BlocksAppend(a: seq<Chunk>, b: seq<Chunk>)
    ensures Blocks(a + b) == Blocks(a) + Blocks(b)
    decreases |b|
  {
    if b == [] {
      assert a + b == a;
    } else {
      var b0, last := b[..|b| - 1], b[|b| - 1];
      assert (a + b)[..|a + b| - 1] == a + b0;
      assert (a + b)[|a + b| - 1] == last;
      calc {
        Blocks(a + b);
        Blocks(a + b0) + Block(last);
        { BlocksAppend(a, b0); }
        Blocks(a) + Blocks(b0) + Block(last);
        { ConcatAssoc(Blocks(a), Blocks(b0), Block(last)); }
        Blocks(a) + (Blocks(b0) + Block(last));
        Blocks(a) + Blocks(b);
      }
    }
  }

  lemma BlocksSingle(c: Chunk)
    ensures Blocks([c]) == Block(c)
  {
    assert [c][..0] == [];
  }

  /**
   * Shape of the fallback answer: nothing retrieved gives the fixed message;
   * otherwise the header, one block per chunk in retrieval order (chunk `k`'s
   * block after those of the chunks before it), and the fallback-mode note.
   */
  lemma FallbackTextShape(cs: seq<Chunk>, k: nat)
    requires k < |cs|
    ensures FallbackText([]) == NoInformationMessage
    ensures FallbackText(cs) == FallbackHeader + (Blocks(cs[..k]) + (Block(cs[k]) + Blocks(cs[k + 1..]))) + FallbackNote
  {
    var before, after := cs[..k], cs[k + 1..];
    assert cs == before + ([cs[k]] + after);
    calc {
      Blocks(cs);
      Blocks(before + ([cs[k]] + after));
      { BlocksAppend(before, [cs[k]] + after); }
      Blocks(before) + Blocks([cs[k]] + after);
      { BlocksAppend([cs[k]], after); BlocksSingle(cs[k]); }
      Blocks(before) + (Block(cs[k]) + Blocks(after));
    }
  }

  // ------------------------------------------------------------------ the answer

  /** What the generation backend does with a prompt: a text, or an exception with its message. */
  datatype Reply = Generated(text: string) | Raised(message: string)

  /**
   * The tail of `query` once the prompt is built: ask the generator if there
   * is one, else compose the fallback from the retrieved chunks.
   */
  function Answer(prompt: string, relevant: seq<Chunk>, model: Option<string -> Reply>): string {
    match model
    case None => FallbackText(relevant)
    case Some(generate) =>
      match generate(prompt)
      case Generated(text) => Strip(text)
      case Raised(message) => ErrorPrefix + message
  }

  /**
   * `query` always answers: without a generator it is the fallback text (the
   * fixed message when nothing was retrieved); a generator's text is returned
   * stripped; a generator's exception becomes an error message.
   */
  lemma AnswerCases(prompt: string, relevant: seq<Chunk>, model: Option<string -> Reply>)
    ensures model.None? && relevant == [] ==> Answer(prompt, relevant, model) == NoInformationMessage
    ensures model.None? && relevant != [] ==>
      StartsWith(Answer(prompt, relevant, model), FallbackHeader) &&
      EndsWith(Answer(prompt, relevant, model), FallbackNote)
    ensures model.Some? && model.value(prompt).Generated? ==>
      Answer(prompt, relevant, model) == Strip(model.value(prompt).text)
    ensures model.Some? && model.value(prompt).Raised? ==>
      Answer(prompt, relevant, model) == ErrorPrefix + model.value(prompt).message
  {
    if model.None? && relevant != [] {
      var blocks := Blocks(relevant);
      ConcatAssoc(FallbackHeader, blocks, FallbackNote);
      StartsWithConcat(FallbackHeader, blocks + FallbackNote);
      EndsWithConcat(FallbackHeader + blocks, FallbackNote);
    }
  }
}
