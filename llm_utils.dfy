/** The text-generation helpers: one opaque call to the generative model
    wrapped by `gemini_service`, and five prompt builders that each send
    exactly one prompt built by concatenation. */
module LlmUtils {
  import opened Wrappers
  import opened Text

  /** What `model.generate_content(prompt)` does: it raises (`Raised`), or
      returns a response whose `.text`, when read, yields a string or
      raises. */
  datatype Reply =
    | Raised(error: string)
    | Response(text: Result<string>)

  /** The generative model, seen only through the reply it gives to a
      prompt. */
  type Model = string -> Reply

  const ResponseErrorPrefix := "Error processing Gemini response: "

  /** `r` is what `gemini_service` makes of the model's `reply`: an
      exception from the call itself propagates unchanged, one from reading
      the text is re-raised with `ResponseErrorPrefix`, and a readable text
      is returned with its surrounding whitespace stripped. */
  predicate Relays(reply: Reply, r: Result<string>) {
    && (r.Ok? <==> reply.Response? && reply.text.Ok?)
    && (reply.Raised? ==> r == Err(reply.error))
    && (reply.Response? && reply.text.Err? ==> r == Err(ResponseErrorPrefix + reply.text.error))
    && (r.Ok? ==> StripsTo(reply.text.value, r.value))
  }

  /** `Relays` leaves no choice: one reply is relayed as one outcome. */
  lemma RelaysDetermines(reply: Reply, r1: Result<string>, r2: Result<string>)
    requires Relays(reply, r1) && Relays(reply, r2)
    ensures r1 == r2
  {
    if r1.Ok? {
      StripsToUnique(reply.text.value, r1.value);
      StripsToUnique(reply.text.value, r2.value);
    }
  }

  /** `gemini_service(prompt)`: ask the model once and relay its reply. */
  function GeminiService(model: Model, prompt: string): (r: Result<string>)
    ensures Relays(model(prompt), r)
  {
    match model(prompt)
    case Raised(e) => Err(e)
    case Response(Err(e)) => Err(ResponseErrorPrefix + e)
    case Response(Ok(t)) => StripSlice(t); Ok(Strip(t))
  }

  // ---------------------------------------------------------------------
  // Prompt builders

  datatype Task = Summarize | Simplify | Answer | Trends | Recommend

  /** Each instruction is written as its first word, the rest of its
      sentence(s), and the line break that separates it from the text.
      The pieces concatenate to the instruction text of llm_utils.py; the
      first word is kept apart so that the instruction's first character,
      which tells the five prompts apart, can be read off directly. */
  const ParagraphBreak := "\n\n"

  const SummarizeInstruction :=
    "Summarize" + " the following research abstract concisely, highlighting the key findings, "
    + "significance, and main conclusions. Limit summary to 150 words." + ParagraphBreak
  const SimplifyInstruction :=
    "Explain" + " the following medical abstract in simple, everyday language, focusing on the main points "
    + "and avoiding complex jargon. Keep the explanation brief and clear." + ParagraphBreak
  const AnswerInstruction :=
    "Based" + " on the following abstract, provide a clear and factual answer to the question. "
    + "Keep the answer concise and to the point." + "\n"
  const TrendsInstruction :=
    "Analyze" + " the following collection of abstracts to identify emerging trends, key themes, "
    + "and significant insights in current research. Summarize your analysis concisely." + ParagraphBreak
  const RecommendInstruction :=
    "Given" + " the content of the following abstract, suggest related research articles or topics "
    + "that might be of interest. Provide a brief list of recommendations." + ParagraphBreak

  /** The fixed text each kind of prompt starts with. */
  function Instruction(task: Task): string {
    match task
    case Summarize => SummarizeInstruction
    case Simplify => SimplifyInstruction
    case Answer => AnswerInstruction
    case Trends => TrendsInstruction
    case Recommend => RecommendInstruction
  }

  function SummarizePrompt(text: string): (p: string)
    ensures TaskOf(p) == Some(Summarize)
  {
    TaskOfInstruction(Summarize, SummarizeInstruction + text);
    SummarizeInstruction + text
  }

  function SimplifyPrompt(text: string): (p: string)
    ensures TaskOf(p) == Some(Simplify)
  {
    TaskOfInstruction(Simplify, SimplifyInstruction + text);
    SimplifyInstruction + text
  }

  function AnswerPrompt(abstractText: string, question: string): (p: string)
    ensures TaskOf(p) == Some(Answer)
  {
    var p := AnswerInstruction + "Abstract: " + abstractText + "\nQuestion: " + question + "\nAnswer:";
    assert p == AnswerInstruction + ("Abstract: " + abstractText + "\nQuestion: " + question + "\nAnswer:");
    TaskOfInstruction(Answer, p);
    p
  }

  /** The abstracts joined in order with single spaces, after the
      instruction. */
  function TrendsPrompt(abstracts: seq<string>): (p: string)
    ensures TaskOf(p) == Some(Trends)
  {
    TaskOfInstruction(Trends, TrendsInstruction + Join(abstracts, " "));
    TrendsInstruction + Join(abstracts, " ")
  }

  function RecommendPrompt(abstractText: string): (p: string)
    ensures TaskOf(p) == Some(Recommend)
  {
    TaskOfInstruction(Recommend, RecommendInstruction + abstractText);
    RecommendInstruction + abstractText
  }

  function SummarizeText(model: Model, text: string): (r: Result<string>)
    ensures Relays(model(SummarizePrompt(text)), r)
  {
    GeminiService(model, SummarizePrompt(text))
  }

  function SimplifyText(model: Model, text: string): (r: Result<string>)
    ensures Relays(model(SimplifyPrompt(text)), r)
  {
    GeminiService(model, SimplifyPrompt(text))
  }

  function AnswerQuestion(model: Model, abstractText: string, question: string): (r: Result<string>)
    ensures Relays(model(AnswerPrompt(abstractText, question)), r)
  {
    GeminiService(model, AnswerPrompt(abstractText, question))
  }

  function AnalyzeTrends(model: Model, abstracts: seq<string>): (r: Result<string>)
    ensures Relays(model(TrendsPrompt(abstracts)), r)
  {
    GeminiService(model, TrendsPrompt(abstracts))
  }

  function RecommendArticles(model: Model, abstractText: string): (r: Result<string>)
    ensures Relays(model(RecommendPrompt(abstractText)), r)
  {
    GeminiService(model, RecommendPrompt(abstractText))
  }

  // ---------------------------------------------------------------------
  // Reading a prompt back

  /** The text that follows `prefix` in `p`, if `p` starts with it. */
  function AfterPrefix(prefix: string, p: string): (r: Option<string>)
    ensures r.Some? <==> prefix <= p
    ensures r.Some? ==> p == prefix + r.value
  {
    if prefix <= p then Some(p[|prefix|..]) else None
  }

  /** Which builder a prompt came from, judged by its instruction. */
  function TaskOf(p: string): (r: Option<Task>)
    ensures r.Some? ==> Instruction(r.value) <= p
    ensures r.None? ==> forall t :: !(Instruction(t) <= p)
  {
    if SummarizeInstruction <= p then Some(Summarize)
    else if SimplifyInstruction <= p then Some(Simplify)
    else if AnswerInstruction <= p then Some(Answer)
    else if TrendsInstruction <= p then Some(Trends)
    else if RecommendInstruction <= p then Some(Recommend)
    else None
  }

  /** The instructions start with five different letters, so no prompt
      starts with two of them. */
  lemma InstructionsDiffer(t: Task, u: Task, p: string)
    requires Instruction(t) <= p && Instruction(u) <= p
    ensures t == u
  {
    assert Instruction(t)[0] == p[0] == Instruction(u)[0];
  }

  /** Every instruction but the question-answering one ends with a blank
      line, so the text that follows it starts on a paragraph of its own. */
  lemma InstructionsEndInBlankLine(t: Task)
    requires t != Answer
    ensures var i := Instruction(t); |i| >= 2 && i[|i| - 2..] == "\n\n"
  {
  }

  /** A prompt is recognised by the one instruction it starts with. */
  lemma TaskOfInstruction(t: Task, p: string)
    requires Instruction(t) <= p
    ensures TaskOf(p) == Some(t)
  {
    var r := TaskOf(p);
    assert r.Some?;
    InstructionsDiffer(r.value, t, p);
  }

  /** The text a builder was given comes back unchanged after its
      instruction: the single-text prompts give the text itself, the trend
      prompt the space-joined abstracts. */
  lemma PromptsRoundTrip(text: string, abstracts: seq<string>)
    ensures AfterPrefix(SummarizeInstruction, SummarizePrompt(text)) == Some(text)
    ensures AfterPrefix(SimplifyInstruction, SimplifyPrompt(text)) == Some(text)
    ensures AfterPrefix(RecommendInstruction, RecommendPrompt(text)) == Some(text)
    ensures AfterPrefix(TrendsInstruction, TrendsPrompt(abstracts)) == Some(Join(abstracts, " "))
  {
  }

  /** Each builder consults the model on its own prompt and nothing else:
      two models that agree on that prompt give the same outcome. */
  lemma BuildersAskOnlyTheirPrompt(m1: Model, m2: Model, text: string, question: string, abstracts: seq<string>)
    ensures m1(SummarizePrompt(text)) == m2(SummarizePrompt(text)) ==>
              SummarizeText(m1, text) == SummarizeText(m2, text)
    ensures m1(SimplifyPrompt(text)) == m2(SimplifyPrompt(text)) ==>
              SimplifyText(m1, text) == SimplifyText(m2, text)
    ensures m1(AnswerPrompt(text, question)) == m2(AnswerPrompt(text, question)) ==>
              AnswerQuestion(m1, text, question) == AnswerQuestion(m2, text, question)
    ensures m1(TrendsPrompt(abstracts)) == m2(TrendsPrompt(abstracts)) ==>
              AnalyzeTrends(m1, abstracts) == AnalyzeTrends(m2, abstracts)
    ensures m1(RecommendPrompt(text)) == m2(RecommendPrompt(text)) ==>
              RecommendArticles(m1, text) == RecommendArticles(m2, text)
  {
  }

  /** Where the abstract and the question sit in the question-answering
      prompt: after the instruction and "Abstract: ", then "\nQuestion: ",
      then the question, and "\nAnswer:" closes the prompt. */
  lemma AnswerPromptLayout(abstractText: string, question: string)
    ensures var p, h := AnswerPrompt(abstractText, question), AnswerInstruction + "Abstract: ";
      var a, q := |abstractText|, |question|;
      && |p| == |h| + a + 11 + q + 8
      && p[..|h|] == h
      && p[|h|..|h| + a] == abstractText
      && p[|h| + a..|h| + a + 11] == "\nQuestion: "
      && p[|h| + a + 11..|h| + a + 11 + q] == question
      && p[|p| - 8..] == "\nAnswer:"
  {
    var h := AnswerInstruction + "Abstract: ";
    var p := AnswerPrompt(abstractText, question);
    assert p == h + abstractText + "\nQuestion: " + question + "\nAnswer:";
  }

  /** The question-answering prompt cannot always be read back: an abstract
      that itself contains "\nQuestion: " gives the same prompt as a
      different abstract and question. */
  lemma AnswerPromptAmbiguous(a: string, q: string)
    ensures (a + "\nQuestion: " + q, "") != (a, q + "\nQuestion: ")
    ensures AnswerPrompt(a + "\nQuestion: " + q, "") == AnswerPrompt(a, q + "\nQuestion: ")
  {
    var h := AnswerInstruction + "Abstract: ";
    var m := "\nQuestion: ";
    var e := "\nAnswer:";
    assert h + (a + m + q) + m + "" + e == h + a + m + (q + m) + e;
  }

  /** The trend prompt: the instruction alone for no abstracts, the
      instruction and the abstract for one, and in general the instruction,
      every abstract, and one space between consecutive abstracts. */
  lemma TrendsPromptShape(abstracts: seq<string>)
    ensures abstracts == [] ==> TrendsPrompt(abstracts) == TrendsInstruction
    ensures |abstracts| == 1 ==> TrendsPrompt(abstracts) == TrendsInstruction + abstracts[0]
    ensures abstracts != [] ==>
              |TrendsPrompt(abstracts)| == |TrendsInstruction| + TotalLength(abstracts) + |abstracts| - 1
  {
    if abstracts != [] {
      JoinLength(abstracts, " ");
    }
  }
}
