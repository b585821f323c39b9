/** The fixed instruction texts sent to the chat model. */
module Prompts {
  import opened Strings

  /** The sentence the model is told to give when the context lacks the answer. */
  const FallbackAnswer := "I don't know based on the provided documents."

  /** The system message of every question. */
  const SystemPrompt :=
    "You are a helpful assistant.\n"
    + "You must answer using ONLY the provided context.\n"
    + "If the context does not contain the answer, say: \"" + FallbackAnswer + "\"\n"
    + "Be concise and accurate.\n"

  /** The literal text of the user-prompt template around its two holes. */
  const ContextHeader := "Use the context below to answer the question.\n\nContext:\n"
  const QuestionHeader := "\n\nQuestion:\n"
  const Trailer := "\n"

  /** Characters the template adds to the context and the question. */
  const PromptOverhead := 69

  /** The user message: the fixed instruction, the context, then the
      question, each after its header. It accepts every input, the empty
      strings included. */
  function BuildRagUserPrompt(question: string, context: string): (r: string)
    ensures |r| == |context| + |question| + PromptOverhead
    ensures r[..|ContextHeader|] == ContextHeader
    ensures OccursAt(r, context, |ContextHeader|)
    ensures OccursAt(r, QuestionHeader, |ContextHeader| + |context|)
    ensures OccursAt(r, question, |ContextHeader| + |context| + |QuestionHeader|)
    ensures EndsWith(r, Trailer)
  {
    ContextHeader + context + QuestionHeader + question + Trailer
  }

  /** Reads the context back out of a prompt, given its length. */
  function ContextOf(prompt: string, contextLen: nat): string
    requires |ContextHeader| + contextLen <= |prompt|
  {
    prompt[|ContextHeader|..|ContextHeader| + contextLen]
  }

  /** Reads the question back out of a prompt, given the context's length. */
  function QuestionOf(prompt: string, contextLen: nat): string
    requires |ContextHeader| + contextLen + |QuestionHeader| + |Trailer| <= |prompt|
  {
    prompt[|ContextHeader| + contextLen + |QuestionHeader|..|prompt| - |Trailer|]
  }

  /** Once the context's length is known, the prompt gives back both inputs. */
  lemma PromptRoundTrip(question: string, context: string)
    ensures var p := BuildRagUserPrompt(question, context);
      |ContextHeader| + |context| + |QuestionHeader| + |Trailer| <= |p|
      && ContextOf(p, |context|) == context
      && QuestionOf(p, |context|) == question
  {
    var p := BuildRagUserPrompt(question, context);
    assert p == ContextHeader + context + QuestionHeader + question + Trailer;
  }

  /** Without the context's length the prompt is ambiguous: a context that
      itself holds the question header yields the same text as a shorter
      context with a longer question. */
  lemma PromptAmbiguous(question: string, before: string, after: string)
    ensures BuildRagUserPrompt(question, before + QuestionHeader + after)
         == BuildRagUserPrompt(after + QuestionHeader + question, before)
  {
    assert |before + QuestionHeader + after| > |before|;
  }

  /** The system message carries the exact fallback sentence. */
  lemma SystemPromptHasFallback()
    ensures Contains(SystemPrompt, FallbackAnswer)
  {
    var k := |"You are a helpful assistant.\n"|
           + |"You must answer using ONLY the provided context.\n"|
           + |"If the context does not contain the answer, say: \""|;
    assert OccursAt(SystemPrompt, FallbackAnswer, k);
  }
}
