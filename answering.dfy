/** The answer pipeline: retrieve, format the context, build the two chat
    messages and return the answer record. Similarity search and the chat
    model are parameters. */
module Answering {
  import opened Documents
  import opened Config
  import opened Prompts
  import opened ContextFormat

  datatype Role = System | User

  datatype Message = Message(role: Role, text: string)

  /** The result record of one question. */
  datatype Answer = Answer(
    question: string,
    answer: string,
    sources: seq<SourceRef>,
    retrievedChunks: nat,
    llmModel: string,
    embedModel: string)

  /** The two messages of a question: the system instruction, which tells
      the model the fallback sentence, then the user prompt, which carries
      the formatted context and, after it, the question. */
  function Conversation(question: string, retrieved: seq<Doc>): (m: seq<Message>)
    ensures |m| == 2 && m[0].role == System && m[1].role == User
    ensures Strings.Contains(m[0].text, FallbackAnswer)
    ensures var context := FormatSpec(retrieved, DefaultMaxChars).context;
      && |m[1].text| == |ContextHeader| + |context| + |QuestionHeader| + |question| + |Trailer|
      && m[1].text[..|ContextHeader|] == ContextHeader
      && Strings.OccursAt(m[1].text, context, |ContextHeader|)
      && Strings.OccursAt(m[1].text, QuestionHeader, |ContextHeader| + |context|)
      && Strings.OccursAt(m[1].text, question, |ContextHeader| + |context| + |QuestionHeader|)
      && Strings.EndsWith(m[1].text, Trailer)
  {
    SystemPromptHasFallback();
    [Message(System, SystemPrompt),
     Message(User, BuildRagUserPrompt(question, FormatSpec(retrieved, DefaultMaxChars).context))]
  }

  /** Answers a question: the `topK` most similar chunks are retrieved,
      formatted under the default budget and sent to the chat model with
      the system instruction. */
  method Ask(
    question: string,
    settings: Settings,
    search: (string, int) -> seq<Doc>,
    chat: seq<Message> -> string)
    returns (result: Answer)
    ensures var docs := search(question, settings.topK);
      var f := FormatSpec(docs, DefaultMaxChars);
      && result.question == question
      && result.answer == chat(Conversation(question, docs))
      && result.sources == f.sources
      && result.retrievedChunks == |docs|
      && result.llmModel == settings.llmModel && result.embedModel == settings.embedModel
    ensures result.retrievedChunks >= |result.sources|
  {
    var docs := search(question, settings.topK);
    var context, sources := FormatContext(docs, DefaultMaxChars);

    var userPrompt := BuildRagUserPrompt(question, context);
    var messages := [Message(System, SystemPrompt), Message(User, userPrompt)];
    var answerText := chat(messages);

    SourcesAlignWithParts(docs, DefaultMaxChars);
    result := Answer(question, answerText, sources, |docs|, settings.llmModel, settings.embedModel);
  }

  /** The citation count never exceeds the retrieval count. */
  lemma SourcesWithinRetrieved(docs: seq<Doc>, maxChars: int)
    ensures |FormatSpec(docs, maxChars).sources| <= |docs|
  {
    SourcesAlignWithParts(docs, maxChars);
  }

  /** With nothing retrieved the model is still asked: the context is empty,
      the user prompt is the template around the question alone, and the
      system message carries the fallback sentence. */
  lemma EmptyRetrievalStillAsks(question: string)
    ensures var m := Conversation(question, []);
      m[1].text == ContextHeader + QuestionHeader + question + Trailer
      && Strings.Contains(m[0].text, FallbackAnswer)
  {
    NoChunks(DefaultMaxChars);
    SystemPromptHasFallback();
  }
}
