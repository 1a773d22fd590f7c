/**
 * The summary request of `get_summary` in script.py: the same conversation
 * as SummaryPromptBuilder builds, written out inline as dicts and closed by
 * the full article-style instruction, then the check on the model's reply.
 * The model client is a parameter.
 */
module ScriptSummary {
  import opened Wrappers
  import opened Conversation

  const ModelName: string := "claude-3-5-sonnet-20241022"
  const MaxTokens: nat := 8192
  const Temperature: real := 0.5

  /** The closing instruction; the f-string starts with a line break. */
  const ArticleInstructions: string :=
    "\n" + @"You must write a summary in article style following this structure.
Each section must contain as much points as there is in text do not limit yourself with 2-3 points
EXPLAIN EACH POINT IN DETAILS AND DO NOT IGNORE THIS INSTRUCTION NO MATTER WHAT
It is not just a summary it is an article - it means reader must understand everything without needing ot read the full text.

1. Overview
   - Briefly state the primary purpose or theme of the content.
   - EXPLAIN EACH POINT IN DETAILS AND DO NOT IGNORE THIS INSTRUCTION NO MATTER WHAT

2. Key Points
   - Each main idea or essential detail must be included.
   - Provide relevant context for clarity.
   - Add subpoints with examples or important information where needed.
   - EXPLAIN EACH POINT IN DETAILS AND DO NOT IGNORE THIS INSTRUCTION NO MATTER WHAT

3. PRACTICAL METHODS/TECHNIQUES EXTRACTED FROM TEXT  
   - Extract all actionable methods, strategies, or techniques from the text, ensuring each is outlined clearly and with necessary context, details and specifix examples.
   - For each technique, specify steps, best practices, frameworks, or conditions for effective application.
   - EXPLAIN EACH POINT IN DETAILS AND DO NOT IGNORE THIS INSTRUCTION NO MATTER WHAT

4. NOTABLE CASE STUDIES WITH ASSOCIATED DATA POINTS
   - Identify and list all examples, case studies, or real-world applications highlighted in the text with necessary context, details and specifix examples.
   - Include any significant data points, metrics, or outcomes for each example to provide a thorough understanding of its relevance.
   - EXPLAIN EACH POINT IN DETAILS AND DO NOT IGNORE THIS INSTRUCTION NO MATTER WHAT

5. CONTRADICTIONS/TENSIONS IN IDEAS OR FINDINGS
   - Summarize any contradictions, opposing views, or tensions present in the content with necessary context, noting implications or unresolved issues.
   - EXPLAIN EACH POINT IN DETAILS AND DO NOT IGNORE THIS INSTRUCTION NO MATTER WHAT

6. Supporting Details
   - Add any critical supporting information, examples, or illustrations that reinforce main points with necessary context.
   - EXPLAIN EACH POINT IN DETAILS AND DO NOT IGNORE THIS INSTRUCTION NO MATTER WHAT

7. Conclusion/Insight
   - Summarize final takeaways, emphasizing the text’s overarching message or relevance.

List any major points from the original text not included and explain why.

Summarize text"

  /** The arguments of `client.messages.create`. */
  datatype Request = Request(
    model: string, maxTokens: nat, temperature: real, system: string,
    messages: seq<map<string, string>>)

  /** A reply content block: a text block, or a block of another kind that
      has no `text` attribute. */
  datatype ContentBlock = TextBlock(text: string) | OtherBlock(kind: string)

  /** The reply; `content` is None when the reply has no `content` attribute. */
  datatype Response = Response(content: Option<seq<ContentBlock>>)

  datatype SummaryError =
    | EmptyResponse           // "Empty response from Claude API"
    | NoTextAttribute         // the first block has no `text`
    | ClientError(reason: string)  // the client call itself raised

  /** Lines 46-115: the message list, built step by step. */
  method BuildSummaryMessages(contents: seq<string>, title: string) returns (messages: seq<map<string, string>>)
    ensures messages == ToDicts(SummaryConversation(title, contents, ArticleInstructions))
  {
    messages := [];
    messages := messages + [map["role" := "user", "content" := OpeningRequest(title)]];
    messages := messages + [map["role" := "assistant", "content" := OpeningAck]];
    assert messages == ToDicts(Opening(title) + PartTurns(contents[..0]));
    // `enumerate(contents, 1)`: the element at index i is part i + 1
    for i := 0 to |contents|
      invariant messages == ToDicts(Opening(title) + PartTurns(contents[..i]))
    {
      var pair := [ClaudeMessage(UserRole, PartPrompt(i + 1, contents[i])),
                   ClaudeMessage(AssistantRole, PartAck(i + 1))];
      assert contents[..i + 1][..i] == contents[..i];
      assert PartTurns(contents[..i + 1]) == PartTurns(contents[..i]) + pair;
      ToDictsAppend(Opening(title) + PartTurns(contents[..i]), pair);
      messages := messages + [
        map["role" := "user", "content" := PartPrompt(i + 1, contents[i])],
        map["role" := "assistant", "content" := PartAck(i + 1)]
      ];
    }
    assert contents[..|contents|] == contents;
    var closing := [ClaudeMessage(UserRole, ArticleInstructions)];
    ToDictsAppend(Opening(title) + PartTurns(contents), closing);
    messages := messages + [map["role" := "user", "content" := ArticleInstructions]];
  }

  /** Lines 125-127: a reply without content blocks is an error; otherwise the
      summary is the first block's text. */
  function ResponseText(response: Response): (r: Result<string, SummaryError>)
    ensures r == Failure(EmptyResponse) <==> response.content.None? || response.content.value == []
    ensures r.Success? <==> response.content.Some? && response.content.value != [] && response.content.value[0].TextBlock?
    ensures r.Success? ==> r.value == response.content.value[0].text
  {
    match response.content
    case None => Failure(EmptyResponse)
    case Some(blocks) =>
      if |blocks| > 0 then
        match blocks[0]
        case TextBlock(text) => Success(text)
        case OtherBlock(_) => Failure(NoTextAttribute)
      else Failure(EmptyResponse)
  }

  /** `get_summary(client, contents, title)`: the request it sends and what
      it makes of the reply. */
  method GetSummary(client: Request -> Result<Response, string>, contents: seq<string>, title: string)
    returns (summary: Result<string, SummaryError>)
    ensures var request := Request(ModelName, MaxTokens, Temperature, SystemPrompt,
                                   ToDicts(SummaryConversation(title, contents, ArticleInstructions)));
      match client(request)
      case Failure(reason) => summary == Failure(ClientError(reason))
      case Success(response) => summary == ResponseText(response)
  {
    var messages := BuildSummaryMessages(contents, title);
    var request := Request(ModelName, MaxTokens, Temperature, SystemPrompt, messages);
    match client(request)
    case Failure(reason) =>
      summary := Failure(ClientError(reason));
    case Success(response) =>
      summary := ResponseText(response);
  }

  /** The closing instruction does not read as a part, so the parts of the
      script's conversation are exactly its contents, in order. */
  lemma {:induction false} ScriptPartsRecovered(title: string, contents: seq<string>)
    ensures PromptedParts(SummaryConversation(title, contents, ArticleInstructions)) == contents
  {
    NotPartPrompt(ArticleInstructions);
    PartsRecovered(title, contents, ArticleInstructions);
  }
}
