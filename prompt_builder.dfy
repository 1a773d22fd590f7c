/**
 * `SummaryPromptBuilder` of src/domain/prompt_builder.py: a builder holding
 * the system prompt and the closing instruction, and building the message
 * list for a title and its content parts.
 */
module PromptBuilder {
  import opened Wrappers
  import opened Conversation

  /** The closing instruction this builder ends every conversation with
      (written as two literals so that the verifier sees its first character). */
  const SummaryStructure: string :=
    "You must write" + " a summary in article style following this structure..."

  class SummaryPromptBuilder {
    // Set once by the constructor and never reassigned.
    const systemMessage: string
    const summaryStructure: string

    ghost predicate Valid() {
      systemMessage == SystemPrompt && summaryStructure == SummaryStructure
    }

    /** `__init__` */
    constructor ()
      ensures Valid()
    {
      systemMessage := SystemPrompt;
      summaryStructure := SummaryStructure;
    }

    /** `get_system_message`: always the system prompt set by the constructor. */
    function GetSystemMessage(): (r: string)
      requires Valid()
      ensures r == SystemPrompt
    {
      systemMessage
    }

    /** `create_messages(title, contents)`: the opening pair, a pair per
        part in input order, the closing instruction, as dicts. */
    method CreateMessages(title: string, contents: seq<string>) returns (dicts: seq<map<string, string>>)
      requires Valid()
      ensures dicts == ToDicts(SummaryConversation(title, contents, SummaryStructure))
    {
      var messages: seq<ClaudeMessage> := [];
      messages := messages + [ClaudeMessage(UserRole, OpeningRequest(title))];
      messages := messages + [ClaudeMessage(AssistantRole, OpeningAck)];
      assert messages == Opening(title) + PartTurns(contents[..0]);
      // `enumerate(contents, 1)`: the element at index i is part i + 1
      for i := 0 to |contents|
        invariant messages == Opening(title) + PartTurns(contents[..i])
      {
        assert contents[..i + 1][..i] == contents[..i];
        messages := messages + [
          ClaudeMessage(UserRole, PartPrompt(i + 1, contents[i])),
          ClaudeMessage(AssistantRole, PartAck(i + 1))
        ];
      }
      assert contents[..|contents|] == contents;
      messages := messages + [ClaudeMessage(UserRole, summaryStructure)];
      dicts := ToDicts(messages);
    }
  }

  /** The builder's closing instruction does not read as a part, so the parts
      of its conversation are exactly its contents, in order. */
  lemma {:induction false} BuilderPartsRecovered(title: string, contents: seq<string>)
    ensures PromptedParts(SummaryConversation(title, contents, SummaryStructure)) == contents
  {
    NotPartPrompt(SummaryStructure);
    PartsRecovered(title, contents, SummaryStructure);
  }

  /** The last message is the closing instruction whatever the title and
      contents; the first dict embeds the title and the second is fixed. */
  lemma BuilderEnds(title: string, contents: seq<string>)
    ensures var d := ToDicts(SummaryConversation(title, contents, SummaryStructure));
      d[|d| - 1]["role"] == "user" && d[|d| - 1]["content"] == SummaryStructure &&
      ParseOpening(d[0]["content"]) == Some(title) &&
      d[1]["content"] == OpeningAck
  {
    ConversationShape(title, contents, SummaryStructure);
    OpeningRoundTrip(title);
  }
}
