/**
 * The conversation sent to the model for a summary, shared by
 * `SummaryPromptBuilder.create_messages` and the inlined copy in
 * `get_summary` of script.py: an opening user/assistant pair, one
 * user/assistant pair per content part numbered from 1, and a closing user
 * instruction. Also the parsers that read a part's number and text back out
 * of a message, which witness that nothing is lost or reordered.
 */
module Conversation {
  import opened Wrappers

  /** `ClaudeMessage(role, content)` */
  datatype ClaudeMessage = ClaudeMessage(role: string, content: string)

  const UserRole: string := "user"
  const AssistantRole: string := "assistant"

  /** The system prompt both implementations send. */
  const SystemPrompt: string :=
    "You are an experienced writer which can analyze and summarize and write articles from different text sources: lectures, interviews, tech talks, entertainment, etc."

  // ---------------------------------------------------------------------
  // Decimal numerals, as `f"{i}"` renders a non-negative int

  predicate IsDigit(c: char) {
    '0' <= c <= '9'
  }

  function DigitChar(d: nat): (c: char)
    requires d < 10
    ensures IsDigit(c)
  {
    ('0' as int + d) as char
  }

  /** `str(n)`: digits only, and no leading zero except in `0` itself. */
  function Decimal(n: nat): (r: string)
    ensures |r| > 0 && forall k :: 0 <= k < |r| ==> IsDigit(r[k])
    ensures n == 0 ==> r == "0"
    ensures n > 0 ==> r[0] != '0'
  {
    if n < 10 then [DigitChar(n)] else Decimal(n / 10) + [DigitChar(n % 10)]
  }

  /** The number a string of digits denotes. */
  function DecimalValue(digits: string): nat
    requires forall k :: 0 <= k < |digits| ==> IsDigit(digits[k])
  {
    if digits == [] then 0
    else
      assert IsDigit(digits[|digits| - 1]);
      10 * DecimalValue(digits[..|digits| - 1]) + (digits[|digits| - 1] as int - '0' as int)
  }

  lemma {:induction false} DecimalRoundTrip(n: nat)
    ensures DecimalValue(Decimal(n)) == n
  {
    if n >= 10 {
      DecimalRoundTrip(n / 10);
      var r := Decimal(n);
      assert r[..|r| - 1] == Decimal(n / 10);
    }
  }

  /** Length of the leading run of digits. */
  function DigitRun(s: string): (n: nat)
    ensures n <= |s|
    ensures forall k :: 0 <= k < n ==> IsDigit(s[k])
    ensures n < |s| ==> !IsDigit(s[n])
  {
    if s == [] || !IsDigit(s[0]) then 0 else 1 + DigitRun(s[1..])
  }

  lemma {:induction false} DigitRunOf(digits: string, tail: string)
    requires forall k :: 0 <= k < |digits| ==> IsDigit(digits[k])
    requires tail == [] || !IsDigit(tail[0])
    ensures DigitRun(digits + tail) == |digits|
  {
    if digits != [] {
      assert (digits + tail)[1..] == digits[1..] + tail;
      DigitRunOf(digits[1..], tail);
    } else {
      assert digits + tail == tail;
    }
  }

  /** Reads `prefix`, then a decimal number; gives the number and what follows it. */
  function ParseNumberAfter(text: string, prefix: string): Option<(nat, string)>
  {
    if |text| < |prefix| || text[..|prefix|] != prefix then None
    else
      var rest := text[|prefix|..];
      var n := DigitRun(rest);
      if n == 0 then None else Some((DecimalValue(rest[..n]), rest[n..]))
  }

  lemma NumberAfterRoundTrip(prefix: string, i: nat, tail: string)
    requires tail == [] || !IsDigit(tail[0])
    ensures ParseNumberAfter(prefix + Decimal(i) + tail, prefix) == Some((i, tail))
  {
    var text := prefix + Decimal(i) + tail;
    var rest := text[|prefix|..];
    assert text[..|prefix|] == prefix;
    assert rest == Decimal(i) + tail;
    DigitRunOf(Decimal(i), tail);
    assert rest[..|Decimal(i)|] == Decimal(i);
    DecimalRoundTrip(i);
  }

  // ---------------------------------------------------------------------
  // The message texts

  const OpeningPrefix: string := "I want to analyze content titled '"
  const OpeningSuffix: string :=
    "'. I will share multiple parts that need to be combined into one comprehensive summary."

  /** The first user message, naming the title between single quotes
      (OpeningRoundTrip: the title can be read back out of it). */
  function OpeningRequest(title: string): string {
    OpeningPrefix + title + OpeningSuffix
  }

  /** The assistant's reply to the opening message; it does not depend on any input. */
  const OpeningAck: string :=
    "I'll help analyze all parts. Please share them and I'll ensure each part is incorporated into the final summary."

  const PartPromptPrefix: string := "Here is Part "
  const PartAckPrefix: string := "I've received and processed Part "
  // Written as two literals so that the verifier sees its first character.
  const PartAckSuffix: string :=
    ". " + "I'll keep this content in mind for the complete analysis. Please proceed with any remaining parts."

  /** `f"Here is Part {i}:\n\n{content}"` (PartPromptRoundTrip: number and
      text read back unchanged). */
  function PartPrompt(i: nat, content: string): string {
    PartPromptPrefix + Decimal(i) + ":\n\n" + content
  }

  /** The assistant's acknowledgement of part `i` (PartAckRoundTrip: the
      number reads back). */
  function PartAck(i: nat): string {
    PartAckPrefix + Decimal(i) + PartAckSuffix
  }

  /** Reads the title back out of an opening message. */
  function ParseOpening(text: string): Option<string> {
    if |text| >= |OpeningPrefix| + |OpeningSuffix| &&
       text[..|OpeningPrefix|] == OpeningPrefix && text[|text| - |OpeningSuffix|..] == OpeningSuffix
    then Some(text[|OpeningPrefix|..|text| - |OpeningSuffix|])
    else None
  }

  /** Reads the part number and the part text back out of a part message. */
  function ParsePartPrompt(text: string): Option<(nat, string)> {
    match ParseNumberAfter(text, PartPromptPrefix)
    case Some((i, rest)) =>
      if |rest| >= 3 && rest[..3] == ":\n\n" then Some((i, rest[3..])) else None
    case None => None
  }

  /** Reads the part number back out of an acknowledgement. */
  function ParsePartAck(text: string): Option<nat> {
    match ParseNumberAfter(text, PartAckPrefix)
    case Some((i, rest)) => if rest == PartAckSuffix then Some(i) else None
    case None => None
  }

  /** The opening message holds the title verbatim, so it can be read back. */
  lemma OpeningRoundTrip(title: string)
    ensures ParseOpening(OpeningRequest(title)) == Some(title)
  {
    var text := OpeningRequest(title);
    assert text[..|OpeningPrefix|] == OpeningPrefix;
    assert text[|text| - |OpeningSuffix|..] == OpeningSuffix;
    assert text[|OpeningPrefix|..|text| - |OpeningSuffix|] == title;
  }

  /** A part message gives back its number and its text unchanged. */
  lemma PartPromptRoundTrip(i: nat, content: string)
    ensures ParsePartPrompt(PartPrompt(i, content)) == Some((i, content))
  {
    var tail := ":\n\n" + content;
    assert PartPrompt(i, content) == PartPromptPrefix + Decimal(i) + tail;
    NumberAfterRoundTrip(PartPromptPrefix, i, tail);
    assert tail[..3] == ":\n\n" && tail[3..] == content;
  }

  /** An acknowledgement gives back the number of the part it acknowledges. */
  lemma PartAckRoundTrip(i: nat)
    ensures ParsePartAck(PartAck(i)) == Some(i)
  {
    assert PartAckSuffix[0] == '.';
    NumberAfterRoundTrip(PartAckPrefix, i, PartAckSuffix);
  }

  /** No text that starts with a character other than `H` reads as a part message. */
  lemma NotPartPrompt(text: string)
    requires text == [] || text[0] != 'H'
    ensures ParsePartPrompt(text).None?
  {
    if |text| >= |PartPromptPrefix| {
      assert text[..|PartPromptPrefix|][0] != PartPromptPrefix[0];
    }
  }

  // ---------------------------------------------------------------------
  // The conversation

  function Opening(title: string): seq<ClaudeMessage> {
    [ClaudeMessage(UserRole, OpeningRequest(title)), ClaudeMessage(AssistantRole, OpeningAck)]
  }

  /** The user/assistant pair for each content part, numbered from 1
      (PartTurnsAt says which message sits where). */
  function PartTurns(contents: seq<string>): (turns: seq<ClaudeMessage>)
    ensures |turns| == 2 * |contents|
  {
    if contents == [] then []
    else
      var n := |contents|;
      PartTurns(contents[..n - 1]) +
      [ClaudeMessage(UserRole, PartPrompt(n, contents[n - 1])), ClaudeMessage(AssistantRole, PartAck(n))]
  }

  /** The whole conversation for `title` and `contents`, ending in `closing`. */
  function SummaryConversation(title: string, contents: seq<string>, closing: string): (m: seq<ClaudeMessage>)
    ensures |m| == 2 * |contents| + 3
  {
    Opening(title) + PartTurns(contents) + [ClaudeMessage(UserRole, closing)]
  }

  /** Position 2i of the part pairs holds the prompt for part i+1 with the
      i-th content, and position 2i+1 holds its acknowledgement. */
  lemma {:induction false} PartTurnsAt(contents: seq<string>)
    ensures forall i :: 0 <= i < |contents| ==>
      PartTurns(contents)[2 * i] == ClaudeMessage(UserRole, PartPrompt(i + 1, contents[i])) &&
      PartTurns(contents)[2 * i + 1] == ClaudeMessage(AssistantRole, PartAck(i + 1))
  {
    if contents != [] {
      var n := |contents|;
      var init := contents[..n - 1];
      PartTurnsAt(init);
      forall i | 0 <= i < n - 1
        ensures contents[i] == init[i]
      {
      }
    }
  }

  /** The conversation has 2·len(contents)+3 messages: the opening pair, the
      pair for part i (1-based, in input order) at positions 2i and 2i+1, and
      the closing instruction last. */
  lemma ConversationShape(title: string, contents: seq<string>, closing: string)
    ensures var m := SummaryConversation(title, contents, closing);
      |m| == 2 * |contents| + 3 &&
      m[0] == ClaudeMessage(UserRole, OpeningRequest(title)) &&
      m[1] == ClaudeMessage(AssistantRole, OpeningAck) &&
      (forall i :: 1 <= i <= |contents| ==>
        m[2 * i] == ClaudeMessage(UserRole, PartPrompt(i, contents[i - 1])) &&
        m[2 * i + 1] == ClaudeMessage(AssistantRole, PartAck(i))) &&
      m[|m| - 1] == ClaudeMessage(UserRole, closing)
  {
    var m := SummaryConversation(title, contents, closing);
    var turns := PartTurns(contents);
    PartTurnsAt(contents);
    forall i | 1 <= i <= |contents|
      ensures m[2 * i] == turns[2 * (i - 1)] && m[2 * i + 1] == turns[2 * (i - 1) + 1]
    {
    }
  }

  /** Roles alternate, starting and ending with the user. */
  lemma RolesAlternate(title: string, contents: seq<string>, closing: string)
    ensures var m := SummaryConversation(title, contents, closing);
      m[0].role == UserRole && m[|m| - 1].role == UserRole &&
      forall k :: 0 <= k < |m| ==> m[k].role == if k % 2 == 0 then UserRole else AssistantRole
  {
    var m := SummaryConversation(title, contents, closing);
    ConversationShape(title, contents, closing);
    forall k | 0 <= k < |m|
      ensures m[k].role == if k % 2 == 0 then UserRole else AssistantRole
    {
      if 2 <= k < |m| - 1 {
        var i := k / 2;
        assert 1 <= i <= |contents|;
        if k % 2 == 0 {
          assert k == 2 * i && m[2 * i].role == UserRole;
        } else {
          assert m[2 * i + 1] == ClaudeMessage(AssistantRole, PartAck(i));
        }
      }
    }
  }

  /** Message 2i names part i and carries the i-th content unchanged;
      message 2i+1 acknowledges the same part i. */
  lemma PartsNumbered(title: string, contents: seq<string>, closing: string, i: nat)
    requires 1 <= i <= |contents|
    ensures var m := SummaryConversation(title, contents, closing);
      ParsePartPrompt(m[2 * i].content) == Some((i, contents[i - 1])) &&
      ParsePartAck(m[2 * i + 1].content) == Some(i)
  {
    ConversationShape(title, contents, closing);
    PartPromptRoundTrip(i, contents[i - 1]);
    PartAckRoundTrip(i);
  }

  /** The title can be read back out of the first message. */
  lemma TitleRecovered(title: string, contents: seq<string>, closing: string)
    ensures ParseOpening(SummaryConversation(title, contents, closing)[0].content) == Some(title)
  {
    OpeningRoundTrip(title);
  }

  /** The texts of the part messages, in conversation order. */
  function PromptedParts(messages: seq<ClaudeMessage>): seq<string>
  {
    if messages == [] then []
    else
      (match ParsePartPrompt(messages[0].content)
       case Some((_, text)) => if messages[0].role == UserRole then [text] else []
       case None => []) + PromptedParts(messages[1..])
  }

  lemma {:induction false} PromptedPartsAppend(a: seq<ClaudeMessage>, b: seq<ClaudeMessage>)
    ensures PromptedParts(a + b) == PromptedParts(a) + PromptedParts(b)
  {
    if a == [] {
      assert a + b == b;
    } else {
      assert (a + b)[0] == a[0] && (a + b)[1..] == a[1..] + b;
      PromptedPartsAppend(a[1..], b);
    }
  }

  /** The pair for one part contributes exactly that part's text. */
  lemma PromptedPartsOfPair(i: nat, content: string)
    ensures PromptedParts([ClaudeMessage(UserRole, PartPrompt(i, content)),
                           ClaudeMessage(AssistantRole, PartAck(i))]) == [content]
  {
    var user := ClaudeMessage(UserRole, PartPrompt(i, content));
    var ack := ClaudeMessage(AssistantRole, PartAck(i));
    PartPromptRoundTrip(i, content);
    assert PromptedParts([ack]) == [] by {
      assert ack.role != UserRole;
      assert PromptedParts([ack]) == [] + PromptedParts([]);
    }
    assert PromptedParts([user]) == [content] + PromptedParts([]);
    PromptedPartsAppend([user], [ack]);
    assert [user] + [ack] == [user, ack];
  }

  lemma {:induction false} PromptedPartsOfTurns(contents: seq<string>)
    ensures PromptedParts(PartTurns(contents)) == contents
  {
    if contents != [] {
      var n := |contents|;
      var init := contents[..n - 1];
      var pair := [ClaudeMessage(UserRole, PartPrompt(n, contents[n - 1])), ClaudeMessage(AssistantRole, PartAck(n))];
      calc {
        PromptedParts(PartTurns(contents));
        PromptedParts(PartTurns(init) + pair);
        { PromptedPartsAppend(PartTurns(init), pair); }
        PromptedParts(PartTurns(init)) + PromptedParts(pair);
        { PromptedPartsOfTurns(init); PromptedPartsOfPair(n, contents[n - 1]); }
        init + [contents[n - 1]];
        contents;
      }
    }
  }

  /** Reading the part messages back gives exactly the contents, in input
      order, none dropped and none repeated, provided the closing message
      does not itself look like a part. */
  lemma {:induction false} PartsRecovered(title: string, contents: seq<string>, closing: string)
    requires ParsePartPrompt(closing).None?
    ensures PromptedParts(SummaryConversation(title, contents, closing)) == contents
  {
    var open := Opening(title);
    var last := [ClaudeMessage(UserRole, closing)];
    PromptedPartsAppend(open + PartTurns(contents), last);
    PromptedPartsAppend(open, PartTurns(contents));
    OpeningHasNoParts(title);
    PromptedPartsOfTurns(contents);
    assert PromptedParts(last) == [] + PromptedParts([]);
  }

  /** The opening pair contributes no part text. */
  lemma {:induction false} OpeningHasNoParts(title: string)
    ensures PromptedParts(Opening(title)) == []
  {
    var open := Opening(title);
    assert OpeningPrefix[0] == 'I';
    NotPartPrompt(OpeningRequest(title));
    assert PromptedParts([open[1]]) == [] + PromptedParts([]);
    assert PromptedParts([open[0]]) == [] + PromptedParts([]);
    PromptedPartsAppend([open[0]], [open[1]]);
    assert open == [open[0]] + [open[1]];
  }

  // ---------------------------------------------------------------------
  // The wire form: `[{"role": m.role, "content": m.content} for m in messages]`

  function AsDict(m: ClaudeMessage): map<string, string> {
    map["role" := m.role, "content" := m.content]
  }

  function ToDicts(messages: seq<ClaudeMessage>): (dicts: seq<map<string, string>>)
    ensures |dicts| == |messages|
    ensures forall k :: 0 <= k < |dicts| ==>
      dicts[k].Keys == {"role", "content"} &&
      dicts[k]["role"] == messages[k].role && dicts[k]["content"] == messages[k].content
  {
    seq(|messages|, k requires 0 <= k < |messages| => AsDict(messages[k]))
  }

  /** Reads messages back from their wire form; fails on a dict without
      both keys. */
  function FromDicts(dicts: seq<map<string, string>>): Option<seq<ClaudeMessage>>
  {
    if dicts == [] then Some([])
    else if "role" in dicts[0] && "content" in dicts[0] then
      match FromDicts(dicts[1..])
      case Some(rest) => Some([ClaudeMessage(dicts[0]["role"], dicts[0]["content"])] + rest)
      case None => None
    else None
  }

  /** The wire form keeps every message's role and content, in order. */
  lemma {:induction false} DictsRoundTrip(messages: seq<ClaudeMessage>)
    ensures FromDicts(ToDicts(messages)) == Some(messages)
  {
    if messages != [] {
      assert ToDicts(messages)[1..] == ToDicts(messages[1..]);
      DictsRoundTrip(messages[1..]);
      assert messages == [messages[0]] + messages[1..];
    }
  }

  lemma ToDictsAppend(a: seq<ClaudeMessage>, b: seq<ClaudeMessage>)
    ensures ToDicts(a + b) == ToDicts(a) + ToDicts(b)
  {
    assert forall k :: 0 <= k < |a + b| ==> ToDicts(a + b)[k] == (ToDicts(a) + ToDicts(b))[k];
  }
}
