# Summarizer text and prompt logic, modelled in Dafny

The summarizer service turns transcripts into article-style summaries by
asking a language model. Around the I/O it does a small amount of
deterministic text work, which is what this project models and proves:

- **`clean_text`** (script.py): a title reduced to ASCII letters with words
  separated by single spaces (`TitleText`, on top of the Python string
  built-ins in `PyStr`).
- **`extract_common_title`** (script.py): the title taken from the stem of
  the first file path: what follows its first two `_` (after the only `_`
  when there is one, the whole stem when there is none) (`CommonTitle`).
- **the content step of `read_transcription_file`** (script.py): leading
  JSON-like header lines are skipped and the rest of the stripped text is
  re-joined (`TranscriptFile`, an imperative loop as in the source).
- **the conversation sent to the model**: `SummaryPromptBuilder` in
  src/domain/prompt_builder.py (`PromptBuilder`, a class whose
  `CreateMessages` grows the list in a loop) and its inlined twin in
  `get_summary` of script.py (`ScriptSummary`), both proved to build the
  reference conversation of `Conversation`: an opening user/assistant pair,
  one pair per content part numbered from 1, and a closing user
  instruction. `Conversation` also holds parsers that read the title, the
  part numbers and the part texts back out of the messages; the round trips
  prove that nothing is lost, repeated or reordered.
- **the reply check** of `get_summary`: no content blocks is an error,
  otherwise the summary is the first block's text.

Whitespace is CPython's `str.isspace` table, which `str.split()`,
`str.strip()` and the regular-expression class `\s` share. `Path.stem`
follows CPython 3.12's pathlib: the final component without its last
suffix, where a leading or trailing dot does not start a suffix.

The tests in src/tests/domain/handler/test_get_summary.py import an
`extract_text_from_response` that src/domain/handler/get_summary.py does not
define. This model follows the code, not those tests.

## Model

| member | source | states |
|---|---|---|
| `PyStr.Replace` | script.py:14 | every occurrence of the old character becomes the new one, every other character is kept in place, and the length is unchanged |
| `PyStr.Words` | script.py:16 | `split()` yields only non-empty words that contain no whitespace |
| `PyStr.WordsOfWord` | script.py:16 | a single word with no whitespace splits into exactly itself |
| `PyStr.WordsSplitAtSpace` | script.py:16 | any one whitespace character splits the text: the words of `x + c + y` are the words of `x` followed by the words of `y`, so runs of whitespace and whitespace at either end produce no empty words |
| `PyStr.WordEndUnique` | script.py:16 | a word ends at the first whitespace character after it, or at the end of the text |
| `PyStr.JoinLength` | script.py:16 | the length of `sep.join(parts)` is the parts' total length plus one separator per gap |
| `PyStr.SplitOn` | script.py:31 | `split('\n')` yields at least one line, and no line contains the separator |
| `PyStr.JoinSplitOn` | script.py:31-37 | re-joining the split lines with the separator gives back the original text |
| `PyStr.JoinAt` | script.py:37 | joining a list equals joining a prefix, then the separator, then the rest |
| `PyStr.LStrip` | script.py:30-34 | what is left is a suffix of the text that is empty or starts with a non-whitespace character |
| `PyStr.RStrip` | script.py:30-34 | what is left is a prefix of the text that is empty or ends with a non-whitespace character |
| `PyStr.LStripDropsSpace` | script.py:30-34 | every character the left strip removes is whitespace |
| `PyStr.RStripDropsSpace` | script.py:30-34 | every character the right strip removes is whitespace |
| `PyStr.LStripAt` | script.py:30-34 | after a whitespace-only run, the left strip stops exactly at the first other character |
| `PyStr.Strip` | script.py:30-34 | `strip()` is no longer than the text and is empty or begins and ends with a non-whitespace character |
| `PyStr.StripFirst` | script.py:34 | when a line's first non-whitespace character is at `k`, the stripped line is non-empty and starts with that character |
| `PyStr.StripAllSpace` | script.py:34 | a blank or whitespace-only line strips to the empty string |
| `TitleText.SeparatorsToSpaces` | script.py:14 | every `-` and `_` becomes a space and every other character stays where it was; the length is unchanged |
| `TitleText.DropNonLetters` | script.py:15 | the regex substitution leaves only ASCII letters and whitespace and never lengthens the text; a single character is kept exactly when it is an ASCII letter or whitespace |
| `TitleText.DropNonLettersAppend` | script.py:15 | the substitution works character by character: on a concatenation it is the concatenation of the results |
| `TitleText.DropNonLettersKeeps` | script.py:15 | text made only of ASCII letters and whitespace is left unchanged |
| `TitleText.CleanText` | script.py:12-17 | the result has only ASCII letters and single spaces, with no space at either end and no two spaces in a row |
| `TitleText.CleanTitleIsFixpoint` | script.py:12-17 | every string of that clean shape is returned unchanged, so clean titles are exactly the possible results |
| `TitleText.CleanTextIdempotent` | script.py:12-17 | cleaning twice is the same as cleaning once |
| `TitleText.CleanTextKeepsLetters` | script.py:14-16 | the result's letters are exactly the input's ASCII letters, in the same order |
| `TitleText.CleanTextSeparator` | script.py:14 | a `-` or `_` anywhere separates words exactly as a space does |
| `TitleText.CleanTextWhitespace` | script.py:15-16 | any whitespace character (tab, newline, no-break space, …) anywhere separates words exactly as a space does |
| `TitleText.CleanTextDeletes` | script.py:15 | any other character that is neither a letter nor whitespace (a digit, punctuation, a non-ASCII letter) is deleted without separating words |
| `TitleText.WordsJoinKeepsLetters` | script.py:16 | splitting on whitespace and joining with single spaces keeps the letters in order |
| `TitleText.JoinLetterWords` | script.py:16 | letter-only words joined by single spaces always form a clean title |
| `TitleText.CleanWordsJoin` | script.py:16 | splitting a clean title into words and re-joining them gives it back |
| `CommonTitle.IndexOf` | script.py:23 | `find` gives the first index of the character, or nothing exactly when it does not occur |
| `CommonTitle.LastIndexOf` | script.py:21 | `rfind` gives the last index of the character, or nothing exactly when it does not occur |
| `CommonTitle.LastIndexOfIs` | script.py:21 | an occurrence with none after it is the one `rfind` reports |
| `CommonTitle.Stem` | script.py:21 | the stem is a prefix of the path's final component |
| `CommonTitle.StemAtLastDot` | script.py:21 | when the last dot sits strictly inside the name (neither first nor last), the stem is everything before it |
| `CommonTitle.StemEdgeDot` | script.py:21 | when the last dot is the name's first or last character, the stem is the whole name |
| `CommonTitle.StemNoDot` | script.py:21 | a name without a dot is its own stem |
| `CommonTitle.TitlePart` | script.py:22-23 | the title part is a suffix of the stem, and it is strictly shorter than the stem whenever the stem holds an `_` |
| `CommonTitle.FirstUnderscore` | script.py:23 | the first `_` is the one the split cuts at |
| `CommonTitle.SplitTailStep` | script.py:23 | each split cuts at the first separator and uses up one of the allowed splits |
| `CommonTitle.SplitTail` | script.py:23 | `split(sep, n)[-1]` is a suffix of the stem |
| `CommonTitle.ExtractCommonTitle` | script.py:19-24 | fails exactly when the path list is empty (the IndexError of `file_paths[0]`); otherwise the title is clean |
| `CommonTitle.OnlyFirstPathCounts` | script.py:21 | two path lists whose first paths have the same stem give the same title, whatever the other paths are |
| `CommonTitle.TitlePartNoUnderscore` | script.py:22-24 | with no `_` the whole stem is kept |
| `CommonTitle.TitlePartOneUnderscore` | script.py:22-23 | with exactly one `_`, what follows it is kept |
| `CommonTitle.TitlePartTwoUnderscores` | script.py:23 | with two or more, everything after the second `_` is kept, later underscores included |
| `TranscriptFile.StartsBodyAtFirstChar` | script.py:34 | a line starts the body exactly when its first non-whitespace character is neither `{` nor `"` |
| `TranscriptFile.BlankLineNeverStartsBody` | script.py:34 | a blank or whitespace-only line never starts the body |
| `TranscriptFile.FindBodyStart` | script.py:32-36 | the loop returns the index of the first line that starts the body, or 0 when no line does |
| `TranscriptFile.BodyFromStart` | script.py:31-37 | the lines from such a start, re-joined, are a suffix of the content that begins at a line boundary, and are the whole content when no line starts the body |
| `TranscriptFile.TranscriptBody` | script.py:30-37 | the body is the stripped text's lines from the start line on, re-joined with `\n`. The start line is the first line that is non-blank after stripping and begins with neither `{` nor `"`, or line 0 when none does. The body is a suffix of the stripped text that begins at a line boundary. When no line qualifies, the body is the whole stripped text |
| `TranscriptFile.LinesFromAreLineSuffix` | script.py:31-37 | the lines from any index on, re-joined, are a suffix of the text that begins right after a line break (or at the start) |
| `Conversation.Decimal` | src/domain/prompt_builder.py:30-34 | `str(i)` is a non-empty string of digits with no leading zero, and `0` renders as `"0"` |
| `Conversation.DigitRunOf` | src/domain/prompt_builder.py:30-34 | the digits of a number followed by a non-digit form exactly the leading digit run |
| `Conversation.NumberAfterRoundTrip` | src/domain/prompt_builder.py:30-34 | a fixed prefix, a rendered number and a tail that does not start with a digit read back as that number and that tail |
| `Conversation.DecimalRoundTrip` | src/domain/prompt_builder.py:30 | the decimal rendering of a part number reads back as the same number |
| `Conversation.OpeningRoundTrip` | src/domain/prompt_builder.py:16-19 | the opening message holds the title verbatim between single quotes, so the title can be read back out of it |
| `Conversation.PartPromptRoundTrip` | src/domain/prompt_builder.py:28-31 | `Here is Part {i}:\n\n{content}` reads back as the same number and the same content |
| `Conversation.PartAckRoundTrip` | src/domain/prompt_builder.py:32-35 | the acknowledgement reads back as the number of the part it acknowledges |
| `Conversation.PartTurns` | src/domain/prompt_builder.py:26-36 | the loop adds exactly two messages per content part |
| `Conversation.SummaryConversation` | src/domain/prompt_builder.py:13-41 | the conversation has 2·len(contents)+3 messages |
| `Conversation.PartTurnsAt` | src/domain/prompt_builder.py:26-36 | the part pairs occupy 2·len(contents) positions; position 2i holds the user message for part i+1 with the i-th content, and 2i+1 holds its acknowledgement |
| `Conversation.ConversationShape` | src/domain/prompt_builder.py:13-41 | the conversation has 2·len(contents)+3 messages. Message 0 is the user's opening about the title and message 1 is the fixed assistant reply. Message 2i is part i (1-based, input order) and message 2i+1 its acknowledgement. The last message is the user's closing instruction |
| `Conversation.RolesAlternate` | src/domain/prompt_builder.py:16-41 | roles alternate user/assistant, starting and ending with user |
| `Conversation.PartsNumbered` | src/domain/prompt_builder.py:26-36 | message 2i names part i and carries the i-th content unchanged, and message 2i+1 acknowledges the same i |
| `Conversation.TitleRecovered` | src/domain/prompt_builder.py:16-19 | the title can be read back verbatim from the first message |
| `Conversation.PromptedPartsAppend` | src/domain/prompt_builder.py:26-36 | the part texts of two message lists put together are the part texts of each, in order |
| `Conversation.PromptedPartsOfPair` | src/domain/prompt_builder.py:27-36 | each user/assistant pair contributes exactly its own part's text |
| `Conversation.PromptedPartsOfTurns` | src/domain/prompt_builder.py:26-36 | reading the part texts back from the part pairs gives exactly the contents |
| `Conversation.PartsRecovered` | src/domain/prompt_builder.py:13-41 | when the closing instruction does not look like a part, reading the parts back from the conversation gives exactly the contents, in input order, none dropped and none repeated |
| `Conversation.NotPartPrompt` | src/domain/prompt_builder.py:16-19 | a text whose first character is not `H` (the opening request, each closing instruction) never reads as a part |
| `Conversation.ToDicts` | src/domain/prompt_builder.py:43 | each dict has exactly the keys `role` and `content`, copied from the message at the same position |
| `Conversation.DictsRoundTrip` | src/domain/prompt_builder.py:43 | reading messages back from the dicts gives the original list |
| `Conversation.ToDictsAppend` | src/domain/prompt_builder.py:43 | the dict form of two lists put together is the two dict forms put together |
| `PromptBuilder.SummaryPromptBuilder.constructor` | src/domain/prompt_builder.py:5-8 | the new builder holds the system prompt and the closing instruction |
| `PromptBuilder.SummaryPromptBuilder.GetSystemMessage` | src/domain/prompt_builder.py:10-11 | always the system prompt set by the constructor. The fields are constants, so no method changes them |
| `PromptBuilder.SummaryPromptBuilder.CreateMessages` | src/domain/prompt_builder.py:13-43 | the returned list is the dict form of the reference conversation closed by the builder's instruction; the same inputs always give the same list |
| `PromptBuilder.BuilderPartsRecovered` | src/domain/prompt_builder.py:26-41 | the builder's parts read back as exactly its contents, in order |
| `PromptBuilder.BuilderEnds` | src/domain/prompt_builder.py:16-41 | the last dict is a user message with the closing instruction, whatever the title and contents. The first dict embeds the title and the second is the fixed reply |
| `ScriptSummary.BuildSummaryMessages` | script.py:46-115 | the inline list is the dict form of the same reference conversation as the builder's, closed by the full article-style instruction |
| `ScriptSummary.ScriptPartsRecovered` | script.py:59-70 | the script's parts read back as exactly its contents, in order |
| `ScriptSummary.ResponseText` | script.py:125-127 | a reply without a `content` attribute or with no blocks is the empty-response error. Otherwise the result succeeds exactly when the first block has text, and is that text |
| `ScriptSummary.GetSummary` | script.py:117-130 | the client receives the fixed model, token ceiling, temperature and system prompt, and the proved conversation. A client failure becomes a client error; otherwise the result is the reply check applied to the reply |

## Left out

- File I/O: opening and reading the transcript (script.py:28-30), the error wrapping around it (script.py:38-39) and UTF-8 decoding. `TranscriptFile.TranscriptBody` starts from the string that `file.read()` returns in text mode, where `\r\n` and `\r` have already become `\n`.
- Turning a path string into its final component (`Path.name`). `CommonTitle.FilePath` holds that component already split off; the directories above it never reach the title.
- The model client call (script.py:117-123) is a function parameter of `GetSummary` that either raises (a failure reason) or returns a reply. The network, timeouts and retries are not modelled.
- Exception message strings, including the "Error getting summary: …" prefix (script.py:129-130). The model uses error kinds instead.
- `main` (script.py:132-186): environment variables, file existence checks, clock-based output names and writing the summary file.
- src/infra/redis.py (stream consumer group, publish, the blocking consume loop that re-raises on a handler error and stops), src/summarizer.py (bootstrap), src/domain/handler/get_summary.py (orchestration of storage reads, the model call and the event write) and the type and protocol files. These are I/O wiring with no logic of their own beyond what is modelled above.
- Python strings are sequences of code points; Dafny's `char` excludes lone surrogates, so such strings are not represented.
