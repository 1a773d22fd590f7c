/**
 * The content step of `read_transcription_file` in script.py: after the file
 * text is stripped and cut into lines, leading JSON-like header lines are
 * skipped and the rest is re-joined.
 */
module TranscriptFile {
  import opened PyStr

  /** A line where the transcript proper can start: after stripping it is
      non-empty and begins with neither `{` nor `"`. */
  predicate StartsBody(line: string) {
    var t := Strip(line);
    t != [] && t[0] != '{' && t[0] != '"'
  }

  /** A line starts the body exactly when its first non-whitespace character
      is neither `{` nor `"`. */
  lemma StartsBodyAtFirstChar(line: string, k: nat)
    requires k < |line| && AllSpace(line[..k]) && !IsSpace(line[k])
    ensures StartsBody(line) <==> line[k] != '{' && line[k] != '"'
  {
    StripFirst(line, k);
  }

  /** A blank or whitespace-only line never starts the body. */
  lemma BlankLineNeverStartsBody(line: string)
    requires AllSpace(line)
    ensures !StartsBody(line)
  {
    StripAllSpace(line);
  }

  /** `start` is where the body begins: the first line that StartsBody, or
      line 0 when no line does. */
  predicate IsBodyStart(lines: seq<string>, start: nat) {
    start < |lines| &&
    ((StartsBody(lines[start]) && forall j :: 0 <= j < start ==> !StartsBody(lines[j])) ||
     (start == 0 && forall j :: 0 <= j < |lines| ==> !StartsBody(lines[j])))
  }

  /** `text` is a suffix of `content` that begins at the start of a line. */
  predicate IsLineSuffix(text: string, content: string) {
    exists k :: 0 <= k <= |content| && text == content[k..] && (k == 0 || content[k - 1] == '\n')
  }

  /** The lines of `content` from line `m` on, re-joined, are a suffix of
      `content` beginning at a line boundary. */
  lemma {:induction false} LinesFromAreLineSuffix(content: string, m: nat)
    requires m < |SplitOn(content, '\n')|
    ensures IsLineSuffix(Join(SplitOn(content, '\n')[m..], "\n"), content)
  {
    var lines := SplitOn(content, '\n');
    JoinSplitOn(content, '\n');
    if m == 0 {
      assert lines[0..] == lines;
      assert content == content[0..];
    } else {
      JoinAt(lines, "\n", m);
      var k := |Join(lines[..m], "\n")| + 1;
      assert content[k..] == Join(lines[m..], "\n");
      assert content[k - 1] == '\n';
    }
  }

  /** What the body starting at line `start` promises: it is made of the
      lines from a valid start on, it is a line-aligned suffix of `content`,
      and it is all of `content` when no line starts the body. */
  lemma BodyFromStart(content: string, start: nat, body: string)
    requires IsBodyStart(SplitOn(content, '\n'), start)
    requires body == Join(SplitOn(content, '\n')[start..], "\n")
    ensures var lines := SplitOn(content, '\n');
      exists start: nat :: IsBodyStart(lines, start) && body == Join(lines[start..], "\n")
    ensures IsLineSuffix(body, content)
    ensures (forall line :: line in SplitOn(content, '\n') ==> !StartsBody(line)) ==> body == content
  {
    var lines := SplitOn(content, '\n');
    LinesFromAreLineSuffix(content, start);
    if forall line :: line in lines ==> !StartsBody(line) {
      assert start == 0 && lines[0..] == lines;
      JoinSplitOn(content, '\n');
    }
  }

  /** The line-selection loop: the index of the first line that starts the
      body, or 0 when none does. */
  method FindBodyStart(lines: seq<string>) returns (start: nat)
    requires |lines| > 0
    ensures IsBodyStart(lines, start)
  {
    start := 0;
    var i := 0;
    while i < |lines| && !StartsBody(lines[i])
      invariant 0 <= i <= |lines|
      invariant forall j :: 0 <= j < i ==> !StartsBody(lines[j])
    {
      i := i + 1;
    }
    if i < |lines| {
      start := i;
      assert StartsBody(lines[start]);
    } else {
      assert forall j :: 0 <= j < |lines| ==> !StartsBody(lines[j]);
    }
  }

  /** The content step of `read_transcription_file`, given the text the file
      holds. */
  method TranscriptBody(text: string) returns (body: string)
    ensures var lines := SplitOn(Strip(text), '\n');
      exists start: nat :: IsBodyStart(lines, start) && body == Join(lines[start..], "\n")
    ensures IsLineSuffix(body, Strip(text))
    ensures (forall line :: line in SplitOn(Strip(text), '\n') ==> !StartsBody(line)) ==> body == Strip(text)
  {
    var content := Strip(text);
    var lines := SplitOn(content, '\n');
    var start := FindBodyStart(lines);
    body := Join(lines[start..], "\n");
    BodyFromStart(content, start, body);
  }
}
