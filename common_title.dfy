/**
 * `extract_common_title` of script.py: the title is taken from the stem of
 * the first file path only.
 */
module CommonTitle {
  import opened Wrappers
  import opened TitleText

  /** A file path, as its final component (`Path.name`); the directories
      above it play no part in the title. */
  datatype FilePath = FilePath(name: string)

  datatype TitleError =
    | NoFilePaths   // `file_paths[0]` on an empty list raises IndexError

  /** `s.find(c)`: the first index of `c`, if any. */
  function IndexOf(s: string, c: char): (r: Option<nat>)
    ensures r.None? ==> c !in s
    ensures r.Some? ==> r.value < |s| && s[r.value] == c && c !in s[..r.value]
  {
    if s == [] then None
    else if s[0] == c then Some(0)
    else match IndexOf(s[1..], c)
      case None => None
      case Some(i) => assert s[..i + 1] == [s[0]] + s[1..][..i]; Some(i + 1)
  }

  /** `s.rfind(c)`: the last index of `c`, if any. */
  function LastIndexOf(s: string, c: char): (r: Option<nat>)
    ensures r.None? ==> c !in s
    ensures r.Some? ==> r.value < |s| && s[r.value] == c && c !in s[r.value + 1..]
  {
    if s == [] then None
    else if s[|s| - 1] == c then Some(|s| - 1)
    else match LastIndexOf(s[..|s| - 1], c)
      case None => assert s == s[..|s| - 1] + [s[|s| - 1]]; None
      case Some(i) => assert s[i + 1..] == s[..|s| - 1][i + 1..] + [s[|s| - 1]]; Some(i)
  }

  /** `Path.stem`: the final component without its last suffix; a leading
      dot or a trailing dot does not start a suffix. */
  function Stem(path: FilePath): (r: string)
    ensures |r| <= |path.name| && r == path.name[..|r|]
  {
    var name := path.name;
    match LastIndexOf(name, '.')
    case Some(i) => if 0 < i < |name| - 1 then name[..i] else name
    case None => name
  }

  /** `rfind` finds the occurrence with none after it. */
  lemma LastIndexOfIs(s: string, c: char, i: nat)
    requires i < |s| && s[i] == c && c !in s[i + 1..]
    ensures LastIndexOf(s, c) == Some(i)
  {
  }

  /** A dot strictly inside the name, with no dot after it, starts the
      suffix that `stem` removes. */
  lemma StemAtLastDot(path: FilePath, i: nat)
    requires 0 < i < |path.name| - 1 && path.name[i] == '.' && '.' !in path.name[i + 1..]
    ensures Stem(path) == path.name[..i]
  {
    LastIndexOfIs(path.name, '.', i);
  }

  /** A name whose last dot is its first or its last character keeps it. */
  lemma StemEdgeDot(path: FilePath, i: nat)
    requires i < |path.name| && path.name[i] == '.' && '.' !in path.name[i + 1..]
    requires i == 0 || i == |path.name| - 1
    ensures Stem(path) == path.name
  {
    LastIndexOfIs(path.name, '.', i);
  }

  /** A name without a dot is its own stem. */
  lemma StemNoDot(path: FilePath)
    requires '.' !in path.name
    ensures Stem(path) == path.name
  {
  }

  /** `s.split(sep, maxsplit)[-1]`: what is left after the first `maxsplit`
      occurrences of `sep`. */
  function SplitTail(s: string, sep: char, maxsplit: nat): (r: string)
    ensures |r| <= |s| && r == s[|s| - |r|..]
  {
    if maxsplit == 0 then s
    else match IndexOf(s, sep)
      case None => s
      case Some(i) => SplitTail(s[i + 1..], sep, maxsplit - 1)
  }

  /** Lines 22-23: the part of a stem that holds the title, a suffix of the
      stem that loses at least the first `_` when there is one. */
  function TitlePart(stem: string): (r: string)
    ensures |r| <= |stem| && r == stem[|stem| - |r|..]
    ensures '_' in stem ==> |r| < |stem|
  {
    if '_' in stem then SplitTail(stem, '_', 2) else stem
  }

  /** `extract_common_title(file_paths)` */
  function ExtractCommonTitle(paths: seq<FilePath>): (r: Result<string, TitleError>)
    ensures r.Failure? <==> |paths| == 0
    ensures r.Success? ==> IsCleanTitle(r.value)
  {
    if |paths| == 0 then Failure(NoFilePaths)
    else Success(CleanText(TitlePart(Stem(paths[0]))))
  }

  /** Without `_`, the whole stem is the title part. */
  lemma TitlePartNoUnderscore(stem: string)
    requires '_' !in stem
    ensures TitlePart(stem) == stem
  {
  }

  /** The first `_` is the one `find` reports. */
  lemma FirstUnderscore(stem: string, i: nat)
    requires i < |stem| && stem[i] == '_' && '_' !in stem[..i]
    ensures IndexOf(stem, '_') == Some(i)
  {
  }

  /** With exactly one `_` (at `i`), the title part is what follows it. */
  lemma TitlePartOneUnderscore(stem: string, i: nat)
    requires i < |stem| && stem[i] == '_' && '_' !in stem[..i] && '_' !in stem[i + 1..]
    ensures TitlePart(stem) == stem[i + 1..]
  {
    var rest := stem[i + 1..];
    FirstUnderscore(stem, i);
    assert stem[i] in stem;
    assert IndexOf(rest, '_') == None;
    calc {
      TitlePart(stem);
      SplitTail(stem, '_', 2);
      { SplitTailStep(stem, '_', 2, i); }
      SplitTail(rest, '_', 1);
    }
  }

  /** One step of `split`: cutting at the first separator uses up one split. */
  lemma SplitTailStep(s: string, sep: char, maxsplit: nat, i: nat)
    requires maxsplit > 0 && IndexOf(s, sep) == Some(i)
    ensures SplitTail(s, sep, maxsplit) == SplitTail(s[i + 1..], sep, maxsplit - 1)
  {
  }

  /** With two or more, the first two at `i` and `j`, the title part is
      everything after the second, further underscores included. */
  lemma {:induction false} TitlePartTwoUnderscores(stem: string, i: nat, j: nat)
    requires i < j < |stem| && stem[i] == '_' && stem[j] == '_'
    requires '_' !in stem[..i] && '_' !in stem[i + 1..j]
    ensures TitlePart(stem) == stem[j + 1..]
  {
    var rest := stem[i + 1..];
    var k := j - i - 1;
    assert rest[k] == '_' && rest[..k] == stem[i + 1..j];
    assert rest[k + 1..] == stem[j + 1..];
    FirstUnderscore(stem, i);
    FirstUnderscore(rest, k);
    assert stem[i] in stem;
    calc {
      TitlePart(stem);
      SplitTail(stem, '_', 2);
      { SplitTailStep(stem, '_', 2, i); }
      SplitTail(rest, '_', 1);
      { SplitTailStep(rest, '_', 1, k); }
      SplitTail(rest[k + 1..], '_', 0);
    }
  }

  /** Only the first path takes part in the title. */
  lemma OnlyFirstPathCounts(paths: seq<FilePath>, others: seq<FilePath>)
    requires |paths| > 0 && |others| > 0 && Stem(paths[0]) == Stem(others[0])
    ensures ExtractCommonTitle(paths) == ExtractCommonTitle(others)
  {
  }
}
