/**
 * The Python `str` built-ins the summarizer relies on, on `seq<char>`:
 * `str.isspace`, `str.replace` of one character, `str.split()` with no
 * separator, `str.split(sep)`, `sep.join(parts)` and `str.strip()`.
 */
module PyStr {

  /** CPython's whitespace table (Py_UNICODE_ISSPACE), shared by `str.isspace`,
      `str.split()`, `str.strip()` and the regular-expression class `\s`. */
  predicate IsSpace(c: char) {
    ('\t' <= c <= '\r') || ('\U{1C}' <= c <= '\U{1F}') || c == ' ' ||
    c == '\U{85}' || c == '\U{A0}' || c == '\U{1680}' ||
    ('\U{2000}' <= c <= '\U{200A}') || c == '\U{2028}' || c == '\U{2029}' ||
    c == '\U{202F}' || c == '\U{205F}' || c == '\U{3000}'
  }

  /** A word as `str.split()` yields it: non-empty, no whitespace inside. */
  predicate IsWord(w: string) {
    |w| > 0 && forall k :: 0 <= k < |w| ==> !IsSpace(w[k])
  }

  /** `s.replace(old, new)` for single characters. */
  function Replace(s: string, from: char, to: char): (r: string)
    ensures |r| == |s|
    ensures forall k :: 0 <= k < |s| ==> r[k] == (if s[k] == from then to else s[k])
  {
    if s == [] then [] else [if s[0] == from then to else s[0]] + Replace(s[1..], from, to)
  }

  lemma {:induction false} ReplaceAppend(a: string, b: string, from: char, to: char)
    ensures Replace(a + b, from, to) == Replace(a, from, to) + Replace(b, from, to)
  {
    if a != [] {
      assert (a + b)[0] == a[0] && (a + b)[1..] == a[1..] + b;
      ReplaceAppend(a[1..], b, from, to);
    }
  }

  /** Length of the leading run of non-whitespace characters. */
  function WordEnd(s: string): (n: nat)
    ensures n <= |s|
    ensures forall k :: 0 <= k < n ==> !IsSpace(s[k])
    ensures n < |s| ==> IsSpace(s[n])
  {
    if s == [] || IsSpace(s[0]) then 0 else 1 + WordEnd(s[1..])
  }

  /** `s.split()`: the maximal runs of non-whitespace, in order. */
  function Words(s: string): (ws: seq<string>)
    ensures forall i :: 0 <= i < |ws| ==> IsWord(ws[i])
    decreases |s|
  {
    if s == [] then []
    else if IsSpace(s[0]) then Words(s[1..])
    else
      var n := WordEnd(s);
      [s[..n]] + Words(s[n..])
  }

  /** Total number of characters in `parts`. */
  function TotalLength(parts: seq<string>): nat
  {
    if parts == [] then 0 else |parts[0]| + TotalLength(parts[1..])
  }

  /** `sep.join(parts)` (JoinLength, JoinAt and JoinSplitOn state what it
      yields). */
  function Join(parts: seq<string>, sep: string): string
  {
    if parts == [] then ""
    else if |parts| == 1 then parts[0]
    else parts[0] + sep + Join(parts[1..], sep)
  }

  /** `s.split(sep)` for a one-character separator: empty pieces are kept,
      and there is always at least one piece. */
  function SplitOn(s: string, sep: char): (parts: seq<string>)
    ensures |parts| >= 1
    ensures forall i :: 0 <= i < |parts| ==> sep !in parts[i]
  {
    if s == [] then [""]
    else
      var rest := SplitOn(s[1..], sep);
      if s[0] == sep then [""] + rest
      else [[s[0]] + rest[0]] + rest[1..]
  }

  /** A word on its own splits into itself. */
  lemma {:induction false} WordsOfWord(w: string)
    requires IsWord(w)
    ensures Words(w) == [w]
  {
    var n := WordEnd(w);
    WordEndUnique(w, |w|);
    assert !IsSpace(w[0]);
    assert w[..n] == w && w[n..] == [];
    assert Words(w) == [w[..n]] + Words(w[n..]);
  }

  /** WordEnd is the one index its contract describes. */
  lemma {:induction false} WordEndUnique(s: string, m: nat)
    requires m <= |s|
    requires forall k :: 0 <= k < m ==> !IsSpace(s[k])
    requires m < |s| ==> IsSpace(s[m])
    ensures WordEnd(s) == m
  {
    if m > 0 {
      assert !IsSpace(s[0]);
      assert forall k :: 0 <= k < m - 1 ==> s[1..][k] == s[k + 1];
      WordEndUnique(s[1..], m - 1);
    }
  }

  /** A word that ends before the end of `x`, or runs up to a whitespace
      character placed after `x`, ends at the same place in the longer text. */
  lemma WordEndAppend(x: string, t: string)
    requires WordEnd(x) < |x| || (t != [] && IsSpace(t[0]))
    ensures WordEnd(x + t) == WordEnd(x)
  {
    var m := WordEnd(x);
    var s := x + t;
    assert forall k :: 0 <= k < m ==> s[k] == x[k];
    if m < |x| {
      assert s[m] == x[m];
    } else {
      assert s[m] == t[0];
    }
    WordEndUnique(s, m);
  }

  /** One whitespace character splits the text: the words around it are the
      words of each side. */
  lemma {:induction false} WordsSplitAtSpace(x: string, c: char, y: string)
    requires IsSpace(c)
    ensures Words(x + [c] + y) == Words(x) + Words(y)
    decreases |x|
  {
    var s := x + [c] + y;
    if x == [] {
      assert s[1..] == y;
    } else if IsSpace(x[0]) {
      assert s[1..] == x[1..] + [c] + y;
      WordsSplitAtSpace(x[1..], c, y);
    } else {
      var m := WordEnd(x);
      assert s == x + ([c] + y);
      WordEndAppend(x, [c] + y);
      assert s[..m] == x[..m];
      assert s[m..] == x[m..] + [c] + y;
      calc {
        Words(s);
        [x[..m]] + Words(x[m..] + [c] + y);
        { WordsSplitAtSpace(x[m..], c, y); }
        [x[..m]] + (Words(x[m..]) + Words(y));
        ([x[..m]] + Words(x[m..])) + Words(y);
      }
    }
  }

  /** The joined text holds the parts' characters plus one separator
      between each two neighbours. */
  lemma {:induction false} JoinLength(parts: seq<string>, sep: string)
    requires |parts| > 0
    ensures |Join(parts, sep)| == TotalLength(parts) + (|parts| - 1) * |sep|
  {
    if |parts| > 1 {
      JoinLength(parts[1..], sep);
      assert parts[1..][1..] == parts[2..];
    } else {
      assert parts[1..] == [];
    }
  }

  /** Splitting and re-joining on the same separator gives the text back. */
  lemma {:induction false} JoinSplitOn(s: string, sep: char)
    ensures Join(SplitOn(s, sep), [sep]) == s
  {
    if s != [] {
      var rest := SplitOn(s[1..], sep);
      JoinSplitOn(s[1..], sep);
      if s[0] != sep && |rest| > 1 {
        var parts := SplitOn(s, sep);
        assert parts[1..] == rest[1..];
        assert Join(parts, [sep]) == [s[0]] + rest[0] + [sep] + Join(rest[1..], [sep]);
      }
    }
  }

  /** Joining a list is joining a prefix, the separator, and the rest. */
  lemma {:induction false} JoinAt(parts: seq<string>, sep: string, m: nat)
    requires 0 < m < |parts|
    ensures Join(parts, sep) == Join(parts[..m], sep) + sep + Join(parts[m..], sep)
  {
    if m > 1 {
      JoinAt(parts[1..], sep, m - 1);
      assert parts[1..][..m - 1] == parts[..m][1..];
      assert parts[1..][m - 1..] == parts[m..];
    }
  }

  /** Every character of `t` is whitespace. */
  predicate AllSpace(t: string) {
    t == [] || (IsSpace(t[0]) && AllSpace(t[1..]))
  }

  /** `s.lstrip()`: drops leading whitespace (LStripDropsSpace: only that). */
  function LStrip(s: string): (r: string)
    ensures |r| <= |s| && r == s[|s| - |r|..]
    ensures r == [] || !IsSpace(r[0])
  {
    if s != [] && IsSpace(s[0]) then LStrip(s[1..]) else s
  }

  /** `s.rstrip()`: drops trailing whitespace (RStripDropsSpace: only that). */
  function RStrip(s: string): (r: string)
    ensures |r| <= |s| && r == s[..|r|]
    ensures r == [] || !IsSpace(r[|r| - 1])
  {
    if s != [] && IsSpace(s[|s| - 1]) then RStrip(s[..|s| - 1]) else s
  }

  lemma {:induction false} AllSpaceAppend(a: string, b: string)
    requires AllSpace(a) && AllSpace(b)
    ensures AllSpace(a + b)
  {
    if a != [] {
      AllSpaceAppend(a[1..], b);
      assert (a + b)[0] == a[0] && (a + b)[1..] == a[1..] + b;
    } else {
      assert a + b == b;
    }
  }

  /** What LStrip removes is whitespace. */
  lemma {:induction false} LStripDropsSpace(s: string)
    ensures AllSpace(s[..|s| - |LStrip(s)|])
  {
    if s != [] && IsSpace(s[0]) {
      var r := LStrip(s[1..]);
      var dropped := s[1..][..|s| - 1 - |r|];
      LStripDropsSpace(s[1..]);
      assert LStrip(s) == r;
      assert AllSpace([s[0]]) by { assert [s[0]][1..] == []; }
      AllSpaceAppend([s[0]], dropped);
      assert s[..|s| - |r|] == [s[0]] + dropped;
    }
  }

  /** What RStrip removes is whitespace. */
  lemma {:induction false} RStripDropsSpace(s: string)
    ensures AllSpace(s[|RStrip(s)|..])
  {
    if s != [] && IsSpace(s[|s| - 1]) {
      var r := RStrip(s[..|s| - 1]);
      RStripDropsSpace(s[..|s| - 1]);
      assert AllSpace([s[|s| - 1]]) by { assert [s[|s| - 1]][1..] == []; }
      AllSpaceAppend(s[..|s| - 1][|r|..], [s[|s| - 1]]);
      assert s[|r|..] == s[..|s| - 1][|r|..] + [s[|s| - 1]];
    }
  }

  /** `s.strip()`: what is left begins and ends with a non-whitespace
      character (what LStrip and RStrip remove is whitespace). */
  function Strip(s: string): (r: string)
    ensures |r| <= |s|
    ensures r == [] || (!IsSpace(r[0]) && !IsSpace(r[|r| - 1]))
  {
    var u := LStrip(s);
    var r := RStrip(u);
    assert r != [] ==> r[0] == u[0];
    r
  }

  /** Past a whitespace-only run, LStrip stops at the first other character. */
  lemma {:induction false} LStripAt(s: string, k: nat)
    requires k < |s| && AllSpace(s[..k]) && !IsSpace(s[k])
    ensures LStrip(s) == s[k..]
  {
    if k > 0 {
      assert s[..k][0] == s[0] && s[..k][1..] == s[1..][..k - 1];
      assert s[1..][k - 1] == s[k];
      LStripAt(s[1..], k - 1);
      assert s[1..][k - 1..] == s[k..];
    }
  }

  /** Strip of a text whose first non-whitespace character sits at `k`
      begins with that character. */
  lemma StripFirst(s: string, k: nat)
    requires k < |s| && AllSpace(s[..k]) && !IsSpace(s[k])
    ensures Strip(s) != [] && Strip(s)[0] == s[k]
  {
    LStripAt(s, k);
    var u := s[k..];
    RStripDropsSpace(u);
  }

  /** A whitespace-only text strips to nothing. */
  lemma {:induction false} StripAllSpace(s: string)
    requires AllSpace(s)
    ensures Strip(s) == []
  {
    if s != [] {
      StripAllSpace(s[1..]);
    }
  }
}
