/**
 * `clean_text` of script.py: a title reduced to ASCII letters, with words
 * separated by single spaces.
 */
module TitleText {
  import opened PyStr

  predicate IsAsciiLetter(c: char) {
    'a' <= c <= 'z' || 'A' <= c <= 'Z'
  }

  predicate IsLetterWord(w: string) {
    |w| > 0 && forall k :: 0 <= k < |w| ==> IsAsciiLetter(w[k])
  }

  /** The shape of every cleaned title: letters and single spaces only,
      with no space at either end and never two spaces in a row. */
  predicate IsCleanTitle(r: string) {
    (forall k :: 0 <= k < |r| ==> IsAsciiLetter(r[k]) || r[k] == ' ') &&
    (|r| > 0 ==> r[0] != ' ' && r[|r| - 1] != ' ') &&
    (forall k :: 0 < k < |r| && r[k] == ' ' ==> r[k - 1] != ' ')
  }

  /** The ASCII letters of `s`, in order. */
  function Letters(s: string): (r: string)
    ensures |r| <= |s|
  {
    if s == [] then [] else (if IsAsciiLetter(s[0]) then [s[0]] else []) + Letters(s[1..])
  }

  /** `title.replace('-', ' ').replace('_', ' ')`: every hyphen and
      underscore becomes a space, every other character stays in place. */
  function SeparatorsToSpaces(title: string): (r: string)
    ensures |r| == |title|
    ensures forall k :: 0 <= k < |title| ==>
      r[k] == (if title[k] == '-' || title[k] == '_' then ' ' else title[k])
  {
    Replace(Replace(title, '-', ' '), '_', ' ')
  }

  /** `re.sub(r'[^a-zA-Z\s]', '', s)`: drop every character that is neither
      an ASCII letter nor whitespace. */
  function DropNonLetters(s: string): (r: string)
    ensures |r| <= |s|
    ensures forall k :: 0 <= k < |r| ==> IsAsciiLetter(r[k]) || IsSpace(r[k])
    ensures |s| == 1 ==> r == (if IsAsciiLetter(s[0]) || IsSpace(s[0]) then s else [])
  {
    if s == [] then []
    else (if IsAsciiLetter(s[0]) || IsSpace(s[0]) then [s[0]] else []) + DropNonLetters(s[1..])
  }

  /** `clean_text(title)` */
  function CleanText(title: string): (r: string)
    ensures IsCleanTitle(r)
  {
    var ws := Words(DropNonLetters(SeparatorsToSpaces(title)));
    WordsOfLetters(DropNonLetters(SeparatorsToSpaces(title)));
    JoinLetterWords(ws);
    Join(ws, " ")
  }

  // ---------------------------------------------------------------------
  // The shape of the result

  /** In text made of letters and whitespace, every word is made of letters. */
  lemma {:induction false} WordsOfLetters(s: string)
    requires forall k :: 0 <= k < |s| ==> IsAsciiLetter(s[k]) || IsSpace(s[k])
    ensures forall i :: 0 <= i < |Words(s)| ==> IsLetterWord(Words(s)[i])
    decreases |s|
  {
    if s != [] {
      if IsSpace(s[0]) {
        WordsOfLetters(s[1..]);
      } else {
        var n := WordEnd(s);
        WordsOfLetters(s[n..]);
        assert forall k :: 0 <= k < n ==> s[..n][k] == s[k] && !IsSpace(s[k]);
      }
    }
  }

  /** Letter words joined by single spaces form a clean title that starts
      and ends with a letter. */
  lemma {:induction false} JoinLetterWords(ws: seq<string>)
    requires forall i :: 0 <= i < |ws| ==> IsLetterWord(ws[i])
    ensures IsCleanTitle(Join(ws, " "))
    ensures |ws| > 0 ==> |Join(ws, " ")| > 0 && IsAsciiLetter(Join(ws, " ")[0])
  {
    if |ws| > 1 {
      var rest := Join(ws[1..], " ");
      JoinLetterWords(ws[1..]);
      var r := ws[0] + " " + rest;
      assert Join(ws, " ") == r;
      var n := |ws[0]|;
      assert IsLetterWord(ws[0]);
      forall k | 0 <= k < |r|
        ensures IsAsciiLetter(r[k]) || r[k] == ' '
      {
        if k > n { assert r[k] == rest[k - n - 1]; }
      }
      forall k | 0 < k < |r| && r[k] == ' '
        ensures r[k - 1] != ' '
      {
        if k > n + 1 { assert r[k] == rest[k - n - 1] && r[k - 1] == rest[k - n - 2]; }
      }
      assert r[|r| - 1] == rest[|rest| - 1];
    }
  }

  // ---------------------------------------------------------------------
  // Clean titles are exactly the fixed points

  lemma {:induction false} ReplaceAbsent(s: string, from: char, to: char)
    requires from !in s
    ensures Replace(s, from, to) == s
  {
  }

  lemma {:induction false} DropNonLettersKeeps(s: string)
    requires forall k :: 0 <= k < |s| ==> IsAsciiLetter(s[k]) || IsSpace(s[k])
    ensures DropNonLetters(s) == s
  {
    if s != [] {
      DropNonLettersKeeps(s[1..]);
    }
  }

  /** After a space inside a clean title comes another clean title that
      starts with a letter. */
  lemma CleanAfterSpace(r: string, n: nat)
    requires IsCleanTitle(r) && n < |r| && r[n] == ' '
    ensures n + 1 < |r| && IsAsciiLetter(r[n + 1])
    ensures IsCleanTitle(r[n + 1..])
  {
    var tail := r[n + 1..];
    assert r[n + 1] != ' ';
    forall k | 0 < k < |tail| && tail[k] == ' '
      ensures tail[k - 1] != ' '
    {
      assert tail[k] == r[n + 1 + k] && tail[k - 1] == r[n + k];
    }
  }

  /** Splitting a clean title into words and joining them back is the identity. */
  lemma {:induction false} CleanWordsJoin(r: string)
    requires IsCleanTitle(r)
    ensures Join(Words(r), " ") == r
    decreases |r|
  {
    if r != [] {
      var n := WordEnd(r);
      assert n > 0 by {
        assert IsAsciiLetter(r[0]);
      }
      assert IsWord(r[..n]) by {
        assert forall k :: 0 <= k < n ==> r[..n][k] == r[k];
      }
      WordsOfWord(r[..n]);
      if n == |r| {
        assert r[..n] == r;
      } else {
        var tail := r[n + 1..];
        CleanAfterSpace(r, n);
        assert r == r[..n] + [' '] + tail;
        WordsSplitAtSpace(r[..n], ' ', tail);
        CleanWordsJoin(tail);
        assert Words(tail) != [];
      }
    }
  }

  /** A clean title is left unchanged by `clean_text`. */
  lemma CleanTitleIsFixpoint(r: string)
    requires IsCleanTitle(r)
    ensures CleanText(r) == r
  {
    ReplaceAbsent(r, '-', ' ');
    ReplaceAbsent(r, '_', ' ');
    DropNonLettersKeeps(r);
    CleanWordsJoin(r);
  }

  /** `clean_text` is idempotent. */
  lemma CleanTextIdempotent(title: string)
    ensures CleanText(CleanText(title)) == CleanText(title)
  {
    CleanTitleIsFixpoint(CleanText(title));
  }

  // ---------------------------------------------------------------------
  // Which characters survive, and which separate words

  lemma {:induction false} LettersAppend(a: string, b: string)
    ensures Letters(a + b) == Letters(a) + Letters(b)
  {
    if a == [] {
      assert a + b == b;
    } else {
      var head := if IsAsciiLetter(a[0]) then [a[0]] else [];
      assert (a + b)[0] == a[0] && (a + b)[1..] == a[1..] + b;
      LettersAppend(a[1..], b);
      calc {
        Letters(a + b);
        head + Letters(a[1..] + b);
        head + (Letters(a[1..]) + Letters(b));
        (head + Letters(a[1..])) + Letters(b);
      }
    }
  }

  lemma {:induction false} DropNonLettersAppend(a: string, b: string)
    ensures DropNonLetters(a + b) == DropNonLetters(a) + DropNonLetters(b)
  {
    if a == [] {
      assert a + b == b;
    } else {
      assert (a + b)[1..] == a[1..] + b;
      DropNonLettersAppend(a[1..], b);
    }
  }

  /** Splitting on whitespace and joining with spaces keeps the letters. */
  lemma {:induction false} WordsJoinKeepsLetters(s: string)
    ensures Letters(Join(Words(s), " ")) == Letters(s)
    decreases |s|
  {
    if s != [] {
      if IsSpace(s[0]) {
        assert s == [s[0]] + s[1..];
        LettersAppend([s[0]], s[1..]);
        WordsJoinKeepsLetters(s[1..]);
      } else {
        var n := WordEnd(s);
        var rest := Words(s[n..]);
        assert Words(s) == [s[..n]] + rest;
        if rest != [] {
          assert Letters(" ") == [];
          calc {
            Letters(Join(Words(s), " "));
            Letters(s[..n] + " " + Join(rest, " "));
            { LettersAppend(s[..n] + " ", Join(rest, " ")); LettersAppend(s[..n], " "); }
            Letters(s[..n]) + Letters(Join(rest, " "));
            { WordsJoinKeepsLetters(s[n..]); }
            Letters(s[..n]) + Letters(s[n..]);
            { LettersAppend(s[..n], s[n..]); assert s == s[..n] + s[n..]; }
            Letters(s);
          }
        } else {
          WordsJoinKeepsLetters(s[n..]);
          LettersAppend(s[..n], s[n..]);
          assert s == s[..n] + s[n..];
        }
      }
    }
  }

  lemma {:induction false} DropNonLettersKeepsLetters(s: string)
    ensures Letters(DropNonLetters(s)) == Letters(s)
  {
    if s != [] {
      DropNonLettersKeepsLetters(s[1..]);
      assert s == [s[0]] + s[1..];
      DropNonLettersAppend([s[0]], s[1..]);
      LettersAppend(DropNonLetters([s[0]]), DropNonLetters(s[1..]));
      LettersAppend([s[0]], s[1..]);
    }
  }

  lemma {:induction false} ReplaceKeepsLetters(s: string, from: char)
    requires !IsAsciiLetter(from)
    ensures Letters(Replace(s, from, ' ')) == Letters(s)
  {
    if s != [] {
      ReplaceKeepsLetters(s[1..], from);
      assert s == [s[0]] + s[1..];
      ReplaceAppend([s[0]], s[1..], from, ' ');
      LettersAppend(Replace([s[0]], from, ' '), Replace(s[1..], from, ' '));
      LettersAppend([s[0]], s[1..]);
    }
  }

  /** `clean_text` keeps every ASCII letter of its input, in order, and
      (with IsCleanTitle) adds nothing but single spaces between them. */
  lemma CleanTextKeepsLetters(title: string)
    ensures Letters(CleanText(title)) == Letters(title)
  {
    var sep := SeparatorsToSpaces(title);
    ReplaceKeepsLetters(title, '-');
    ReplaceKeepsLetters(Replace(title, '-', ' '), '_');
    DropNonLettersKeepsLetters(sep);
    WordsJoinKeepsLetters(DropNonLetters(sep));
  }

  lemma SeparatorsToSpacesAppend(a: string, b: string)
    ensures SeparatorsToSpaces(a + b) == SeparatorsToSpaces(a) + SeparatorsToSpaces(b)
  {
    ReplaceAppend(a, b, '-', ' ');
    ReplaceAppend(Replace(a, '-', ' '), Replace(b, '-', ' '), '_', ' ');
  }

  /** `-` and `_` separate words exactly as a space does. */
  lemma CleanTextSeparator(x: string, c: char, y: string)
    requires c == '-' || c == '_'
    ensures CleanText(x + [c] + y) == CleanText(x + " " + y)
  {
    SeparatorsToSpacesAppend(x + [c], y);
    SeparatorsToSpacesAppend(x, [c]);
    SeparatorsToSpacesAppend(x + " ", y);
    SeparatorsToSpacesAppend(x, " ");
    assert SeparatorsToSpaces([c]) == " " == SeparatorsToSpaces(" ");
  }

  /** Every other character that is neither a letter nor whitespace (digits,
      punctuation, non-ASCII letters) is deleted without separating words. */
  lemma CleanTextDeletes(x: string, c: char, y: string)
    requires !IsAsciiLetter(c) && !IsSpace(c) && c != '-' && c != '_'
    ensures CleanText(x + [c] + y) == CleanText(x + y)
  {
    SeparatorsToSpacesAppend(x + [c], y);
    SeparatorsToSpacesAppend(x, [c]);
    SeparatorsToSpacesAppend(x, y);
    var x2, y2 := SeparatorsToSpaces(x), SeparatorsToSpaces(y);
    assert SeparatorsToSpaces([c]) == [c];
    DropNonLettersAppend(x2 + [c], y2);
    DropNonLettersAppend(x2, [c]);
    DropNonLettersAppend(x2, y2);
    assert DropNonLetters([c]) == [];
    assert DropNonLetters(SeparatorsToSpaces(x + [c] + y)) == DropNonLetters(SeparatorsToSpaces(x + y));
  }

  /** Any whitespace character separates words exactly as a space does. */
  lemma CleanTextWhitespace(x: string, c: char, y: string)
    requires IsSpace(c)
    ensures CleanText(x + [c] + y) == CleanText(x + " " + y)
  {
    SeparatorsToSpacesAppend(x + [c], y);
    SeparatorsToSpacesAppend(x, [c]);
    SeparatorsToSpacesAppend(x + " ", y);
    SeparatorsToSpacesAppend(x, " ");
    var x2, y2 := SeparatorsToSpaces(x), SeparatorsToSpaces(y);
    assert SeparatorsToSpaces([c]) == [c] && SeparatorsToSpaces(" ") == " ";
    DropNonLettersAppend(x2 + [c], y2);
    DropNonLettersAppend(x2, [c]);
    DropNonLettersAppend(x2 + " ", y2);
    DropNonLettersAppend(x2, " ");
    var x3, y3 := DropNonLetters(x2), DropNonLetters(y2);
    assert DropNonLetters([c]) == [c] && DropNonLetters(" ") == " ";
    WordsSplitAtSpace(x3, c, y3);
    WordsSplitAtSpace(x3, ' ', y3);
  }
}
