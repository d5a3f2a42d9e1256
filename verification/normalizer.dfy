/** The text normalizer of `AutoComplete._clean_text` and the `split(" ")` that `train`
    applies to its result.

    Characters are Unicode scalar values. Lower-casing and the digit test are modelled on
    ASCII; whitespace is the code-point list that Python's `str.split()` splits on;
    punctuation is exactly Python's `string.punctuation`. */
module Normalizer {

  /* ---------------------------------------------------------------------------------
     Character classes
     --------------------------------------------------------------------------------- */

  /** ASCII upper-case letter: the characters `str.lower()` changes in this model. */
  predicate IsUpper(c: char)
  {
    'A' <= c <= 'Z'
  }

  /** ASCII decimal digit: the characters `str.isdigit()` accepts in this model. */
  predicate IsDigit(c: char)
  {
    '0' <= c <= '9'
  }

  /** Python's `string.punctuation`, the 32 ASCII characters
      !"#$%&'()*+,-./ :;<=>?@ [\]^_` {|}~ (the four runs between the digits and letters). */
  predicate IsPunctuation(c: char)
  {
    || '!' <= c <= '/'
    || ':' <= c <= '@'
    || '[' <= c <= '`'
    || '{' <= c <= '~'
  }

  /** The characters Python's `str.split()` (no argument) treats as separators. */
  predicate IsWhitespace(c: char)
  {
    var n := c as int;
    || n == 0x20
    || 0x09 <= n <= 0x0D
    || 0x1C <= n <= 0x1F
    || n == 0x85 || n == 0xA0 || n == 0x1680
    || 0x2000 <= n <= 0x200A
    || n == 0x2028 || n == 0x2029 || n == 0x202F || n == 0x205F || n == 0x3000
  }

  predicate IsNotPunctuation(c: char) { !IsPunctuation(c) }

  predicate IsNotDigit(c: char) { !IsDigit(c) }

  predicate IsNotWhitespace(c: char) { !IsWhitespace(c) }

  predicate IsNotSpace(c: char) { c != ' ' }

  /** A character that survives normalization as part of a word. */
  predicate IsWordChar(c: char)
  {
    !IsPunctuation(c) && !IsDigit(c) && !IsWhitespace(c)
  }

  /** A character that may appear in normalized text. */
  predicate IsCleanChar(c: char)
  {
    !IsUpper(c) && !IsPunctuation(c) && !IsDigit(c) && (IsWhitespace(c) ==> c == ' ')
  }

  function LowerChar(c: char): char
  {
    if IsUpper(c) then (c as int - 'A' as int + 'a' as int) as char else c
  }

  /* ---------------------------------------------------------------------------------
     Sequence helpers
     --------------------------------------------------------------------------------- */

  /** The characters of `s` that satisfy `keep`, in their original order. */
  function Filter(s: string, keep: char -> bool): (r: string)
    ensures |r| <= |s|
    ensures forall c :: c in r ==> c in s && keep(c)
  {
    if s == [] then [] else (if keep(s[0]) then [s[0]] else []) + Filter(s[1..], keep)
  }

  /** The words of `ws` laid end to end. */
  function Concat(ws: seq<string>): string
  {
    if ws == [] then [] else ws[0] + Concat(ws[1..])
  }

  /** `" ".join(ws)`. */
  function JoinSpace(ws: seq<string>): string
  {
    if |ws| == 0 then []
    else if |ws| == 1 then ws[0]
    else ws[0] + " " + JoinSpace(ws[1..])
  }

  /** Text with no space at either end and never two spaces in a row. */
  predicate IsCollapsed(s: string)
  {
    && (|s| > 0 ==> s[0] != ' ' && s[|s| - 1] != ' ')
    && forall i :: 0 <= i < |s| - 1 && s[i] == ' ' ==> s[i + 1] != ' '
  }

  /** The shape of `_clean_text`'s output. */
  predicate IsClean(s: string)
  {
    (forall i :: 0 <= i < |s| ==> IsCleanChar(s[i])) && IsCollapsed(s)
  }

  /** A non-empty word containing no separator. */
  predicate IsWord(w: string)
  {
    |w| > 0 && forall i :: 0 <= i < |w| ==> !IsWhitespace(w[i])
  }

  /* ---------------------------------------------------------------------------------
     The pipeline of `_clean_text`
     --------------------------------------------------------------------------------- */

  /** Lower-casing, character by character. */
  function Lower(s: string): string
  {
    seq(|s|, i requires 0 <= i < |s| => LowerChar(s[i]))
  }

  /** Deletes every character of `string.punctuation`. */
  function RemovePunctuation(s: string): string
  {
    Filter(s, IsNotPunctuation)
  }

  /** Deletes every digit. */
  function RemoveDigits(s: string): string
  {
    Filter(s, IsNotDigit)
  }

  /** `str.split()` with the current, not yet finished word `cur` carried along. */
  function SplitWords(s: string, cur: string): seq<string>
    decreases |s|
  {
    if s == [] then (if cur == [] then [] else [cur])
    else if IsWhitespace(s[0]) then (if cur == [] then [] else [cur]) + SplitWords(s[1..], [])
    else SplitWords(s[1..], cur + [s[0]])
  }

  /** `text.split()`: the maximal runs of non-whitespace characters. */
  function Words(s: string): seq<string>
  {
    SplitWords(s, [])
  }

  /** Splits on runs of whitespace and rejoins the words with single spaces, which also
      drops whitespace at either end. */
  function Collapse(s: string): string
  {
    JoinSpace(Words(s))
  }

  /** `_clean_text` (core/autocomplete.py:43-49). */
  function CleanText(text: string): (r: string)
    ensures IsClean(r)
    ensures Filter(r, IsNotSpace) == Filter(Lower(text), IsWordChar)
  {
    CleanTextShape(text);
    Collapse(Strip(text))
  }

  /** Python's `s.split(" ")` with the current piece `cur` carried along. */
  function SplitOn(s: string, cur: string): (r: seq<string>)
    ensures |r| >= 1
    decreases |s|
  {
    if s == [] then [cur]
    else if s[0] == ' ' then [cur] + SplitOn(s[1..], [])
    else SplitOn(s[1..], cur + [s[0]])
  }

  /** `s.split(" ")`: the pieces hold no space and join back to `s`, which fixes them
      (`JoinSpaceSplitOn`); there is always at least one, and `"".split(" ")` is `[""]`. */
  function SplitOnSpace(s: string): (r: seq<string>)
    ensures |r| >= 1
    ensures JoinSpace(r) == s
    ensures forall k, i :: 0 <= k < |r| && 0 <= i < |r[k]| ==> r[k][i] != ' '
  {
    SplitOnRoundTrip(s, []);
    SplitOnPieces(s, []);
    SplitOn(s, [])
  }

  /** The token list `train` builds from raw text: the normalized text split on single
      spaces (core/autocomplete.py:192-193). */
  function Tokenize(text: string): (r: seq<string>)
    ensures |r| >= 1
    ensures JoinSpace(r) == CleanText(text)
    ensures forall k, i :: 0 <= k < |r| && 0 <= i < |r[k]| ==> r[k][i] != ' '
    ensures r == [""] <==> CleanText(text) == ""
  {
    SplitOnSpace(CleanText(text))
  }

  /* ---------------------------------------------------------------------------------
     Lemmas about the helpers
     --------------------------------------------------------------------------------- */

  lemma {:induction false} FilterAppend(a: string, b: string, keep: char -> bool)
    ensures Filter(a + b, keep) == Filter(a, keep) + Filter(b, keep)
    decreases |a|
  {
    if a == [] {
      assert a + b == b;
    } else {
      assert (a + b)[0] == a[0];
      assert (a + b)[1..] == a[1..] + b;
      FilterAppend(a[1..], b, keep);
    }
  }

  /** Filtering twice is filtering once by the conjunction. */
  lemma {:induction false} FilterFilter(s: string, p: char -> bool, q: char -> bool, both: char -> bool)
    requires forall c :: both(c) == (p(c) && q(c))
    ensures Filter(Filter(s, p), q) == Filter(s, both)
    decreases |s|
  {
    if s != [] {
      FilterFilter(s[1..], p, q, both);
      var head := if p(s[0]) then [s[0]] else [];
      FilterAppend(head, Filter(s[1..], p), q);
      if p(s[0]) {
        assert Filter(head, q) == (if q(s[0]) then [s[0]] else []) by {
          assert head[1..] == [];
        }
      }
    }
  }

  /** Filtering by a test every character passes changes nothing. */
  lemma {:induction false} FilterAll(s: string, keep: char -> bool)
    requires forall i :: 0 <= i < |s| ==> keep(s[i])
    ensures Filter(s, keep) == s
    decreases |s|
  {
    if s != [] {
      FilterAll(s[1..], keep);
    }
  }

  lemma {:induction false} ConcatAppend(a: seq<string>, b: seq<string>)
    ensures Concat(a + b) == Concat(a) + Concat(b)
    decreases |a|
  {
    if a == [] {
      assert a + b == b;
    } else {
      assert (a + b)[1..] == a[1..] + b;
      ConcatAppend(a[1..], b);
    }
  }

  /** `str.split()` yields non-empty words without separators. */
  lemma {:induction false} SplitWordsAreWords(s: string, cur: string)
    requires forall i :: 0 <= i < |cur| ==> !IsWhitespace(cur[i])
    ensures forall k :: 0 <= k < |SplitWords(s, cur)| ==> IsWord(SplitWords(s, cur)[k])
    decreases |s|
  {
    if s != [] && IsWhitespace(s[0]) {
      SplitWordsAreWords(s[1..], []);
      var tail := SplitWords(s[1..], []);
      if cur != [] {
        assert SplitWords(s, cur) == [cur] + tail;
        forall k | 0 <= k < |[cur] + tail|
          ensures IsWord(([cur] + tail)[k])
        {
          if k > 0 {
            assert ([cur] + tail)[k] == tail[k - 1];
          }
        }
      } else {
        assert SplitWords(s, cur) == tail;
      }
    } else if s != [] {
      SplitWordsAreWords(s[1..], cur + [s[0]]);
    }
  }

  /** The words of `str.split()` laid end to end are the input without its whitespace. */
  lemma {:induction false} SplitWordsConcat(s: string, cur: string)
    ensures Concat(SplitWords(s, cur)) == cur + Filter(s, IsNotWhitespace)
    decreases |s|
  {
    if s == [] {
      PendingWord(cur);
    } else if IsWhitespace(s[0]) {
      SplitWordsConcat(s[1..], []);
      SplitWordsConcatSpace(s, cur);
    } else {
      SplitWordsConcat(s[1..], cur + [s[0]]);
      FilterKeepsHead(s, IsNotWhitespace);
    }
  }

  /** A kept first character leads the filtered text. */
  lemma FilterKeepsHead(s: string, keep: char -> bool)
    requires s != [] && keep(s[0])
    ensures Filter(s, keep) == [s[0]] + Filter(s[1..], keep)
  {
  }

  /** The word pending at a separator contributes exactly its characters. */
  lemma PendingWord(cur: string)
    ensures Concat(if cur == [] then [] else [cur]) == cur
  {
    if cur != [] {
      assert Concat([cur]) == cur + Concat([cur][1..]);
    }
  }

  /** The whitespace step of `SplitWordsConcat`. */
  lemma SplitWordsConcatSpace(s: string, cur: string)
    requires s != [] && IsWhitespace(s[0])
    requires Concat(SplitWords(s[1..], [])) == Filter(s[1..], IsNotWhitespace)
    ensures Concat(SplitWords(s, cur)) == cur + Filter(s, IsNotWhitespace)
  {
    var head := if cur == [] then [] else [cur];
    ConcatAppend(head, SplitWords(s[1..], []));
    PendingWord(cur);
    assert Filter(s, IsNotWhitespace) == Filter(s[1..], IsNotWhitespace);
  }

  /** Every character of a single-space join is a space or a character of some word. */
  lemma {:induction false} JoinSpaceChars(ws: seq<string>)
    ensures forall c :: c in JoinSpace(ws) ==> c == ' ' || c in Concat(ws)
    decreases |ws|
  {
    if |ws| == 1 {
      assert Concat(ws) == ws[0] + Concat(ws[1..]);
    } else if |ws| > 1 {
      JoinSpaceChars(ws[1..]);
    }
  }

  /** Dropping the separators of a join gives the words laid end to end. */
  lemma {:induction false} JoinSpaceNonSpace(ws: seq<string>)
    requires forall k :: 0 <= k < |ws| ==> IsWord(ws[k])
    ensures Filter(JoinSpace(ws), IsNotSpace) == Concat(ws)
    decreases |ws|
  {
    if |ws| == 1 {
      FilterAll(ws[0], IsNotSpace);
      assert Concat(ws) == ws[0] + Concat(ws[1..]);
    } else if |ws| > 1 {
      JoinSpaceNonSpace(ws[1..]);
      FilterAll(ws[0], IsNotSpace);
      FilterAppend(ws[0], " ", IsNotSpace);
      FilterAppend(ws[0] + " ", JoinSpace(ws[1..]), IsNotSpace);
    }
  }

  /** A join of separator-free non-empty words has the collapsed shape. */
  lemma {:induction false} JoinSpaceCollapsed(ws: seq<string>)
    requires forall k :: 0 <= k < |ws| ==> IsWord(ws[k])
    ensures IsCollapsed(JoinSpace(ws))
    ensures |ws| > 0 ==> |JoinSpace(ws)| > 0
    decreases |ws|
  {
    if |ws| > 1 {
      JoinSpaceCollapsed(ws[1..]);
      var w, rest := ws[0], JoinSpace(ws[1..]);
      var j := w + " " + rest;
      assert IsWord(w);
      forall i | 0 <= i < |j| - 1 && j[i] == ' '
        ensures j[i + 1] != ' '
      {
        if i == |w| {
          assert j[i + 1] == rest[0];
        } else if i > |w| {
          assert j[i] == rest[i - |w| - 1];
          assert j[i + 1] == rest[i - |w|];
        }
      }
      assert j[|j| - 1] == rest[|rest| - 1];
    }
  }

  /** Splitting collapsed text on whitespace and joining with single spaces gives it back. */
  lemma {:induction false} CollapsedRoundTrip(s: string, cur: string)
    requires forall i :: 0 <= i < |cur| ==> !IsWhitespace(cur[i])
    requires forall i :: 0 <= i < |s| && IsWhitespace(s[i]) ==> s[i] == ' '
    requires |s| > 0 ==> s[|s| - 1] != ' '
    requires cur == [] && |s| > 0 ==> s[0] != ' '
    requires forall i :: 0 <= i < |s| - 1 && s[i] == ' ' ==> s[i + 1] != ' '
    ensures JoinSpace(SplitWords(s, cur)) == cur + s
    decreases |s|
  {
    if s == [] {
    } else if IsWhitespace(s[0]) {
      assert s[0] == ' ' && cur != [];
      var rest := s[1..];
      assert rest[0] == s[1];
      CollapsedRoundTrip(rest, []);
      var tail := SplitWords(rest, []);
      assert |tail| > 0;
      assert SplitWords(s, cur) == [cur] + tail;
      assert ([cur] + tail)[1..] == tail;
      assert cur + s == cur + " " + rest;
    } else {
      CollapsedRoundTrip(s[1..], cur + [s[0]]);
      assert cur + [s[0]] + s[1..] == cur + s;
    }
  }

  predicate IsNotPunctuationOrDigit(c: char) { !IsPunctuation(c) && !IsDigit(c) }

  /** Removing punctuation, then digits, then whitespace keeps exactly the word characters. */
  lemma StrippedWordChars(lowered: string)
    ensures Filter(RemoveDigits(RemovePunctuation(lowered)), IsNotWhitespace) == Filter(lowered, IsWordChar)
  {
    FilterFilter(lowered, IsNotPunctuation, IsNotDigit, IsNotPunctuationOrDigit);
    FilterFilter(lowered, IsNotPunctuationOrDigit, IsNotWhitespace, IsWordChar);
  }

  /** Every character of a join of the words of `stripped` is a space or a word character
      of `lowered`. */
  lemma CollapseChars(lowered: string)
    ensures forall c :: c in Collapse(RemoveDigits(RemovePunctuation(lowered))) ==>
              c == ' ' || (c in lowered && IsWordChar(c))
  {
    var stripped := RemoveDigits(RemovePunctuation(lowered));
    var ws := Words(stripped);
    SplitWordsConcat(stripped, []);
    JoinSpaceChars(ws);
    StrippedWordChars(lowered);
  }

  lemma LowerHasNoUpper(text: string)
    ensures forall c :: c in Lower(text) ==> !IsUpper(c)
  {
    forall c | c in Lower(text)
      ensures !IsUpper(c)
    {
      var j :| 0 <= j < |text| && Lower(text)[j] == c;
    }
  }

  lemma CollapseCleanChars(text: string)
    ensures var r := Collapse(RemoveDigits(RemovePunctuation(Lower(text))));
            forall i :: 0 <= i < |r| ==> IsCleanChar(r[i])
  {
    var r := Collapse(RemoveDigits(RemovePunctuation(Lower(text))));
    CollapseChars(Lower(text));
    LowerHasNoUpper(text);
    assert !IsPunctuation(' ');
    forall i | 0 <= i < |r|
      ensures IsCleanChar(r[i])
    {
      assert r[i] in r;
    }
  }

  /** The properties that `CleanText` promises, proved for the composed pipeline. */
  lemma CleanTextShape(text: string)
    ensures IsClean(Collapse(RemoveDigits(RemovePunctuation(Lower(text)))))
    ensures Filter(Collapse(RemoveDigits(RemovePunctuation(Lower(text)))), IsNotSpace)
         == Filter(Lower(text), IsWordChar)
  {
    var stripped := RemoveDigits(RemovePunctuation(Lower(text)));
    var ws := Words(stripped);
    SplitWordsAreWords(stripped, []);
    SplitWordsConcat(stripped, []);
    JoinSpaceCollapsed(ws);
    JoinSpaceNonSpace(ws);
    StrippedWordChars(Lower(text));
    CollapseCleanChars(text);
  }

  /* ---------------------------------------------------------------------------------
     Properties of the normalizer
     --------------------------------------------------------------------------------- */

  /** Already-normalized text is a fixed point, and only normalized text is. */
  lemma CleanTextFixedPoint(s: string)
    ensures CleanText(s) == s <==> IsClean(s)
  {
    if IsClean(s) {
      assert Lower(s) == s;
      FilterAll(s, IsNotPunctuation);
      FilterAll(s, IsNotDigit);
      CollapsedRoundTrip(s, []);
    }
  }

  /** `_clean_text` is idempotent. */
  lemma CleanTextIdempotent(text: string)
    ensures CleanText(CleanText(text)) == CleanText(text)
  {
    CleanTextFixedPoint(CleanText(text));
  }

  /** `" ".join(s.split(" "))` is `s` for every string. */
  lemma {:induction false} SplitOnRoundTrip(s: string, cur: string)
    ensures JoinSpace(SplitOn(s, cur)) == cur + s
    decreases |s|
  {
    if s == [] {
    } else if s[0] == ' ' {
      SplitOnRoundTrip(s[1..], []);
      var tail := SplitOn(s[1..], []);
      assert ([cur] + tail)[1..] == tail;
      assert cur + s == cur + " " + s[1..];
    } else {
      SplitOnRoundTrip(s[1..], cur + [s[0]]);
      assert cur + [s[0]] + s[1..] == cur + s;
    }
  }

  /** No piece of a split holds a space. */
  lemma {:induction false} SplitOnPieces(s: string, cur: string)
    requires forall i :: 0 <= i < |cur| ==> cur[i] != ' '
    ensures forall k, i :: 0 <= k < |SplitOn(s, cur)| && 0 <= i < |SplitOn(s, cur)[k]| ==>
              SplitOn(s, cur)[k][i] != ' '
    decreases |s|
  {
    if s == [] {
    } else if s[0] == ' ' {
      SplitOnPieces(s[1..], []);
      assert SplitOn(s, cur) == [cur] + SplitOn(s[1..], []);
    } else {
      SplitOnPieces(s[1..], cur + [s[0]]);
    }
  }

  lemma {:induction false} SplitOnWord(w: string, rest: string, cur: string)
    requires forall i :: 0 <= i < |w| ==> w[i] != ' '
    ensures SplitOn(w + rest, cur) == SplitOn(rest, cur + w)
    decreases |w|
  {
    if w != [] {
      assert (w + rest)[0] == w[0];
      assert (w + rest)[1..] == w[1..] + rest;
      SplitOnWord(w[1..], rest, cur + [w[0]]);
      assert cur + [w[0]] + w[1..] == cur + w;
    } else {
      assert w + rest == rest;
      assert cur + w == cur;
    }
  }

  /** `(" ".join(ws)).split(" ")` is `ws` when `ws` is non-empty and no word holds a space. */
  lemma {:induction false} JoinSpaceSplitOn(ws: seq<string>)
    requires |ws| > 0
    requires forall k, i :: 0 <= k < |ws| && 0 <= i < |ws[k]| ==> ws[k][i] != ' '
    ensures SplitOnSpace(JoinSpace(ws)) == ws
    decreases |ws|
  {
    if |ws| == 1 {
      SplitOnWord(ws[0], [], []);
      assert ws[0] + [] == ws[0];
    } else {
      JoinSpaceSplitOn(ws[1..]);
      var rest := JoinSpace(ws[1..]);
      assert ws[0] + " " + rest == ws[0] + (" " + rest);
      SplitOnWord(ws[0], " " + rest, []);
      assert (" " + rest)[1..] == rest;
      assert [] + ws[0] == ws[0];
      assert [ws[0]] + ws[1..] == ws;
    }
  }

  /** The tokens `train` works on: joined back they give the normalized text; they are the
      single empty token exactly when the normalized text is empty, and otherwise every token
      is a non-empty word of clean characters. */
  lemma TokenizeShape(text: string)
    ensures |Tokenize(text)| >= 1
    ensures JoinSpace(Tokenize(text)) == CleanText(text)
    ensures Tokenize(text) == [""] <==> CleanText(text) == ""
    ensures CleanText(text) != "" ==>
              forall k :: 0 <= k < |Tokenize(text)| ==>
                IsWord(Tokenize(text)[k])
                && forall i :: 0 <= i < |Tokenize(text)[k]| ==> IsCleanChar(Tokenize(text)[k][i])
  {
    var r := CleanText(text);
    SplitOnRoundTrip(r, []);
    var stripped := RemoveDigits(RemovePunctuation(Lower(text)));
    var ws := Words(stripped);
    assert r == JoinSpace(ws);
    if r != "" {
      SplitWordsAreWords(stripped, []);
      SplitWordsConcat(stripped, []);
      JoinSpaceChars(ws);
      assert |ws| > 0;
      forall k, i | 0 <= k < |ws| && 0 <= i < |ws[k]|
        ensures ws[k][i] != ' ' && IsCleanChar(ws[k][i])
      {
        assert IsWord(ws[k]);
        ConcatMember(ws, k, i);
        var c := ws[k][i];
        assert c in Concat(ws);
        CleanTextShape(text);
        JoinMember(ws, k, i);
        assert c in r;
        var j :| 0 <= j < |r| && r[j] == c;
      }
      JoinSpaceSplitOn(ws);
    }
  }

  lemma {:induction false} ConcatMember(ws: seq<string>, k: int, i: int)
    requires 0 <= k < |ws| && 0 <= i < |ws[k]|
    ensures ws[k][i] in Concat(ws)
    decreases |ws|
  {
    if k > 0 {
      ConcatMember(ws[1..], k - 1, i);
    }
  }

  lemma {:induction false} JoinMember(ws: seq<string>, k: int, i: int)
    requires 0 <= k < |ws| && 0 <= i < |ws[k]|
    ensures ws[k][i] in JoinSpace(ws)
    decreases |ws|
  {
    if k > 0 {
      JoinMember(ws[1..], k - 1, i);
    } else if |ws| > 1 {
      assert (ws[0] + " " + JoinSpace(ws[1..]))[i] == ws[0][i];
    }
  }

  lemma {:induction false} FilterEmpty(s: string, keep: char -> bool)
    ensures Filter(s, keep) == [] <==> forall i :: 0 <= i < |s| ==> !keep(s[i])
    decreases |s|
  {
    if s != [] {
      FilterEmpty(s[1..], keep);
      if forall i :: 0 <= i < |s| ==> !keep(s[i]) {
        assert forall i :: 0 <= i < |s[1..]| ==> !keep(s[1..][i]) by {
          forall i | 0 <= i < |s[1..]| ensures !keep(s[1..][i]) { assert s[1..][i] == s[i + 1]; }
        }
      } else if keep(s[0]) {
      } else {
        var i :| 0 <= i < |s| && keep(s[i]);
        assert s[1..][i - 1] == s[i];
      }
    }
  }

  /** Collapsed text with no character other than spaces is empty. */
  lemma CollapsedWithoutWordsIsEmpty(r: string)
    requires IsCollapsed(r)
    requires Filter(r, IsNotSpace) == []
    ensures r == []
  {
    FilterEmpty(r, IsNotSpace);
  }

  /** Lower-casing changes no character's membership in the word characters. */
  lemma LowerNoWordChars(text: string)
    ensures Filter(Lower(text), IsWordChar) == [] <==> forall i :: 0 <= i < |text| ==> !IsWordChar(text[i])
  {
    FilterEmpty(Lower(text), IsWordChar);
    forall i | 0 <= i < |text|
      ensures IsWordChar(Lower(text)[i]) == IsWordChar(text[i])
    {
      var c := text[i];
      if IsUpper(c) {
        assert IsWordChar(LowerChar(c)) && IsWordChar(c);
      }
    }
  }

  /** `train` sees the single empty token exactly when the text has no word character:
      nothing but punctuation, digits and whitespace. */
  lemma TokenizeSingleEmpty(text: string)
    ensures Tokenize(text) == [""] <==> forall i :: 0 <= i < |text| ==> !IsWordChar(text[i])
  {
    var r := CleanText(text);
    TokenizeShape(text);
    LowerNoWordChars(text);
    if Filter(r, IsNotSpace) == [] {
      CollapsedWithoutWordsIsEmpty(r);
    }
  }

  /* ---------------------------------------------------------------------------------
     Where the separators go
     --------------------------------------------------------------------------------- */

  /** The first three stages of `_clean_text`: lower-case, then drop punctuation and digits. */
  function Strip(text: string): string
  {
    RemoveDigits(RemovePunctuation(Lower(text)))
  }

  lemma LowerAppend(a: string, b: string)
    ensures Lower(a + b) == Lower(a) + Lower(b)
  {
    var l, r := Lower(a + b), Lower(a) + Lower(b);
    forall i | 0 <= i < |l|
      ensures l[i] == r[i]
    {
      if i < |a| {
        assert (a + b)[i] == a[i];
      } else {
        assert (a + b)[i] == b[i - |a|];
      }
    }
  }

  /** The first three stages act character by character. */
  lemma StripAppend(a: string, b: string)
    ensures Strip(a + b) == Strip(a) + Strip(b)
  {
    LowerAppend(a, b);
    FilterAppend(Lower(a), Lower(b), IsNotPunctuation);
    FilterAppend(RemovePunctuation(Lower(a)), RemovePunctuation(Lower(b)), IsNotDigit);
  }

  /** A whitespace character survives the first three stages unchanged. */
  lemma StripWhitespace(c: char)
    requires IsWhitespace(c)
    ensures Strip([c]) == [c]
  {
    assert Lower([c]) == [c];
    assert Filter([c], IsNotPunctuation) == [c] + Filter([], IsNotPunctuation);
    assert Filter([c], IsNotDigit) == [c] + Filter([], IsNotDigit);
  }

  /** `str.split()` cuts at every whitespace character. */
  lemma {:induction false} SplitWordsAt(a: string, c: char, b: string, cur: string)
    requires IsWhitespace(c)
    ensures SplitWords(a + [c] + b, cur) == SplitWords(a, cur) + SplitWords(b, [])
    decreases |a|
  {
    if a == [] {
      assert a + [c] + b == [c] + b;
      assert ([c] + b)[1..] == b;
    } else {
      assert (a + [c] + b)[0] == a[0];
      assert (a + [c] + b)[1..] == a[1..] + [c] + b;
      if IsWhitespace(a[0]) {
        SplitWordsAt(a[1..], c, b, []);
      } else {
        SplitWordsAt(a[1..], c, b, cur + [a[0]]);
      }
    }
  }

  /** Text without whitespace is one word, or none when it is empty. */
  lemma {:induction false} SplitWordsSolid(s: string, cur: string)
    requires forall i :: 0 <= i < |s| ==> !IsWhitespace(s[i])
    ensures SplitWords(s, cur) == if cur + s == [] then [] else [cur + s]
    decreases |s|
  {
    if s == [] {
      assert cur + s == cur;
    } else {
      SplitWordsSolid(s[1..], cur + [s[0]]);
      assert cur + [s[0]] + s[1..] == cur + s;
    }
  }

  /** Joining two non-empty lists puts one space between their joins. */
  lemma {:induction false} JoinSpaceAppend(u: seq<string>, v: seq<string>)
    requires u != [] && v != []
    ensures JoinSpace(u + v) == JoinSpace(u) + " " + JoinSpace(v)
    decreases |u|
  {
    if |u| == 1 {
      assert (u + v)[0] == u[0] && (u + v)[1..] == v;
    } else {
      assert (u + v)[0] == u[0] && (u + v)[1..] == u[1..] + v;
      JoinSpaceAppend(u[1..], v);
    }
  }

  /** A join whose first word is non-empty is non-empty. */
  lemma JoinSpaceNonEmpty(u: seq<string>)
    requires u != [] && u[0] != []
    ensures JoinSpace(u) != []
  {
    if |u| > 1 {
      assert |JoinSpace(u)| >= |u[0]|;
    }
  }

  /** Normalized text is empty exactly when its stripped text has no word. */
  lemma CleanTextEmpty(x: string)
    ensures CleanText(x) == [] <==> Words(Strip(x)) == []
  {
    var u := Words(Strip(x));
    if u != [] {
      SplitWordsAreWords(Strip(x), []);
      assert IsWord(u[0]);
      JoinSpaceNonEmpty(u);
    }
  }

  /** Within a run of non-whitespace characters, `_clean_text` keeps exactly the word
      characters, lower-cased and in order. */
  lemma CleanTextSolid(x: string)
    requires forall i :: 0 <= i < |x| ==> !IsWhitespace(x[i])
    ensures CleanText(x) == Filter(Lower(x), IsWordChar)
  {
    var s := Strip(x);
    forall i | 0 <= i < |s|
      ensures !IsWhitespace(s[i])
    {
      assert s[i] in s;
      assert s[i] in Lower(x);
      var j :| 0 <= j < |x| && Lower(x)[j] == s[i];
    }
    SplitWordsSolid(s, []);
    assert [] + s == s;
    FilterAll(s, IsNotWhitespace);
    StrippedWordChars(Lower(x));
  }

  /** Every whitespace character is a word boundary: the two sides are normalized on their
      own and joined by exactly one space, or by nothing when either side normalizes to
      the empty text. With `CleanTextSolid` this fixes `_clean_text` on every string. */
  lemma CleanTextSplitsAtWhitespace(x: string, c: char, y: string)
    requires IsWhitespace(c)
    ensures CleanText(x + [c] + y)
         == if CleanText(x) != [] && CleanText(y) != [] then CleanText(x) + " " + CleanText(y)
            else CleanText(x) + CleanText(y)
  {
    StripAppend(x + [c], y);
    StripAppend(x, [c]);
    StripWhitespace(c);
    SplitWordsAt(Strip(x), c, Strip(y), []);
    var u, v := Words(Strip(x)), Words(Strip(y));
    assert Words(Strip(x + [c] + y)) == u + v;
    CleanTextEmpty(x);
    CleanTextEmpty(y);
    if u != [] && v != [] {
      JoinSpaceAppend(u, v);
    } else if u == [] {
      assert u + v == v;
    } else {
      assert u + v == u;
    }
  }

  /** The word characters of each word, lower-cased. */
  function CleanWords(ws: seq<string>): (r: seq<string>)
    ensures |r| == |ws|
  {
    seq(|ws|, k requires 0 <= k < |ws| => Filter(Lower(ws[k]), IsWordChar))
  }

  /** Text made of whitespace-free words, each holding a word character, joined by single
      spaces, normalizes to the join of the cleaned words. */
  lemma {:induction false} CleanTextJoin(ws: seq<string>)
    requires forall k, i :: 0 <= k < |ws| && 0 <= i < |ws[k]| ==> !IsWhitespace(ws[k][i])
    requires forall k :: 0 <= k < |ws| ==> Filter(Lower(ws[k]), IsWordChar) != []
    ensures CleanText(JoinSpace(ws)) == JoinSpace(CleanWords(ws))
    decreases |ws|
  {
    if |ws| == 0 {
      assert Strip([]) == [];
    } else if |ws| == 1 {
      CleanTextSolid(ws[0]);
    } else {
      CleanTextJoin(ws[1..]);
      CleanTextSolid(ws[0]);
      CleanTextJoinStep(ws);
    }
  }

  /** The join of the cleaned words, split at its first separator. */
  lemma CleanWordsJoinHead(ws: seq<string>)
    requires |ws| > 1
    requires Filter(Lower(ws[1]), IsWordChar) != []
    ensures JoinSpace(CleanWords(ws)) == Filter(Lower(ws[0]), IsWordChar) + " " + JoinSpace(CleanWords(ws[1..]))
    ensures JoinSpace(CleanWords(ws[1..])) != []
  {
    var cw, cr := CleanWords(ws), CleanWords(ws[1..]);
    assert cw[1..] == cr;
    assert cr[0] == Filter(Lower(ws[1]), IsWordChar);
    JoinSpaceNonEmpty(cr);
  }

  /** The inductive step of `CleanTextJoin`: the first separator is a word boundary. */
  lemma CleanTextJoinStep(ws: seq<string>)
    requires |ws| > 1
    requires CleanText(ws[0]) == Filter(Lower(ws[0]), IsWordChar) != []
    requires Filter(Lower(ws[1]), IsWordChar) != []
    requires CleanText(JoinSpace(ws[1..])) == JoinSpace(CleanWords(ws[1..]))
    ensures CleanText(JoinSpace(ws)) == JoinSpace(CleanWords(ws))
  {
    assert JoinSpace(ws) == ws[0] + [' '] + JoinSpace(ws[1..]);
    CleanWordsJoinHead(ws);
    CleanTextSplitsAtWhitespace(ws[0], ' ', JoinSpace(ws[1..]));
  }

  /** The tokens of such text are exactly the cleaned words. */
  lemma TokenizeJoin(ws: seq<string>)
    requires |ws| > 0
    requires forall k, i :: 0 <= k < |ws| && 0 <= i < |ws[k]| ==> !IsWhitespace(ws[k][i])
    requires forall k :: 0 <= k < |ws| ==> Filter(Lower(ws[k]), IsWordChar) != []
    ensures Tokenize(JoinSpace(ws)) == CleanWords(ws)
  {
    CleanTextJoin(ws);
    var cw := CleanWords(ws);
    forall k, i | 0 <= k < |cw| && 0 <= i < |cw[k]|
      ensures cw[k][i] != ' '
    {
      assert cw[k][i] in cw[k];
    }
    JoinSpaceSplitOn(cw);
  }
}
