/** The tokenizer `preprocess_text` (Assignment4.py:19-25): strip everything that is
  * neither a word character nor whitespace, lower-case, split on whitespace runs,
  * and emit the unigrams, then the space-joined bigrams, then the trigrams. */
module Tokenizer {
  import opened Collections

  /** The `\w` class of Python's regular expressions on the ASCII range. */
  predicate IsWordChar(c: char)
  {
    'a' <= c <= 'z' || 'A' <= c <= 'Z' || '0' <= c <= '9' || c == '_'
  }

  /** The `\s` class and `str.isspace` on the ASCII range: tab, line feed,
    * vertical tab, form feed, carriage return, the four information
    * separators and the space. */
  predicate IsSpace(c: char)
  {
    c == ' ' || '\t' <= c <= '\r' || 28 <= c as int <= 31
  }

  /** `str.lower` on the ASCII range. */
  function Lower(c: char): (l: char)
    ensures IsWordChar(c) ==> IsLowerWordChar(l)
    ensures IsSpace(l) <==> IsSpace(c)
  {
    if 'A' <= c <= 'Z' then (c as int + 32) as char else c
  }

  predicate IsLowerWordChar(c: char)
  {
    IsWordChar(c) && !('A' <= c <= 'Z')
  }

  predicate HasWordChar(s: string)
  {
    exists i :: 0 <= i < |s| && IsWordChar(s[i])
  }

  /** `re.sub(r"[^\w\s]", "", text)`. */
  function Strip(text: string): string
  {
    if text == [] then []
    else if IsWordChar(text[0]) || IsSpace(text[0]) then [text[0]] + Strip(text[1..])
    else Strip(text[1..])
  }

  /** `str.lower`. */
  function LowerCase(s: string): string
  {
    if s == [] then [] else [Lower(s[0])] + LowerCase(s[1..])
  }

  /** Line 20: the stripped, lower-cased text. */
  function Normalize(text: string): string
  {
    LowerCase(Strip(text))
  }

  /** Stripping keeps exactly the word and whitespace characters. */
  lemma {:induction false} StripChars(text: string)
    ensures forall c :: c in Strip(text) <==> c in text && (IsWordChar(c) || IsSpace(c))
  {
    if text != [] {
      StripChars(text[1..]);
      assert forall c :: c in text <==> c == text[0] || c in text[1..] by {
        assert text == [text[0]] + text[1..];
      }
    }
  }

  /** Stripping is a filter: it works character by character, keeping each word or
    * whitespace character, every occurrence of it, in its place in the text. */
  lemma {:induction false} StripAppend(a: string, b: string, c: char)
    ensures Strip(a + b) == Strip(a) + Strip(b)
    ensures Strip([c]) == if IsWordChar(c) || IsSpace(c) then [c] else []
  {
    assert [c][1..] == [];
    if a == [] {
      assert a + b == b;
    } else {
      assert (a + b)[0] == a[0] && (a + b)[1..] == a[1..] + b;
      StripAppend(a[1..], b, c);
    }
  }

  /** Lower-casing maps `Lower` over the characters. */
  lemma {:induction false} LowerCaseAt(s: string)
    ensures |LowerCase(s)| == |s|
    ensures forall i :: 0 <= i < |s| ==> LowerCase(s)[i] == Lower(s[i])
  {
    if s != [] {
      LowerCaseAt(s[1..]);
      assert forall i :: 1 <= i < |s| ==> LowerCase(s)[i] == LowerCase(s[1..])[i - 1];
    }
  }

  lemma StrippedWordChar(text: string)
    ensures HasWordChar(text) ==> exists j :: 0 <= j < |Strip(text)| && IsWordChar(Strip(text)[j])
  {
    var s := Strip(text);
    StripChars(text);
    if HasWordChar(text) {
      var k :| 0 <= k < |text| && IsWordChar(text[k]);
      assert text[k] in text;
      var j :| 0 <= j < |s| && s[j] == text[k];
    }
  }

  /** Every character of the normalized text is whitespace or a lower-case word
    * character, and it is all whitespace exactly when the text has no word
    * character. */
  lemma NormalizeShape(text: string)
    ensures var r := Normalize(text);
      forall i :: 0 <= i < |r| ==> IsSpace(r[i]) || IsLowerWordChar(r[i])
    ensures var r := Normalize(text);
      (forall i :: 0 <= i < |r| ==> IsSpace(r[i])) <==> !HasWordChar(text)
  {
    var s := Strip(text);
    StripChars(text);
    StrippedWordChar(text);
    LowerCaseAt(s);
    forall i | 0 <= i < |s| ensures IsSpace(s[i]) || IsWordChar(s[i]) {
      assert s[i] in s;
    }
  }

  /** The length of the maximal run of non-whitespace characters that starts `s`. */
  function WordLength(s: string): (n: nat)
    requires |s| > 0 && !IsSpace(s[0])
    ensures 1 <= n <= |s|
    ensures forall i :: 0 <= i < n ==> !IsSpace(s[i])
    ensures n == |s| || IsSpace(s[n])
  {
    if |s| == 1 || IsSpace(s[1]) then 1 else 1 + WordLength(s[1..])
  }

  /** `str.split()` with no separator: the maximal runs of non-whitespace characters. */
  function Split(s: string): (ws: seq<string>)
    decreases |s|
  {
    if s == [] then []
    else if IsSpace(s[0]) then Split(s[1..])
    else
      var n := WordLength(s);
      [s[..n]] + Split(s[n..])
  }

  /** `" ".join(ws)`. */
  function Join(ws: seq<string>): string
  {
    if ws == [] then []
    else if |ws| == 1 then ws[0]
    else ws[0] + " " + Join(ws[1..])
  }

  /** Line 23: `" ".join(pair) for pair in zip(words, words[1:])`. */
  function Bigrams(ws: seq<string>): seq<string>
  {
    if |ws| < 2 then [] else [Join([ws[0], ws[1]])] + Bigrams(ws[1..])
  }

  /** Line 24: `" ".join(triple) for triple in zip(words, words[1:], words[2:])`. */
  function Trigrams(ws: seq<string>): seq<string>
  {
    if |ws| < 3 then [] else [Join([ws[0], ws[1], ws[2]])] + Trigrams(ws[1..])
  }

  /** Lines 20-21: the words of the normalized text. */
  function Words(text: string): seq<string>
  {
    Split(Normalize(text))
  }

  /** `preprocess_text(text)`. */
  function Tokenize(text: string): seq<string>
  {
    var ws := Words(text);
    ws + Bigrams(ws) + Trigrams(ws)
  }

  // ---------------------------------------------------------------------------
  // Words and terms

  /** A word: non-empty, lower-case word characters only. */
  predicate IsWord(w: string)
  {
    |w| > 0 && forall i :: 0 <= i < |w| ==> IsLowerWordChar(w[i])
  }

  /** A term: non-empty, lower-case word characters and single separating spaces. */
  predicate IsTerm(t: string)
  {
    && |t| > 0
    && t[0] != ' '
    && t[|t| - 1] != ' '
    && (forall i :: 0 <= i < |t| ==> t[i] == ' ' || IsLowerWordChar(t[i]))
    && (forall i :: 0 <= i < |t| - 1 && t[i] == ' ' ==> t[i + 1] != ' ')
  }

  lemma {:induction false} SplitOfNormalized(s: string)
    requires forall i :: 0 <= i < |s| ==> IsSpace(s[i]) || IsLowerWordChar(s[i])
    ensures forall w :: w in Split(s) ==> IsWord(w)
    ensures Split(s) == [] <==> forall i :: 0 <= i < |s| ==> IsSpace(s[i])
    decreases |s|
  {
    if s == [] {
    } else if IsSpace(s[0]) {
      SplitOfNormalized(s[1..]);
      assert forall i :: 1 <= i < |s| ==> s[i] == s[1..][i - 1];
    } else {
      var n := WordLength(s);
      SplitOfNormalized(s[n..]);
      assert forall i :: 0 <= i < n ==> s[..n][i] == s[i];
    }
  }

  /** Every word produced from a text is a word in the sense of `IsWord`, and there
    * are no words exactly when the text has no word character. */
  lemma WordsShape(text: string)
    ensures forall w :: w in Words(text) ==> IsWord(w)
    ensures Words(text) == [] <==> !HasWordChar(text)
  {
    NormalizeShape(text);
    SplitOfNormalized(Normalize(text));
  }

  lemma {:induction false} WordLengthOfWord(w: string, rest: string)
    requires |w| > 0 && forall i :: 0 <= i < |w| ==> !IsSpace(w[i])
    requires rest == [] || IsSpace(rest[0])
    ensures WordLength(w + rest) == |w|
  {
    if |w| > 1 {
      assert (w + rest)[1..] == w[1..] + rest;
      WordLengthOfWord(w[1..], rest);
    }
  }

  lemma SplitWordThen(w: string, rest: string)
    requires |w| > 0 && forall i :: 0 <= i < |w| ==> !IsSpace(w[i])
    requires rest == [] || IsSpace(rest[0])
    ensures Split(w + rest) == [w] + Split(rest)
  {
    WordLengthOfWord(w, rest);
    assert (w + rest)[..|w|] == w;
    assert (w + rest)[|w|..] == rest;
  }

  /** Splitting undoes joining with single spaces: the partner of `Join`. */
  lemma {:induction false} SplitJoin(ws: seq<string>)
    requires forall k :: 0 <= k < |ws| ==> |ws[k]| > 0
    requires forall k, i :: 0 <= k < |ws| && 0 <= i < |ws[k]| ==> !IsSpace(ws[k][i])
    ensures Split(Join(ws)) == ws
  {
    if |ws| == 1 {
      SplitWordThen(ws[0], []);
      assert ws[0] + [] == ws[0];
    } else if |ws| > 1 {
      var tail := " " + Join(ws[1..]);
      assert Join(ws) == ws[0] + tail;
      SplitWordThen(ws[0], tail);
      assert tail[1..] == Join(ws[1..]);
      SplitJoin(ws[1..]);
    }
  }

  lemma ConsTerm(w: string, t: string)
    requires IsWord(w) && IsTerm(t)
    ensures IsTerm(w + " " + t)
  {
    var u := w + " " + t;
    assert forall i :: 0 <= i < |w| ==> u[i] == w[i];
    assert u[|w|] == ' ';
    assert forall i :: |w| < i < |u| ==> u[i] == t[i - |w| - 1];
  }

  lemma {:induction false} JoinIsTerm(ws: seq<string>)
    requires |ws| > 0 && forall k :: 0 <= k < |ws| ==> IsWord(ws[k])
    ensures IsTerm(Join(ws))
  {
    if |ws| > 1 {
      JoinIsTerm(ws[1..]);
      ConsTerm(ws[0], Join(ws[1..]));
    }
  }

  lemma {:induction false} BigramsLayout(ws: seq<string>)
    ensures |Bigrams(ws)| == if |ws| < 2 then 0 else |ws| - 1
    ensures forall i :: 0 <= i < |ws| - 1 ==> Bigrams(ws)[i] == ws[i] + " " + ws[i + 1]
  {
    if |ws| >= 2 {
      BigramsLayout(ws[1..]);
      assert Join([ws[0], ws[1]]) == ws[0] + " " + ws[1];
    }
  }

  lemma {:induction false} TrigramsLayout(ws: seq<string>)
    ensures |Trigrams(ws)| == if |ws| < 3 then 0 else |ws| - 2
    ensures forall i :: 0 <= i < |ws| - 2 ==>
      Trigrams(ws)[i] == ws[i] + " " + ws[i + 1] + " " + ws[i + 2]
  {
    if |ws| >= 3 {
      TrigramsLayout(ws[1..]);
      assert Join([ws[0], ws[1], ws[2]]) == ws[0] + " " + ws[1] + " " + ws[2] by {
        assert [ws[0], ws[1], ws[2]][1..] == [ws[1], ws[2]];
        assert [ws[1], ws[2]][1..] == [ws[2]];
        assert Join([ws[1], ws[2]]) == ws[1] + " " + ws[2];
        assert Join([ws[0], ws[1], ws[2]]) == ws[0] + " " + (ws[1] + " " + ws[2]);
      }
    }
  }

  // ---------------------------------------------------------------------------
  // Properties of preprocess_text

  /** With n words there are n + max(n-1, 0) + max(n-2, 0) tokens. */
  lemma TokenCount(text: string)
    ensures var n := |Words(text)|;
      |Tokenize(text)| == n + (if n >= 1 then n - 1 else 0) + (if n >= 2 then n - 2 else 0)
  {
    BigramsLayout(Words(text));
    TrigramsLayout(Words(text));
  }

  /** Unigrams first, then bigrams, then trigrams, each group left to right. */
  lemma TokenLayout(text: string)
    ensures var ws, ts := Words(text), Tokenize(text);
      var n := |ws|;
      && |ts| == n + (if n >= 1 then n - 1 else 0) + (if n >= 2 then n - 2 else 0)
      && (forall i :: 0 <= i < n ==> ts[i] == ws[i])
      && (forall i :: 0 <= i < n - 1 ==> ts[n + i] == ws[i] + " " + ws[i + 1])
      && (forall i :: 0 <= i < n - 2 ==>
            ts[n + (n - 1) + i] == ws[i] + " " + ws[i + 1] + " " + ws[i + 2])
  {
    var ws := Words(text);
    BigramsLayout(ws);
    TrigramsLayout(ws);
  }

  lemma {:induction false} BigramsAreTerms(ws: seq<string>)
    requires forall k :: 0 <= k < |ws| ==> IsWord(ws[k])
    ensures forall t :: t in Bigrams(ws) ==> IsTerm(t)
  {
    if |ws| >= 2 {
      JoinIsTerm([ws[0], ws[1]]);
      BigramsAreTerms(ws[1..]);
    }
  }

  lemma {:induction false} TrigramsAreTerms(ws: seq<string>)
    requires forall k :: 0 <= k < |ws| ==> IsWord(ws[k])
    ensures forall t :: t in Trigrams(ws) ==> IsTerm(t)
  {
    if |ws| >= 3 {
      JoinIsTerm([ws[0], ws[1], ws[2]]);
      TrigramsAreTerms(ws[1..]);
    }
  }

  /** Every token is a well-formed term (no empty string is ever a token), and a
    * text yields no token at all exactly when it has no word character: empty,
    * whitespace-only and punctuation-only texts give the empty sequence. */
  lemma TokenContents(text: string)
    ensures forall t :: t in Tokenize(text) ==> IsTerm(t)
    ensures Tokenize(text) == [] <==> !HasWordChar(text)
  {
    var ws := Words(text);
    WordsShape(text);
    forall k | 0 <= k < |ws| ensures IsTerm(ws[k]) {
      assert ws[k] in ws;
      JoinIsTerm([ws[k]]);
    }
    BigramsAreTerms(ws);
    TrigramsAreTerms(ws);
  }
}
