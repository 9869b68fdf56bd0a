/** Whitespace tokenisation and the dialogue filter applied to the text of a
    screenplay: `str::split_whitespace` and the "fully capitalised word" test
    of the interpreter. */
module Tokens {

  /** Rust's `char::is_whitespace`: the Unicode White_Space property. */
  predicate IsWs(c: char) {
    || ('\U{9}' <= c <= '\U{D}')
    || c == ' '
    || c == '\U{85}'
    || c == '\U{A0}'
    || c == '\U{1680}'
    || ('\U{2000}' <= c <= '\U{200A}')
    || c == '\U{2028}'
    || c == '\U{2029}'
    || c == '\U{202F}'
    || c == '\U{205F}'
    || c == '\U{3000}'
  }

  /** Rust's `char::is_uppercase`, restricted to the ranges A-Z, U+00C0-U+00D6,
      U+00D8-U+00DE, U+0391-U+03A1, U+03A3-U+03AB and U+0400-U+042F. */
  predicate IsUpper(c: char) {
    || ('A' <= c <= 'Z')
    || ('\U{C0}' <= c <= '\U{D6}')
    || ('\U{D8}' <= c <= '\U{DE}')
    || ('\U{391}' <= c <= '\U{3A1}')
    || ('\U{3A3}' <= c <= '\U{3AB}')
    || ('\U{400}' <= c <= '\U{42F}')
  }

  /** No character of `s` is whitespace. */
  predicate NoWs(s: string) {
    forall i :: 0 <= i < |s| ==> !IsWs(s[i])
  }

  /** `word.chars().all(|c| c.is_uppercase())`: true of the empty word. */
  predicate FullyCapitalized(word: string) {
    forall i :: 0 <= i < |word| ==> IsUpper(word[i])
  }

  /** Length of the longest prefix of `s` free of whitespace. */
  function TokenLen(s: string): (n: nat)
    ensures n <= |s|
    ensures NoWs(s[..n])
    ensures n == |s| || IsWs(s[n])
  {
    if s == [] || IsWs(s[0]) then 0 else 1 + TokenLen(s[1..])
  }

  /** `s.split_whitespace()`: the maximal runs of non-whitespace characters,
      in order. */
  function Words(s: string): (words: seq<string>)
    ensures forall k :: 0 <= k < |words| ==> words[k] != [] && NoWs(words[k])
    ensures |words| <= |s|
    decreases |s|
  {
    if s == [] then []
    else if IsWs(s[0]) then Words(s[1..])
    else
      var n := TokenLen(s);
      [s[..n]] + Words(s[n..])
  }

  /** `text.split_whitespace().count()`. */
  function WordCount(s: string): nat {
    |Words(s)|
  }

  /** How many of `words` are not fully capitalised. */
  function CountSpoken(words: seq<string>): (n: nat)
    ensures n <= |words|
  {
    if words == [] then 0
    else (if FullyCapitalized(words[0]) then 0 else 1) + CountSpoken(words[1..])
  }

  /** The dialogue words of one text event: its whitespace tokens that are
      not fully capitalised (speaker cues such as `HELLO`). */
  function SpokenCount(s: string): (n: nat)
    ensures n <= WordCount(s)
  {
    CountSpoken(Words(s))
  }

  /** Reference count of words: the positions where a non-whitespace
      character follows whitespace or the start of the text. `afterWs`
      says whether the character before `s` was whitespace. */
  function WordStarts(s: string, afterWs: bool): nat
    decreases |s|
  {
    if s == [] then 0
    else (if afterWs && !IsWs(s[0]) then 1 else 0) + WordStarts(s[1..], IsWs(s[0]))
  }

  /** Inside a token no new word starts. */
  lemma {:induction false} StartsInsideToken(s: string, k: nat)
    requires 1 <= k <= TokenLen(s)
    ensures WordStarts(s[1..], false) == WordStarts(s[k..], false)
  {
    if k > 1 {
      StartsInsideToken(s, k - 1);
      assert s[..TokenLen(s)][k - 1] == s[k - 1];
      assert s[k - 1..][0] == s[k - 1] && !IsWs(s[k - 1]);
      assert s[k - 1..][1..] == s[k..];
    }
  }

  /** The number of tokens `Words` yields is the number of word starts. */
  lemma {:induction false} WordCountIsWordStarts(s: string)
    ensures WordCount(s) == WordStarts(s, true)
    decreases |s|
  {
    if s == [] {
    } else if IsWs(s[0]) {
      WordCountIsWordStarts(s[1..]);
    } else {
      var n := TokenLen(s);
      WordCountIsWordStarts(s[n..]);
      StartsInsideToken(s, n);
      // After the token comes whitespace or nothing, so whether the
      // previous character was whitespace no longer matters.
      if n < |s| {
        assert IsWs(s[n..][0]);
      }
    }
  }

  /** A text has no words exactly when it is all whitespace. */
  lemma {:induction false} NoWordsIffBlank(s: string)
    ensures WordCount(s) == 0 <==> forall i :: 0 <= i < |s| ==> IsWs(s[i])
    decreases |s|
  {
    if s != [] {
      NoWordsIffBlank(s[1..]);
      if !IsWs(s[0]) {
        assert WordCount(s) >= 1;
      } else {
        forall i | 0 <= i < |s| && forall j :: 0 <= j < |s[1..]| ==> IsWs(s[1..][j])
          ensures IsWs(s[i])
        {
          if i > 0 { assert s[i] == s[1..][i - 1]; }
        }
      }
    }
  }

  /** A whitespace character separates words: the words of two texts joined
      by it are the words of the first, then those of the second. */
  lemma {:induction false} WordsJoin(a: string, c: char, b: string)
    requires IsWs(c)
    ensures Words(a + [c] + b) == Words(a) + Words(b)
    decreases |a|
  {
    var s := a + [c] + b;
    if a == [] {
      assert s == [c] + b && s[1..] == b;
    } else if IsWs(a[0]) {
      assert s[0] == a[0] && s[1..] == a[1..] + [c] + b;
      WordsJoin(a[1..], c, b);
    } else {
      var n := TokenLen(a);
      TokenLenJoin(a, c, b);
      assert s[..n] == a[..n];
      assert s[n..] == a[n..] + [c] + b;
      WordsJoin(a[n..], c, b);
    }
  }

  lemma {:induction false} TokenLenJoin(a: string, c: char, b: string)
    requires IsWs(c)
    ensures TokenLen(a + [c] + b) == TokenLen(a)
    decreases |a|
  {
    var s := a + [c] + b;
    if a == [] {
      assert s[0] == c;
    } else if !IsWs(a[0]) {
      assert s[0] == a[0] && s[1..] == a[1..] + [c] + b;
      TokenLenJoin(a[1..], c, b);
    } else {
      assert s[0] == a[0];
    }
  }

  /** A non-empty text without whitespace is one word. */
  lemma OneWord(a: string)
    requires a != [] && NoWs(a)
    ensures Words(a) == [a]
  {
    assert TokenLen(a) == |a|;
    assert a[..|a|] == a && a[|a|..] == [];
  }

  /** The word count of two texts joined by a whitespace character is the
      sum of their word counts. */
  lemma WordCountJoin(a: string, c: char, b: string)
    requires IsWs(c)
    ensures WordCount(a + [c] + b) == WordCount(a) + WordCount(b)
  {
    WordsJoin(a, c, b);
  }
}
