/**
 The combinatorics of the matcher: words, their suffixes, and the longest suffix
 of a text that belongs to a prefix-closed vocabulary.
 */
module Suffixes {
  import opened Bytes

  type Word = seq<byte>

  predicate IsSuffix(w: Word, s: Word) {
    |w| <= |s| && s[|s| - |w|..] == w
  }

  ghost predicate PrefixClosed(words: seq<Word>) {
    forall w: Word, c: byte :: w + [c] in words ==> w in words
  }

  lemma LastByte(v: Word, c: byte, w: Word, d: byte)
    ensures v + [c] == w + [d] <==> v == w && c == d
  {
    if v + [c] == w + [d] {
      assert v == (v + [c])[..|v|] == (w + [d])[..|w|];
      assert c == (v + [c])[|v|];
    }
  }

  /** The longest suffix of `s` that is a word. */
  ghost function LongestSuffix(words: seq<Word>, s: Word): (r: Word)
    requires [] in words
    ensures r in words
  {
    if s in words then s else LongestSuffix(words, s[1..])
  }

  lemma {:induction false} LongestSuffixIsLongest(words: seq<Word>, s: Word)
    requires [] in words
    ensures IsSuffix(LongestSuffix(words, s), s)
    ensures forall w :: w in words && IsSuffix(w, s) ==> IsSuffix(w, LongestSuffix(words, s))
  {
    if s !in words {
      LongestSuffixIsLongest(words, s[1..]);
      var r := LongestSuffix(words, s[1..]);
      assert s[|s| - |r|..] == s[1..][|s| - 1 - |r|..];
      forall w | w in words && IsSuffix(w, s) ensures IsSuffix(w, r) {
        assert s[0..] == s;
        assert |w| < |s|;
        assert s[1..][|s| - 1 - |w|..] == s[|s| - |w|..];
      }
    }
  }

  lemma SuffixTransitive(a: Word, b: Word, c: Word)
    requires IsSuffix(a, b) && IsSuffix(b, c)
    ensures IsSuffix(a, c)
  {
    assert c[|c| - |a|..] == c[|c| - |b|..][|b| - |a|..];
  }

  /** A word is a suffix of the text exactly when it is a suffix of the text's longest suffix. */
  lemma WordSuffixes(words: seq<Word>, s: Word, w: Word)
    requires [] in words && w in words
    ensures IsSuffix(w, s) <==> IsSuffix(w, LongestSuffix(words, s))
  {
    LongestSuffixIsLongest(words, s);
    if IsSuffix(w, LongestSuffix(words, s)) {
      SuffixTransitive(w, LongestSuffix(words, s), s);
    }
  }

  /** Reading one more byte needs only the longest suffix so far, not the text. */
  lemma {:induction false} LongestSuffixStep(words: seq<Word>, s: Word, c: byte)
    requires [] in words && PrefixClosed(words)
    ensures LongestSuffix(words, s + [c]) == LongestSuffix(words, LongestSuffix(words, s) + [c])
  {
    if s !in words {
      assert s + [c] !in words;
      assert (s + [c])[1..] == s[1..] + [c];
      LongestSuffixStep(words, s[1..], c);
    }
  }

  /** A proper suffix is a suffix of the tail. */
  lemma ProperSuffix(w: Word, s: Word)
    requires s != []
    ensures IsSuffix(w, s) <==> w == s || IsSuffix(w, s[1..])
  {
    if |w| < |s| {
      assert s[1..][|s| - 1 - |w|..] == s[|s| - |w|..];
    } else if |w| == |s| {
      assert s[0..] == s;
    }
  }
}
