/**
 * The two `strings` functions the species-id extraction relies on:
 * `TrimRight` with a one-character cut set and `Split` on one character,
 * with `Join` as the inverse that characterises `Split`.
 */
module Strs {

  /** `strings.TrimRight(s, string(c))`: every trailing `c` removed. */
  function TrimRight(s: string, c: char): string
  {
    if s != [] && s[|s| - 1] == c then TrimRight(s[..|s| - 1], c) else s
  }

  /**
   * The trimmed string is a prefix of the input that does not end in `c`,
   * and everything cut off is `c`.
   */
  lemma {:induction false} TrimRightSpec(s: string, c: char)
    ensures var r := TrimRight(s, c);
      |r| <= |s| && r == s[..|r|] &&
      (r == [] || r[|r| - 1] != c) &&
      forall i :: |r| <= i < |s| ==> s[i] == c
  {
    if s != [] && s[|s| - 1] == c {
      TrimRightSpec(s[..|s| - 1], c);
    }
  }

  /** Glues parts back together with `sep` between neighbours (`strings.Join`). */
  function Join(parts: seq<string>, sep: char): string
  {
    if parts == [] then []
    else if |parts| == 1 then parts[0]
    else Join(parts[..|parts| - 1], sep) + [sep] + parts[|parts| - 1]
  }

  /**
   * `strings.Split(s, string(sep))`: the maximal runs between separators.
   * The empty string gives one empty part, so there is always a last part.
   */
  function Split(s: string, sep: char): (parts: seq<string>)
    ensures |parts| >= 1
  {
    if s == [] then [[]]
    else
      var init := Split(s[..|s| - 1], sep);
      var c := s[|s| - 1];
      if c == sep then init + [[]]
      else init[..|init| - 1] + [init[|init| - 1] + [c]]
  }

  /** No part holds the separator, and joining the parts with it gives the input back. */
  lemma {:induction false} SplitJoin(s: string, sep: char)
    ensures forall i :: 0 <= i < |Split(s, sep)| ==> sep !in Split(s, sep)[i]
    ensures Join(Split(s, sep), sep) == s
  {
    if s != [] {
      var init := Split(s[..|s| - 1], sep);
      SplitJoin(s[..|s| - 1], sep);
      var c := s[|s| - 1];
      assert s == s[..|s| - 1] + [c];
      var parts := Split(s, sep);
      if c == sep {
        assert parts[..|init|] == init;
      } else {
        var k := |init| - 1;
        assert parts[..k] == init[..k];
        assert k > 0 ==> Join(init, sep) == Join(init[..k], sep) + [sep] + init[k];
      }
    }
  }

  /** The text after the last separator: what the source takes as `parts[len(parts)-1]`. */
  function LastPart(s: string, sep: char): string
  {
    var parts := Split(s, sep);
    parts[|parts| - 1]
  }

  /**
   * The last part is the suffix of `s` that holds no separator and either is
   * all of `s` or follows a separator.
   */
  lemma {:induction false} LastPartIsFinalSegment(s: string, sep: char)
    ensures var p := LastPart(s, sep);
      |p| <= |s| && p == s[|s| - |p|..] && sep !in p &&
      (|p| == |s| || s[|s| - |p| - 1] == sep)
  {
    if s != [] {
      LastPartIsFinalSegment(s[..|s| - 1], sep);
    }
  }

  /** The last part after a separator-terminated prefix is the word that follows it. */
  lemma LastPartAfterSeparator(prefix: string, word: string, sep: char)
    requires prefix == [] || prefix[|prefix| - 1] == sep
    requires sep !in word
    ensures LastPart(prefix + word, sep) == word
  {
    var s := prefix + word;
    LastPartIsFinalSegment(s, sep);
    assert s[|s| - |word|..] == word;
  }

  /** Trailing copies of `c` after a string not ending in `c` are exactly what is trimmed. */
  lemma TrimRightOfPadded(x: string, pad: string, c: char)
    requires x == [] || x[|x| - 1] != c
    requires forall i :: 0 <= i < |pad| ==> pad[i] == c
    ensures TrimRight(x + pad, c) == x
  {
    var s := x + pad;
    TrimRightSpec(s, c);
    assert s[..|x|] == x;
  }
}
