/**
 * The two operations of Go's `strings` package that the validator relies on:
 * `strings.Split(s, " ")` and `strings.ToLower(s)`. A Go string is modelled as
 * its sequence of runes.
 */
module GoStrings {

  /** `strings.Split(s, " ")`: the pieces of `s` between single spaces; two
      adjacent spaces give an empty piece, and the empty string gives `[""]`. */
  function SplitOnSpace(s: string): (pieces: seq<string>)
    ensures |pieces| >= 1
    ensures forall i :: 0 <= i < |pieces| ==> ' ' !in pieces[i]
    decreases |s|
  {
    if s == [] then [""]
    else
      var tail := SplitOnSpace(s[1..]);
      if s[0] == ' ' then [""] + tail
      else [[s[0]] + tail[0]] + tail[1..]
  }

  /** A string splits into two pieces or more exactly when it holds a space. */
  lemma {:induction false} SpaceSplits(s: string)
    ensures |SplitOnSpace(s)| >= 2 <==> ' ' in s
    decreases |s|
  {
    if s != [] {
      SpaceSplits(s[1..]);
      assert ' ' in s <==> s[0] == ' ' || ' ' in s[1..] by {
        assert s == [s[0]] + s[1..];
      }
    }
  }

  /** `strings.Join(pieces, " ")`, the inverse of `SplitOnSpace`. */
  function JoinWithSpace(pieces: seq<string>): string
    requires |pieces| >= 1
  {
    if |pieces| == 1 then pieces[0] else pieces[0] + " " + JoinWithSpace(pieces[1..])
  }

  /** Joining the pieces again gives back the original string. */
  lemma {:induction false} JoinSplit(s: string)
    ensures JoinWithSpace(SplitOnSpace(s)) == s
    decreases |s|
  {
    if s != [] {
      var tail := SplitOnSpace(s[1..]);
      JoinSplit(s[1..]);
      if s[0] == ' ' {
        assert SplitOnSpace(s) == [""] + tail;
        assert ([""] + tail)[1..] == tail;
      } else {
        var pieces := SplitOnSpace(s);
        assert pieces == [[s[0]] + tail[0]] + tail[1..];
        assert pieces[1..] == tail[1..];
        if |tail| > 1 {
          assert JoinWithSpace(tail) == tail[0] + " " + JoinWithSpace(tail[1..]);
        }
      }
    }
  }

  /** A space-free word followed by a space is the first piece. */
  lemma {:induction false} SplitAfterWord(word: string, rest: string)
    requires ' ' !in word
    ensures SplitOnSpace(word + " " + rest) == [word] + SplitOnSpace(rest)
    decreases |word|
  {
    if word == [] {
      assert word + " " + rest == [' '] + rest;
      assert ([' '] + rest)[1..] == rest;
    } else {
      var s := word + " " + rest;
      assert s[1..] == word[1..] + " " + rest;
      SplitAfterWord(word[1..], rest);
      assert [word[0]] + word[1..] == word;
    }
  }

  /** A space-free word is a single piece. */
  lemma {:induction false} SplitWord(word: string)
    requires ' ' !in word
    ensures SplitOnSpace(word) == [word]
    decreases |word|
  {
    if word != [] {
      SplitWord(word[1..]);
      assert [word[0]] + word[1..] == word;
    }
  }

  /** Splitting a join of space-free pieces gives back the pieces. */
  lemma {:induction false} SplitJoin(pieces: seq<string>)
    requires |pieces| >= 1
    requires forall i :: 0 <= i < |pieces| ==> ' ' !in pieces[i]
    ensures SplitOnSpace(JoinWithSpace(pieces)) == pieces
    decreases |pieces|
  {
    if |pieces| == 1 {
      SplitWord(pieces[0]);
    } else {
      SplitJoin(pieces[1..]);
      SplitAfterWord(pieces[0], JoinWithSpace(pieces[1..]));
      assert [pieces[0]] + pieces[1..] == pieces;
    }
  }

  /** `unicode.ToLower` on one rune, exact for every rune whose lower case is
      ASCII: `A`-`Z`, U+0130 (capital I with dot) and U+212A (Kelvin sign).
      Any other rune is returned unchanged. */
  function LowerRune(c: char): (r: char)
    ensures 'a' <= r <= 'z' <==> 'a' <= c <= 'z' || 'A' <= c <= 'Z' || c == '\U{0130}' || c == '\U{212A}'
    ensures !('a' <= r <= 'z') ==> r == c
  {
    if 'A' <= c <= 'Z' then (c as int + 32) as char
    else if c == '\U{0130}' then 'i'
    else if c == '\U{212A}' then 'k'
    else c
  }

  /** `strings.ToLower`, rune by rune. */
  function ToLower(s: string): (r: string)
    ensures |r| == |s| && forall i :: 0 <= i < |s| ==> r[i] == LowerRune(s[i])
  {
    seq(|s|, i requires 0 <= i < |s| => LowerRune(s[i]))
  }

  /** Lowering twice is lowering once: the lower case of a rune has no
      other lower case. */
  lemma ToLowerIdempotent(s: string)
    ensures ToLower(ToLower(s)) == ToLower(s)
  {
    forall i | 0 <= i < |s|
      ensures LowerRune(LowerRune(s[i])) == LowerRune(s[i])
    {
    }
  }

  /** Rune `c` is the ASCII lower-case letter `l` written in some case: `l`
      itself, its ASCII capital, or the non-ASCII capitals U+0130 of `i` and
      U+212A of `k`. */
  predicate LowersTo(c: char, l: char) {
    c == l || c as int == l as int - 32 || (l == 'i' && c == '\U{0130}') || (l == 'k' && c == '\U{212A}')
  }

  /** `d` spells the lower-case ASCII word `w` in any mix of cases. */
  predicate SpellsInAnyCase(d: string, w: string) {
    |d| == |w| && forall i :: 0 <= i < |d| ==> LowersTo(d[i], w[i])
  }

  predicate LowerAscii(w: string) {
    forall i :: 0 <= i < |w| ==> 'a' <= w[i] <= 'z'
  }

  /** The runes that lower to an ASCII lower-case letter are exactly its
      spellings in any case. */
  lemma LowerRuneTo(c: char, l: char)
    requires 'a' <= l <= 'z'
    ensures LowerRune(c) == l <==> LowersTo(c, l)
  {
  }

  /** Lowering a string gives a lower-case ASCII word exactly when the
      string spells that word in some mix of cases. */
  lemma LowerEquals(d: string, w: string)
    requires LowerAscii(w)
    ensures ToLower(d) == w <==> SpellsInAnyCase(d, w)
  {
    if |d| == |w| {
      forall i | 0 <= i < |d|
        ensures LowerRune(d[i]) == w[i] <==> LowersTo(d[i], w[i])
      {
        LowerRuneTo(d[i], w[i]);
      }
      if SpellsInAnyCase(d, w) {
        assert ToLower(d) == w;
      }
    }
  }
}
