/** String helpers of the .NET base library that the modelled code calls:
    `string.Join`, `string.Trim`, `string.IsNullOrWhiteSpace` and
    `string.Contains(value, StringComparison.OrdinalIgnoreCase)`. */
module Text {
  import opened Wrappers

  // ---------------------------------------------------------------------------
  // string.Join

  /** `string.Join(sep, xs)`. */
  function Join(sep: string, xs: seq<string>): string
    decreases |xs|
  {
    if |xs| == 0 then ""
    else if |xs| == 1 then xs[0]
    else xs[0] + sep + Join(sep, xs[1..])
  }

  /** Where piece `i` starts in the joined string. */
  function Offset(sep: string, xs: seq<string>, i: nat): nat
    requires i <= |xs|
  {
    if i == 0 then 0 else Offset(sep, xs, i - 1) + |xs[i - 1]| + |sep|
  }

  lemma {:induction false} OffsetShift(sep: string, xs: seq<string>, i: nat)
    requires 1 <= i <= |xs|
    ensures Offset(sep, xs, i) == |xs[0]| + |sep| + Offset(sep, xs[1..], i - 1)
  {
    if i > 1 {
      OffsetShift(sep, xs, i - 1);
      assert xs[1..][i - 2] == xs[i - 1];
    }
  }

  lemma {:induction false} JoinLength(sep: string, xs: seq<string>)
    requires |xs| > 0
    ensures |Join(sep, xs)| == Offset(sep, xs, |xs| - 1) + |xs[|xs| - 1]|
    decreases |xs|
  {
    if |xs| > 1 {
      JoinLength(sep, xs[1..]);
      OffsetShift(sep, xs, |xs| - 1);
    }
  }

  lemma AppendSlice<T>(a: seq<T>, b: seq<T>, lo: nat, hi: nat)
    requires lo <= hi <= |b|
    ensures (a + b)[|a| + lo .. |a| + hi] == b[lo..hi]
  {
  }

  /** Piece `i` sits at `Offset(i)` of the joined string. */
  lemma {:induction false} JoinPieceText(sep: string, xs: seq<string>, i: nat)
    requires i < |xs|
    ensures Offset(sep, xs, i) + |xs[i]| <= |Join(sep, xs)|
    ensures Join(sep, xs)[Offset(sep, xs, i) .. Offset(sep, xs, i) + |xs[i]|] == xs[i]
    decreases |xs|
  {
    if |xs| > 1 {
      var tl := xs[1..];
      var jt := Join(sep, tl);
      assert Join(sep, xs) == (xs[0] + sep) + jt;
      if i > 0 {
        JoinPieceText(sep, tl, i - 1);
        OffsetShift(sep, xs, i);
        assert tl[i - 1] == xs[i];
        var o := Offset(sep, tl, i - 1);
        AppendSlice(xs[0] + sep, jt, o, o + |xs[i]|);
      } else {
        assert ((xs[0] + sep) + jt)[..|xs[0]|] == xs[0];
      }
    }
  }

  /** Between piece `i` and piece `i + 1` lies exactly one separator. */
  lemma {:induction false} JoinPieceSeparator(sep: string, xs: seq<string>, i: nat)
    requires i + 1 < |xs|
    ensures Offset(sep, xs, i) + |xs[i]| <= Offset(sep, xs, i + 1) <= |Join(sep, xs)|
    ensures Join(sep, xs)[Offset(sep, xs, i) + |xs[i]| .. Offset(sep, xs, i + 1)] == sep
    decreases |xs|
  {
    var tl := xs[1..];
    var jt := Join(sep, tl);
    var head := xs[0] + sep;
    assert Join(sep, xs) == head + jt;
    assert Offset(sep, xs, i + 1) == |head| + Offset(sep, tl, i) by {
      OffsetShift(sep, xs, i + 1);
    }
    if i > 0 {
      assert Offset(sep, xs, i) == |head| + Offset(sep, tl, i - 1) by {
        OffsetShift(sep, xs, i);
      }
      assert tl[i - 1] == xs[i];
      JoinPieceSeparator(sep, tl, i - 1);
      AppendSlice(head, jt, Offset(sep, tl, i - 1) + |xs[i]|, Offset(sep, tl, i));
    } else {
      assert (head + jt)[|xs[0]| .. |xs[0]| + |sep|] == sep;
    }
  }

  /** The joined string is the pieces in order with one separator between
      neighbours: piece `i` sits at `Offset(i)` and is followed by the
      separator unless it is the last piece, which ends the string. */
  lemma JoinPiece(sep: string, xs: seq<string>, i: nat)
    requires i < |xs|
    ensures Offset(sep, xs, i) + |xs[i]| <= |Join(sep, xs)|
    ensures Join(sep, xs)[Offset(sep, xs, i) .. Offset(sep, xs, i) + |xs[i]|] == xs[i]
    ensures i + 1 < |xs| ==> Offset(sep, xs, i + 1) <= |Join(sep, xs)|
    ensures i + 1 < |xs| ==> Join(sep, xs)[Offset(sep, xs, i) + |xs[i]| .. Offset(sep, xs, i + 1)] == sep
    ensures |Join(sep, xs)| == Offset(sep, xs, |xs| - 1) + |xs[|xs| - 1]|
  {
    JoinLength(sep, xs);
    JoinPieceText(sep, xs, i);
    if i + 1 < |xs| {
      JoinPieceSeparator(sep, xs, i);
    }
  }

  // ---------------------------------------------------------------------------
  // White space and string.Trim

  /** `char.IsWhiteSpace`: the Unicode space, line and paragraph separators
      and the control characters U+0009 to U+000D and U+0085. */
  predicate IsWhiteSpace(c: char) {
    || ('\U{0009}' <= c <= '\U{000D}') || c == '\U{0020}' || c == '\U{0085}' || c == '\U{00A0}'
    || c == '\U{1680}' || ('\U{2000}' <= c <= '\U{200A}') || c == '\U{2028}' || c == '\U{2029}'
    || c == '\U{202F}' || c == '\U{205F}' || c == '\U{3000}'
  }

  predicate AllWhiteSpace(s: string) {
    forall k :: 0 <= k < |s| ==> IsWhiteSpace(s[k])
  }

  /** `string.IsNullOrWhiteSpace`; `None` is the null string. */
  predicate IsNullOrWhiteSpace(s: Option<string>) {
    s.None? || AllWhiteSpace(s.value)
  }

  /** The first position at or after `i` that is not white space. */
  function SkipLeading(s: string, i: nat): (j: nat)
    requires i <= |s|
    ensures i <= j <= |s|
    ensures forall k :: i <= k < j ==> IsWhiteSpace(s[k])
    ensures j < |s| ==> !IsWhiteSpace(s[j])
    decreases |s| - i
  {
    if i == |s| || !IsWhiteSpace(s[i]) then i else SkipLeading(s, i + 1)
  }

  /** The end of `s[lo..j]` once its trailing white space is dropped. */
  function SkipTrailing(s: string, lo: nat, j: nat): (e: nat)
    requires lo <= j <= |s|
    ensures lo <= e <= j
    ensures forall k :: e <= k < j ==> IsWhiteSpace(s[k])
    ensures e > lo ==> !IsWhiteSpace(s[e - 1])
    decreases j
  {
    if j == lo || !IsWhiteSpace(s[j - 1]) then j else SkipTrailing(s, lo, j - 1)
  }

  /** `string.Trim()`: the slice of `s` left once leading and trailing white
      space is removed. Only white space is removed, and the result neither
      starts nor ends with it. */
  function Trim(s: string): (r: string)
    ensures exists a, b :: (0 <= a <= b <= |s| && r == s[a..b]
                             && AllWhiteSpace(s[..a]) && AllWhiteSpace(s[b..]))
    ensures |r| > 0 ==> !IsWhiteSpace(r[0]) && !IsWhiteSpace(r[|r| - 1])
    ensures r == "" <==> AllWhiteSpace(s)
  {
    var a := SkipLeading(s, 0);
    var b := SkipTrailing(s, a, |s|);
    assert AllWhiteSpace(s[..a]) && AllWhiteSpace(s[b..]);
    assert a < b ==> !IsWhiteSpace(s[a]);
    s[a..b]
  }

  lemma TrimIdempotent(s: string)
    ensures Trim(Trim(s)) == Trim(s)
  {
    var t := Trim(s);
    if |t| > 0 {
      var a := SkipLeading(t, 0);
      assert a == 0;
      var b := SkipTrailing(t, 0, |t|);
      assert b == |t|;
    }
  }

  // ---------------------------------------------------------------------------
  // Ordinal case-insensitive search

  /** Upper-case mapping of the ordinal comparison, restricted to ASCII
      letters (see `ContainsIgnoreCase`). */
  function ToUpperAscii(c: char): char {
    if 'a' <= c <= 'z' then (c as int - 32) as char else c
  }

  /** `w` occurs at position `i` of `s`, ignoring ASCII case. */
  predicate MatchAt(s: string, w: string, i: nat) {
    i + |w| <= |s| && forall k :: 0 <= k < |w| ==> ToUpperAscii(s[i + k]) == ToUpperAscii(w[k])
  }

  /** The first match position at or after `i`. */
  function FindFrom(s: string, w: string, i: nat): (r: Option<nat>)
    requires i <= |s|
    ensures r.Some? ==> i <= r.value && MatchAt(s, w, r.value)
    ensures r.None? ==> forall j :: i <= j <= |s| ==> !MatchAt(s, w, j)
    decreases |s| - i
  {
    if MatchAt(s, w, i) then Some(i)
    else if i == |s| then None
    else FindFrom(s, w, i + 1)
  }

  /** `s.Contains(w, StringComparison.OrdinalIgnoreCase)`: some position of
      `s` matches `w` letter for letter up to case. */
  function ContainsIgnoreCase(s: string, w: string): (b: bool)
    ensures b <==> exists i :: 0 <= i <= |s| && MatchAt(s, w, i)
  {
    FindFrom(s, w, 0).Some?
  }
}
