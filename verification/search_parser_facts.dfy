/** Properties of the `FT.SEARCH` reply parser. */
module SearchParserFacts {
  import opened Wrappers
  import opened VectorCodec
  import opened Resp
  import opened SearchParser
  import Decimal

  // ---------------------------------------------------------------------------
  // Where the parser looks

  /** Reading a hit only looks at elements from the id on. */
  lemma ReadHitLocal(env: Env, a: seq<Reply>, b: seq<Reply>, idx: nat)
    requires 1 <= idx < |a| == |b|
    requires a[idx..] == b[idx..]
    ensures ReadHit(env, a, idx) == ReadHit(env, b, idx)
  {
    assert a[idx] == b[idx];
    if idx + 1 < |a| {
      assert a[idx + 1] == b[idx + 1];
    }
    if idx + 2 < |a| {
      assert a[idx + 2] == b[idx + 2];
    }
  }

  lemma {:induction false} ParseFromLocal(env: Env, a: seq<Reply>, b: seq<Reply>, idx: nat)
    requires 1 <= idx <= |a| == |b|
    requires a[idx..] == b[idx..]
    ensures ParseFrom(env, a, idx) == ParseFrom(env, b, idx)
    decreases |a| - idx
  {
    if idx < |a| {
      ReadHitLocal(env, a, b, idx);
      match ReadHit(env, a, idx)
      case None =>
      case Some((h, next)) =>
        assert a[next..] == a[idx..][next - idx..];
        assert b[next..] == b[idx..][next - idx..];
        ParseFromLocal(env, a, b, next);
    }
  }

  /** Element 0, the total count, is never read: whatever it holds, the hits
      are the same. */
  lemma TotalCountIgnored(env: Env, t1: Reply, t2: Reply, rest: seq<Reply>)
    ensures Parse(env, Multi([t1] + rest)) == Parse(env, Multi([t2] + rest))
  {
    assert ([t1] + rest)[1..] == ([t2] + rest)[1..];
    ParseFromLocal(env, [t1] + rest, [t2] + rest, 1);
  }

  // ---------------------------------------------------------------------------
  // Stopping early

  /** A hit read from a reply is read the same way from any longer reply. */
  lemma ReadHitExtend(env: Env, arr: seq<Reply>, tail: seq<Reply>, idx: nat)
    requires 1 <= idx < |arr|
    requires ReadHit(env, arr, idx).Some?
    ensures ReadHit(env, arr + tail, idx) == ReadHit(env, arr, idx)
  {
    var full := arr + tail;
    assert full[idx] == arr[idx];
    assert idx + 1 < |arr|;
    assert full[idx + 1] == arr[idx + 1];
    if idx + 2 < |arr| {
      assert full[idx + 2] == arr[idx + 2];
    }
  }

  /** A reply cut short anywhere yields a prefix of the full reply's hits:
      parsing stops without failing the batch, every hit it kept is
      exactly the one the full reply gives, and no partial hit is appended. */
  lemma {:induction false} TruncatedReplyKeepsEarlierHits(env: Env, arr: seq<Reply>, tail: seq<Reply>, idx: nat)
    requires 1 <= idx <= |arr|
    ensures var short := ParseFrom(env, arr, idx);
      short <= ParseFrom(env, arr + tail, idx)
    decreases |arr| - idx
  {
    if idx < |arr| {
      match ReadHit(env, arr, idx)
      case None =>
      case Some((h, next)) =>
        ReadHitExtend(env, arr, tail, idx);
        TruncatedReplyKeepsEarlierHits(env, arr, tail, next);
    }
  }

  /** An empty id ends the walk, with the hits read before it kept. */
  lemma EmptyIdStops(env: Env, arr: seq<Reply>, idx: nat)
    requires 1 <= idx < |arr|
    requires Str(env, arr[idx]) == ""
    ensures ParseFrom(env, arr, idx) == []
  {
  }

  /** An id with no element left for `fields` (after the optional score)
      ends the walk without a hit. */
  lemma NoFieldsElementStops(env: Env, arr: seq<Reply>, idx: nat)
    requires 1 <= idx < |arr|
    requires idx + 1 == |arr| || (idx + 2 == |arr| && StandaloneScore(env, arr, idx + 1).Some?)
    ensures ParseFrom(env, arr, idx) == []
  {
  }

  // ---------------------------------------------------------------------------
  // The optional standalone score

  /** The element after the id is consumed as a score exactly when it is a
      bulk string, simple string or integer whose text parses as a float;
      otherwise it is itself the `fields` element. */
  lemma StandaloneScoreConsumedIff(env: Env, arr: seq<Reply>, idx: nat)
    requires 1 <= idx < |arr|
    requires ReadHit(env, arr, idx).Some?
    ensures var next := ReadHit(env, arr, idx).value.1;
      && (next == idx + 3 <==> IsScoreCandidate(arr[idx + 1]) && env.tryParse(Str(env, arr[idx + 1])).Some?)
      && (next == idx + 2 || next == idx + 3)
  {
  }

  // ---------------------------------------------------------------------------
  // Walking the fields

  predicate NoPairNamed(env: Env, fs: seq<Reply>, n: nat, name: string)
    requires 2 * n <= |fs|
  {
    forall j :: 0 <= j < n ==> NameAt(env, fs, j) != name
  }

  /** Pair `k` is the last of the first `n` pairs with this name. */
  predicate IsLastPairNamed(env: Env, fs: seq<Reply>, n: nat, k: nat, name: string)
    requires 2 * n <= |fs|
  {
    k < n && NameAt(env, fs, k) == name && forall j :: k < j < n ==> NameAt(env, fs, j) != name
  }

  /** Pairs with no `text_field` name leave the text alone, and pairs with no
      `score` name leave the score alone. */
  lemma {:induction false} WalkWithoutName(env: Env, fs: seq<Reply>, n: nat, st0: FieldState)
    requires 2 * n <= |fs|
    ensures NoPairNamed(env, fs, n, TextFieldName) ==> WalkPairs(env, fs, n, st0).text == st0.text
    ensures NoPairNamed(env, fs, n, ScoreFieldName) ==> WalkPairs(env, fs, n, st0).score == st0.score
  {
    if n > 0 {
      assert NameAt(env, fs, n - 1) == Str(env, fs[2 * n - 2]);
      WalkWithoutName(env, fs, n - 1, st0);
      assert NoPairNamed(env, fs, n, TextFieldName) ==> NoPairNamed(env, fs, n - 1, TextFieldName);
      assert NoPairNamed(env, fs, n, ScoreFieldName) ==> NoPairNamed(env, fs, n - 1, ScoreFieldName);
    }
  }

  /** The last `text_field` pair sets the text. */
  lemma {:induction false} LastTextFieldWins(env: Env, fs: seq<Reply>, n: nat, k: nat, st0: FieldState)
    requires 2 * n <= |fs|
    requires IsLastPairNamed(env, fs, n, k, TextFieldName)
    ensures WalkPairs(env, fs, n, st0).text == Str(env, fs[2 * k + 1])
  {
    var prev := WalkPairs(env, fs, n - 1, st0);
    assert WalkPairs(env, fs, n, st0).text
      == (if Str(env, fs[2 * n - 2]) == TextFieldName then Str(env, fs[2 * n - 1]) else prev.text) by {
      WalkPairsStep(env, fs, n - 1, st0);
      StepPairEffect(env, prev, fs[2 * n - 2], fs[2 * n - 1]);
    }
    if k + 1 < n {
      assert Str(env, fs[2 * n - 2]) == NameAt(env, fs, n - 1) != TextFieldName;
      assert IsLastPairNamed(env, fs, n - 1, k, TextFieldName);
      LastTextFieldWins(env, fs, n - 1, k, st0);
    } else {
      assert k == n - 1 && Str(env, fs[2 * n - 2]) == NameAt(env, fs, k) == TextFieldName;
    }
  }

  /** The last `score` pair sets the score, overwriting any standalone score. */
  lemma {:induction false} LastScoreFieldWins(env: Env, fs: seq<Reply>, n: nat, k: nat, st0: FieldState)
    requires 2 * n <= |fs|
    requires IsLastPairNamed(env, fs, n, k, ScoreFieldName)
    ensures WalkPairs(env, fs, n, st0).score == FieldScore(env, fs[2 * k + 1])
  {
    var prev := WalkPairs(env, fs, n - 1, st0);
    assert WalkPairs(env, fs, n, st0).score
      == (if Str(env, fs[2 * n - 2]) == ScoreFieldName then FieldScore(env, fs[2 * n - 1]) else prev.score) by {
      WalkPairsStep(env, fs, n - 1, st0);
      StepPairEffect(env, prev, fs[2 * n - 2], fs[2 * n - 1]);
    }
    if k + 1 < n {
      assert Str(env, fs[2 * n - 2]) == NameAt(env, fs, n - 1) != ScoreFieldName;
      assert IsLastPairNamed(env, fs, n - 1, k, ScoreFieldName);
      LastScoreFieldWins(env, fs, n - 1, k, st0);
    } else {
      assert k == n - 1 && Str(env, fs[2 * n - 2]) == NameAt(env, fs, k) == ScoreFieldName;
    }
  }

  /** The pairs walked depend only on the first `2n` elements. */
  lemma {:induction false} WalkPairsPrefix(env: Env, fs: seq<Reply>, gs: seq<Reply>, n: nat, st0: FieldState)
    requires 2 * n <= |fs| && 2 * n <= |gs|
    requires fs[..2 * n] == gs[..2 * n]
    ensures WalkPairs(env, fs, n, st0) == WalkPairs(env, gs, n, st0)
  {
    if n > 0 {
      assert fs[2 * n - 2] == gs[2 * n - 2] && fs[2 * n - 1] == gs[2 * n - 1] by {
        assert fs[2 * n - 2] == fs[..2 * n][2 * n - 2];
        assert fs[2 * n - 1] == fs[..2 * n][2 * n - 1];
        assert gs[2 * n - 2] == gs[..2 * n][2 * n - 2];
        assert gs[2 * n - 1] == gs[..2 * n][2 * n - 1];
      }
      assert fs[..2 * (n - 1)] == gs[..2 * (n - 1)] by {
        assert fs[..2 * (n - 1)] == fs[..2 * n][..2 * (n - 1)];
        assert gs[..2 * (n - 1)] == gs[..2 * n][..2 * (n - 1)];
      }
      WalkPairsPrefix(env, fs, gs, n - 1, st0);
    }
  }

  /** An odd trailing element of a fields list is ignored. */
  lemma OddTrailingFieldIgnored(env: Env, fs: seq<Reply>, x: Reply, score0: Option<Float32>)
    requires |fs| % 2 == 0
    ensures ReadFields(env, fs + [x], score0) == ReadFields(env, fs, score0)
  {
    assert (fs + [x])[..2 * (|fs| / 2)] == fs[..2 * (|fs| / 2)];
    WalkPairsPrefix(env, fs + [x], fs, |fs| / 2, FieldState("", score0));
  }

  /** A scalar `fields` element is wrapped as a one-element list: it has no
      pair, so the text stays empty and the standalone score stands. */
  lemma ScalarFieldsYieldNoPairs(env: Env, c: Reply, score0: Option<Float32>)
    requires !c.Multi?
    ensures ReadFields(env, FieldsOf(c), score0) == FieldState("", score0)
  {
  }

  // ---------------------------------------------------------------------------
  // Round trip against a reply encoder

  /** The fields list the server returns for `RETURN 2 text_field score`. */
  function FieldsFor(h: Hit, show: Float32 -> string): seq<Reply> {
    [Bulk(TextFieldName), Bulk(h.text)]
      + (if h.score.Some? then [Bulk(ScoreFieldName), Bulk(show(h.score.value))] else [])
  }

  /** The elements of one hit: id, the standalone score when the server sends
      one, and the fields list. */
  function EncodeHit(h: Hit, withScores: bool, show: Float32 -> string): (r: seq<Reply>)
    ensures 2 <= |r| <= 3
  {
    [Bulk(h.id)]
      + (if withScores && h.score.Some? then [Bulk(show(h.score.value))] else [])
      + [Multi(FieldsFor(h, show))]
  }

  function EncodeHits(hs: seq<Hit>, withScores: bool, show: Float32 -> string): seq<Reply> {
    if |hs| == 0 then [] else EncodeHit(hs[0], withScores, show) + EncodeHits(hs[1..], withScores, show)
  }

  /** A well-formed reply: the total count, then every hit in order. */
  function EncodeReply(hs: seq<Hit>, withScores: bool, show: Float32 -> string): Reply {
    Multi([Scalar(Integer, Decimal.IntToString(|hs|))] + EncodeHits(hs, withScores, show))
  }

  /** Ids are non-empty and every score's rendering parses back to it. */
  predicate Encodable(env: Env, hs: seq<Hit>, show: Float32 -> string) {
    forall i :: 0 <= i < |hs| ==>
      hs[i].id != "" && (hs[i].score.Some? ==> env.tryParse(show(hs[i].score.value)) == hs[i].score)
  }

  lemma ReadEncodedHit(env: Env, prefix: seq<Reply>, h: Hit, rest: seq<Reply>, withScores: bool, show: Float32 -> string)
    requires |prefix| >= 1
    requires h.id != "" && (h.score.Some? ==> env.tryParse(show(h.score.value)) == h.score)
    ensures var arr := prefix + EncodeHit(h, withScores, show) + rest;
      ReadHit(env, arr, |prefix|) == Some((h, |prefix| + |EncodeHit(h, withScores, show)|))
  {
    var e := EncodeHit(h, withScores, show);
    var arr := prefix + e + rest;
    var i := |prefix|;
    var fs := FieldsFor(h, show);
    var sc := StandaloneScore(env, arr, i + 1);
    var f := i + |e| - 1;
    assert arr[i] == Bulk(h.id);
    assert arr[f] == Multi(fs);
    assert f == (if sc.Some? then i + 2 else i + 1) && sc == (if withScores then h.score else None) by {
      if withScores && h.score.Some? {
        assert arr[i + 1] == Bulk(show(h.score.value));
      } else {
        assert arr[i + 1] == Multi(fs);
      }
    }
    var rf := ReadFields(env, fs, sc);
    assert rf.text == h.text && rf.score == h.score by {
      ReadEncodedFields(env, h, show, sc);
    }
    assert Hit(Str(env, arr[i]), rf.text, rf.score) == h;
    ReadHitShape(env, arr, i, sc, f, fs);
  }

  /** `ReadHit` on a non-empty id followed by a multi-bulk fields element. */
  lemma ReadHitShape(env: Env, arr: seq<Reply>, i: nat, sc: Option<Float32>, f: nat, fs: seq<Reply>)
    requires 1 <= i < f < |arr| && Str(env, arr[i]) != ""
    requires sc == StandaloneScore(env, arr, i + 1) && f == (if sc.Some? then i + 2 else i + 1)
    requires arr[f] == Multi(fs)
    ensures ReadHit(env, arr, i)
      == Some((Hit(Str(env, arr[i]), ReadFields(env, fs, sc).text, ReadFields(env, fs, sc).score), f + 1))
  {
  }

  /** The fields list of an encoded hit reads back as its text and score. */
  lemma ReadEncodedFields(env: Env, h: Hit, show: Float32 -> string, score0: Option<Float32>)
    requires h.score.Some? ==> env.tryParse(show(h.score.value)) == h.score
    ensures ReadFields(env, FieldsFor(h, show), score0).text == h.text
    ensures ReadFields(env, FieldsFor(h, show), score0).score == if h.score.Some? then h.score else score0
  {
    var fs := FieldsFor(h, show);
    var st0 := FieldState("", score0);
    var st1 := WalkPairs(env, fs, 1, st0);
    assert st1.text == h.text && st1.score == score0 by {
      assert WalkPairs(env, fs, 0, st0) == st0;
      WalkPairsStep(env, fs, 0, st0);
      StepPairEffect(env, st0, fs[0], fs[1]);
      assert Str(env, fs[0]) == TextFieldName;
    }
    if h.score.Some? {
      assert ReadFields(env, fs, score0) == WalkPairs(env, fs, 2, st0) by {
        assert |fs| / 2 == 2;
      }
      assert WalkPairs(env, fs, 2, st0) == FieldState(h.text, h.score) by {
        WalkPairsStep(env, fs, 1, st0);
        StepPairEffect(env, st1, fs[2], fs[3]);
        assert Str(env, fs[2]) == ScoreFieldName;
        assert FieldScore(env, fs[3]) == h.score;
      }
    } else {
      assert ReadFields(env, fs, score0) == st1 by {
        assert |fs| / 2 == 1;
      }
    }
  }

  /** A hit read at `i` heads the parse from `i`. */
  lemma ParseFromAfterHit(env: Env, arr: seq<Reply>, i: nat, h: Hit, j: nat)
    requires 1 <= i < |arr|
    requires ReadHit(env, arr, i) == Some((h, j))
    ensures j <= |arr| && ParseFrom(env, arr, i) == [h] + ParseFrom(env, arr, j)
  {
  }

  lemma EncodableTail(env: Env, hs: seq<Hit>, show: Float32 -> string)
    requires |hs| > 0 && Encodable(env, hs, show)
    ensures Encodable(env, hs[1..], show)
    ensures hs[0].id != "" && (hs[0].score.Some? ==> env.tryParse(show(hs[0].score.value)) == hs[0].score)
  {
    forall i | 0 <= i < |hs[1..]|
      ensures hs[1..][i] == hs[i + 1]
    {
    }
  }

  /** The first encoded hit heads the parse; the rest is parsed after it. */
  lemma ParseEncodedStep(env: Env, prefix: seq<Reply>, hs: seq<Hit>, withScores: bool, show: Float32 -> string)
    requires |prefix| >= 1 && |hs| > 0
    requires Encodable(env, hs, show)
    ensures Encodable(env, hs[1..], show)
    ensures var p2 := prefix + EncodeHit(hs[0], withScores, show);
      ParseFrom(env, prefix + EncodeHits(hs, withScores, show), |prefix|)
        == [hs[0]] + ParseFrom(env, p2 + EncodeHits(hs[1..], withScores, show), |p2|)
  {
    var e := EncodeHit(hs[0], withScores, show);
    var rest := EncodeHits(hs[1..], withScores, show);
    var p2 := prefix + e;
    var arr := p2 + rest;
    assert prefix + EncodeHits(hs, withScores, show) == arr by {
      assert EncodeHits(hs, withScores, show) == e + rest;
      assert prefix + (e + rest) == (prefix + e) + rest;
    }
    EncodableTail(env, hs, show);
    assert ReadHit(env, arr, |prefix|) == Some((hs[0], |p2|)) by {
      ReadEncodedHit(env, prefix, hs[0], rest, withScores, show);
      assert arr == prefix + EncodeHit(hs[0], withScores, show) + rest;
      assert |p2| == |prefix| + |EncodeHit(hs[0], withScores, show)|;
    }
    ParseFromAfterHit(env, arr, |prefix|, hs[0], |p2|);
  }

  lemma {:induction false} ParseEncodedHits(env: Env, prefix: seq<Reply>, hs: seq<Hit>, withScores: bool, show: Float32 -> string)
    requires |prefix| >= 1
    requires Encodable(env, hs, show)
    ensures ParseFrom(env, prefix + EncodeHits(hs, withScores, show), |prefix|) == hs
    decreases |hs|
  {
    if |hs| == 0 {
      assert prefix + EncodeHits(hs, withScores, show) == prefix;
    } else {
      ParseEncodedStep(env, prefix, hs, withScores, show);
      ParseEncodedHits(env, prefix + EncodeHit(hs[0], withScores, show), hs[1..], withScores, show);
      assert hs == [hs[0]] + hs[1..];
    }
  }

  /** Parsing a well-formed reply gives back exactly its hits, in reply
      order, with or without standalone scores: no hit is dropped,
      reordered, sorted or truncated on the client side. */
  lemma ParseEncodeRoundTrip(env: Env, hs: seq<Hit>, withScores: bool, show: Float32 -> string)
    requires Encodable(env, hs, show)
    ensures Parse(env, EncodeReply(hs, withScores, show)) == Ok(hs)
  {
    ParseEncodedHits(env, [Scalar(Integer, Decimal.IntToString(|hs|))], hs, withScores, show);
  }
}
