/** Masking adds no token that could not be read back: what `int` can read of a text it can read of the masked text. */
module TokenLimits {
  import opened MaskTokens
  import opened Masking

  lemma ReadableSliceAt(text: string, from: nat, to: nat, p: nat)
    requires from <= to <= |text| && p <= to - from && ReadableAt(text, from + p)
    ensures ReadableAt(text[from..to], p)
  {
    var s := text[from..to][p..];
    if TokenLen(s) > 0 {
      SliceTail(text, from, to, p);
      TokenExtends(s, text[to..]);
      assert text[from + p..][..TokenLen(s)] == s[..TokenLen(s)];
    }
  }

  lemma ReadableSlice(text: string, from: nat, to: nat)
    requires from <= to <= |text| && Readable(text)
    ensures Readable(text[from..to])
  {
    forall p: nat ensures ReadableAt(text[from..to], p) {
      if p <= to - from {
        assert ReadableAt(text, from + p);
        ReadableSliceAt(text, from, to, p);
      }
    }
  }

  /** Before the token: no match reaches into it. */
  lemma ReadableBefore(gap: string, rest: string, p: nat)
    requires p < |gap| && rest != [] && rest[0] == '[' && ReadableAt(gap, p)
    ensures ReadableAt(gap + rest, p)
  {
    DropConcat(gap, rest, p);
    TokenStopsBefore(gap[p..], rest);
    var n := TokenLen(gap[p..]);
    CutConcat(gap[p..], rest, n);
  }

  /** The token itself, and nothing inside it. */
  lemma ReadableToken(token: string, rest: string, p: nat)
    requires IsToken(token) && !TooLong(token) && p < |token|
    ensures ReadableAt(token + rest, p)
  {
    TokenExtends(token, rest);
    if p == 0 {
      assert (token + rest)[0..] == token + rest;
      CutConcat(token, rest, |token|);
    } else {
      NoBracketInside(token, p);
      assert (token + rest)[p..][0] == token[p];
    }
  }

  lemma ReadableAfter(before: string, rest: string, p: nat)
    requires p >= |before| && ReadableAt(rest, p - |before|)
    ensures ReadableAt(before + rest, p)
  {
    if p <= |before + rest| { assert (before + rest)[p..] == rest[p - |before|..]; }
  }

  lemma ReadableJoin(gap: string, token: string, rest: string)
    requires Readable(gap) && IsToken(token) && !TooLong(token) && Readable(rest)
    ensures Readable(gap + token + rest)
  {
    assert gap + token + rest == gap + (token + rest);
    forall p: nat ensures ReadableAt(gap + (token + rest), p) {
      if p < |gap| {
        assert ReadableAt(gap, p);
        ReadableBefore(gap, token + rest, p);
      } else {
        var q := p - |gap|;
        if q < |token| {
          ReadableToken(token, rest, q);
        } else {
          assert ReadableAt(rest, q - |token|);
          ReadableAfter(token, rest, q);
        }
        ReadableAfter(gap, token + rest, p);
      }
    }
  }

  /** Replacing spans of a readable text by printable tokens leaves it readable. */
  lemma {:induction false} MaskedIsReadable(text: string, cursor: nat, entities: seq<Entity>)
    requires Ordered(entities, cursor, |text|) && Readable(text)
    requires forall k {:trigger entities[k]} ::
      0 <= k < |entities| ==> IsToken(entities[k].token) && !TooLong(entities[k].token)
    ensures Readable(MaskFrom(text, cursor, entities))
    decreases |entities|
  {
    OrderedBounds(entities, cursor, |text|);
    if entities == [] {
      assert text[cursor..|text|] == text[cursor..];
      ReadableSlice(text, cursor, |text|);
    } else {
      var e := entities[0];
      MaskedIsReadable(text, e.end, entities[1..]);
      ReadableSlice(text, cursor, e.start);
      ReadableJoin(text[cursor..e.start], e.token, MaskFrom(text, e.end, entities[1..]));
    }
  }
}
