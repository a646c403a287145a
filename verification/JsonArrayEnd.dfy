/** The end of an array text: the last byte that is not whitespace, and that it is the closing bracket. */
module JsonArrayEnd {
  import opened Wrappers
  import opened JsonArrayText

  /** The position of the last byte that is not whitespace, or -1. */
  function LastSignificant(bs: Bytes): (p: int)
    ensures -1 <= p < |bs|
    ensures p >= 0 ==> !IsWhitespace(bs[p])
    ensures forall i :: p < i < |bs| ==> IsWhitespace(bs[i])
  {
    if bs == [] then -1
    else if IsWhitespace(bs[|bs| - 1]) then LastSignificant(bs[..|bs| - 1])
    else |bs| - 1
  }

  lemma {:induction false} LastSignificantAppend(front: Bytes, tail: Bytes)
    requires LastSignificant(tail) >= 0
    ensures LastSignificant(front + tail) == |front| + LastSignificant(tail)
    ensures (front + tail)[|front| + LastSignificant(tail)] == tail[LastSignificant(tail)]
  {
    var p, q := LastSignificant(front + tail), |front| + LastSignificant(tail);
    assert (front + tail)[q] == tail[q - |front|];
    assert q <= p;
    assert (front + tail)[p] == tail[p - |front|];
  }

  lemma LastSignificantIs(front: Bytes, b: byte, w: Bytes)
    requires !IsWhitespace(b) && AllWhitespace(w)
    ensures LastSignificant(front + ([b] + w)) == |front|
    ensures (front + ([b] + w))[|front|] == b
  {
    var tail := [b] + w;
    assert tail[0] == b && forall i :: 0 < i < |tail| ==> tail[i] == w[i - 1];
    LastSignificantAppend(front, tail);
  }

  /** The last significant byte is `b`. */
  predicate EndsIn(bs: Bytes, b: byte) {
    var p := LastSignificant(bs);
    p >= 0 && bs[p] == b
  }

  lemma EndsInAppend(front: Bytes, tail: Bytes, b: byte)
    requires EndsIn(tail, b)
    ensures EndsIn(front + tail, b)
  {
    LastSignificantAppend(front, tail);
  }

  lemma EndsInSkip(bs: Bytes, b: byte)
    requires EndsIn(SkipWhitespace(bs), b)
    ensures EndsIn(bs, b)
  {
    SkipSplits(bs);
    EndsInAppend(Skipped(bs), SkipWhitespace(bs), b);
  }

  lemma EndsInDrop(bs: Bytes, n: nat, b: byte)
    requires n <= |bs| && EndsIn(bs[n..], b)
    ensures EndsIn(bs, b)
  {
    EndsInAppend(bs[..n], bs[n..], b);
    assert bs == bs[..n] + bs[n..];
  }

  lemma ClosesHere(bs: Bytes)
    requires bs != [] && bs[0] == RBRACKET && AllWhitespace(bs[1..])
    ensures EndsIn(bs, RBRACKET)
  {
    LastSignificantIs([], RBRACKET, bs[1..]);
    assert [] + ([RBRACKET] + bs[1..]) == bs;
  }

  /** An array text ends in its closing bracket, up to whitespace. */
  lemma {:induction false} ElementsEndInBracket(bs: Bytes)
    requires ReadElements(bs).Some?
    ensures EndsIn(bs, RBRACKET)
    decreases |bs|
  {
    var n := ReadObject(bs).value;
    RestEndsInBracket(bs[n..]);
    EndsInDrop(bs, n, RBRACKET);
  }

  lemma {:induction false} RestEndsInBracket(bs: Bytes)
    requires ReadRest(bs).Some?
    ensures EndsIn(bs, RBRACKET)
    decreases |bs|
  {
    var rest := SkipWhitespace(bs);
    if rest[0] == RBRACKET {
      ClosesHere(rest);
    } else {
      ElementsEndInBracket(SkipWhitespace(rest[1..]));
      EndsInSkip(rest[1..], RBRACKET);
      EndsInDrop(rest, 1, RBRACKET);
    }
    EndsInSkip(bs, RBRACKET);
  }

  lemma ArrayEndsInBracket(bs: Bytes)
    requires ReadArray(bs).Some?
    ensures EndsIn(bs, RBRACKET)
  {
    var rest := SkipWhitespace(bs);
    var body := SkipWhitespace(rest[1..]);
    if body != [] && body[0] == RBRACKET {
      ClosesHere(body);
    } else {
      ElementsEndInBracket(body);
    }
    EndsInSkip(rest[1..], RBRACKET);
    EndsInDrop(rest, 1, RBRACKET);
    EndsInSkip(bs, RBRACKET);
  }
}
