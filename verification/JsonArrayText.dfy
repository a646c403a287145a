/**
 The text of `events.json`: a JSON array of objects, read byte by byte.

 `ReadArray` is the reader the rest of the project trusts.  It splits a file
 into the texts of the array's elements, skipping any amount of whitespace
 around the structural characters (RFC 8259, sections 2 and 5).  An element
 is an object: from `{` up to the byte that closes it, with strings and
 escapes taken into account.  Kinds of closing brackets are not compared, so
 the reader accepts every JSON array of objects and a little more.
 */
module JsonArrayText {
  import opened Wrappers

  newtype byte = b: int | 0 <= b < 256
  type Bytes = seq<byte>

  const TAB: byte := 0x09
  const NEWLINE: byte := 0x0A
  const RETURN: byte := 0x0D
  const SPACE: byte := 0x20
  const QUOTE: byte := 0x22
  const COMMA: byte := 0x2C
  const LBRACKET: byte := 0x5B
  const BACKSLASH: byte := 0x5C
  const RBRACKET: byte := 0x5D
  const LBRACE: byte := 0x7B
  const RBRACE: byte := 0x7D

  predicate IsWhitespace(b: byte) {
    b == SPACE || b == NEWLINE || b == RETURN || b == TAB
  }

  predicate AllWhitespace(bs: Bytes) {
    forall i :: 0 <= i < |bs| ==> IsWhitespace(bs[i])
  }

  function SkipWhitespace(bs: Bytes): (r: Bytes)
    ensures |r| <= |bs|
    ensures r == [] || !IsWhitespace(r[0])
  {
    if bs != [] && IsWhitespace(bs[0]) then SkipWhitespace(bs[1..]) else bs
  }

  /** Where a scan stands: open brackets, and whether it is inside a string. */
  datatype Lex = Lex(depth: nat, inString: bool, escaped: bool)

  const OUTSIDE := Lex(0, false, false)

  function LexStep(l: Lex, b: byte): Lex {
    if l.inString then
      if l.escaped then l.(escaped := false)
      else if b == BACKSLASH then l.(escaped := true)
      else if b == QUOTE then l.(inString := false)
      else l
    else if b == QUOTE then l.(inString := true)
    else if b == LBRACE || b == LBRACKET then l.(depth := l.depth + 1)
    else if (b == RBRACE || b == RBRACKET) && l.depth > 0 then l.(depth := l.depth - 1)
    else l
  }

  /** The number of bytes up to and including the one that closes every open bracket. */
  function Scan(bs: Bytes, l: Lex): (r: Option<nat>)
    ensures r.Some? ==> 1 <= r.value <= |bs|
  {
    if bs == [] then None
    else
      var next := LexStep(l, bs[0]);
      if next.depth == 0 && !next.inString then Some(1)
      else
        match Scan(bs[1..], next)
        case None => None
        case Some(n) => Some(n + 1)
  }

  /** The length of the object that `bs` starts with. */
  function ReadObject(bs: Bytes): (r: Option<nat>)
    ensures r.Some? ==> 1 <= r.value <= |bs|
  {
    if bs != [] && bs[0] == LBRACE then Scan(bs, OUTSIDE) else None
  }

  /** `bs` is one object and nothing else. */
  predicate IsObjectText(bs: Bytes) {
    ReadObject(bs) == Some(|bs|)
  }

  /** Reads elements up to the closing bracket; `bs` stands at an element. */
  function ReadElements(bs: Bytes): Option<seq<Bytes>>
    decreases |bs|
  {
    match ReadObject(bs)
    case None => None
    case Some(n) =>
      match ReadRest(bs[n..])
      case None => None
      case Some(more) => Some([bs[..n]] + more)
  }

  /** Reads on from just behind an element: the end of the array, or a comma and more. */
  function ReadRest(bs: Bytes): Option<seq<Bytes>>
    decreases |bs|
  {
    var rest := SkipWhitespace(bs);
    if rest == [] then None
    else if rest[0] == RBRACKET then
      if AllWhitespace(rest[1..]) then Some([]) else None
    else if rest[0] == COMMA then ReadElements(SkipWhitespace(rest[1..]))
    else None
  }

  /** The element texts of the array that `bs` holds, if it holds one. */
  function ReadArray(bs: Bytes): Option<seq<Bytes>> {
    var rest := SkipWhitespace(bs);
    if rest == [] || rest[0] != LBRACKET then None
    else
      var body := SkipWhitespace(rest[1..]);
      if body != [] && body[0] == RBRACKET then
        if AllWhitespace(body[1..]) then Some([]) else None
      else ReadElements(body)
  }

  // ---- Whitespace and scanning -------------------------------------------

  lemma {:induction false} SkipAppend(a: Bytes, b: Bytes)
    ensures AllWhitespace(a) ==> SkipWhitespace(a) == [] && SkipWhitespace(a + b) == SkipWhitespace(b)
    ensures !AllWhitespace(a) ==> SkipWhitespace(a) != [] && SkipWhitespace(a + b) == SkipWhitespace(a) + b
  {
    if a == [] {
      assert a + b == b;
    } else {
      assert (a + b)[1..] == a[1..] + b;
      if IsWhitespace(a[0]) {
        SkipAppend(a[1..], b);
        assert AllWhitespace(a) <==> AllWhitespace(a[1..]) by {
          if AllWhitespace(a[1..]) {
            forall i | 0 <= i < |a| ensures IsWhitespace(a[i]) {
              if i > 0 { assert a[i] == a[1..][i - 1]; }
            }
          }
        }
      }
    }
  }

  /** The whitespace that is skipped. */
  function Skipped(bs: Bytes): Bytes {
    if bs != [] && IsWhitespace(bs[0]) then [bs[0]] + Skipped(bs[1..]) else []
  }

  lemma {:induction false} SkipSplits(bs: Bytes)
    ensures bs == Skipped(bs) + SkipWhitespace(bs) && AllWhitespace(Skipped(bs))
  {
    if bs != [] && IsWhitespace(bs[0]) {
      SkipSplits(bs[1..]);
      assert bs == [bs[0]] + bs[1..];
    }
  }

  /** A scan looks no further than the byte where it stops. */
  lemma {:induction false} ScanIsLocal(a: Bytes, l: Lex, b: Bytes)
    requires Scan(a, l).Some?
    ensures Scan(a + b, l) == Scan(a, l)
    ensures Scan(a[..Scan(a, l).value], l) == Scan(a, l)
  {
    var next := LexStep(l, a[0]);
    assert (a + b)[0] == a[0];
    var n := Scan(a, l).value;
    if next.depth == 0 && !next.inString {
    } else {
      ScanIsLocal(a[1..], next, b);
      assert (a + b)[1..] == a[1..] + b;
      assert a[..n][1..] == a[1..][..n - 1];
    }
  }

  lemma {:induction false} ScanPrefix(a: Bytes, b: Bytes, l: Lex)
    requires Scan(a + b, l).Some? && Scan(a + b, l).value <= |a|
    ensures Scan(a, l) == Scan(a + b, l)
  {
    var next := LexStep(l, a[0]);
    assert (a + b)[0] == a[0];
    if next.depth == 0 && !next.inString {
    } else {
      assert (a + b)[1..] == a[1..] + b;
      ScanPrefix(a[1..], b, next);
    }
  }

  /** An object followed by anything reads as that object. */
  lemma ObjectReads(x: Bytes, rest: Bytes)
    requires IsObjectText(x)
    ensures ReadObject(x + rest) == Some(|x|)
    ensures SkipWhitespace(x + rest) == x + rest
    ensures (x + rest)[..|x|] == x && (x + rest)[|x|..] == rest
  {
    ScanIsLocal(x, OUTSIDE, rest);
    assert (x + rest)[0] == x[0];
  }
}
