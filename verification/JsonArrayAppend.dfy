/**
 Appending one value to the JSON array in a file without reading or
 rewriting the part in front of the closing bracket.
 */
module JsonArrayAppend {
  import opened Wrappers
  import opened JsonArrayEnd
  import opened JsonArrayText

  /** What goes in front of the new element: a comma unless the array is empty. */
  function Separator(empty: bool): Bytes {
    if empty then [NEWLINE] else [COMMA, NEWLINE]
  }

  const CLOSING: Bytes := [NEWLINE, RBRACKET, NEWLINE]

  /** A file after `written` was written over it from position `at` on; a file never shrinks. */
  function Overwritten(file: Bytes, at: nat, written: Bytes): Bytes
    requires at <= |file|
  {
    file[..at] + written + (if at + |written| < |file| then file[at + |written|..] else [])
  }

  /** The array in `file` looks empty: the two last significant bytes are brackets. */
  predicate LooksEmpty(file: Bytes) {
    var p := LastSignificant(file);
    p >= 0 && EndsIn(file[..p], LBRACKET)
  }

  /** The file after `value` was appended to the array it holds. */
  function Appended(file: Bytes, value: Bytes): Option<Bytes> {
    if file == [] then Some([LBRACKET, NEWLINE] + value + CLOSING)
    else if !EndsIn(file, RBRACKET) then None
    else Some(Overwritten(file, LastSignificant(file), Separator(LooksEmpty(file)) + value + CLOSING))
  }

  /** The array text of a full rewrite. */
  function Rendered(values: seq<Bytes>): Bytes {
    if values == [] then [LBRACKET, RBRACKET, NEWLINE]
    else [LBRACKET, NEWLINE] + RenderedElements(values)
  }

  function RenderedElements(values: seq<Bytes>): Bytes
    requires values != []
  {
    [SPACE, SPACE] + values[0] +
    if |values| == 1 then CLOSING else [COMMA, NEWLINE] + RenderedElements(values[1..])
  }

  // ---- Reading what was written -------------------------------------------

  /** The object an array's element starts with does not depend on how the array ends. */
  lemma {:induction false} ObjectSplice(core: Bytes, w: Bytes, tail: Bytes) returns (n: nat)
    requires AllWhitespace(w) && ReadElements(core + ([RBRACKET] + w)).Some?
    ensures n <= |core|
    ensures ReadObject(core + ([RBRACKET] + w)) == ReadObject(core + tail) == Some(n)
  {
    var closed := [RBRACKET] + w;
    var bs := core + closed;
    n := ReadObject(bs).value;
    assert ReadRest(bs[n..]).Some?;
    if n > |core| {
      assert bs[n..] == w[n - |core| - 1..];
      SkipAppend(bs[n..], []);
      assert false;
    }
    ScanPrefix(core, closed, OUTSIDE);
    assert core != [] && bs[0] == core[0];
    ScanIsLocal(core, OUTSIDE, tail);
    assert (core + tail)[0] == core[0];
  }

  /** Where an array ended, more elements can be spliced in. */
  lemma {:induction false} ElementsSplice(core: Bytes, w: Bytes, tail: Bytes)
    requires AllWhitespace(w) && ReadElements(core + ([RBRACKET] + w)).Some?
    requires tail != [] && tail[0] == COMMA && ReadRest(tail).Some?
    ensures ReadElements(core + tail)
         == Some(ReadElements(core + ([RBRACKET] + w)).value + ReadRest(tail).value)
    decreases |core|, 1
  {
    var n := ObjectSplice(core, w, tail);
    var was, next := core + ([RBRACKET] + w), core + tail;
    assert was[n..] == core[n..] + ([RBRACKET] + w) && next[n..] == core[n..] + tail;
    assert was[..n] == core[..n] == next[..n];
    RestSplice(core[n..], w, tail);
    var more := ReadRest(was[n..]).value;
    assert [core[..n]] + (more + ReadRest(tail).value) == ([core[..n]] + more) + ReadRest(tail).value;
  }

  lemma {:induction false} RestSplice(core: Bytes, w: Bytes, tail: Bytes)
    requires AllWhitespace(w) && ReadRest(core + ([RBRACKET] + w)).Some?
    requires tail != [] && tail[0] == COMMA && ReadRest(tail).Some?
    ensures ReadRest(core + tail)
         == Some(ReadRest(core + ([RBRACKET] + w)).value + ReadRest(tail).value)
    decreases |core|, 0
  {
    var closed := [RBRACKET] + w;
    SkipAppend(core, closed);
    SkipAppend(core, tail);
    assert closed[1..] == w;
    if AllWhitespace(core) {
      assert ReadRest(core + closed) == Some([]);
      assert SkipWhitespace(core + tail) == SkipWhitespace(tail);
      assert [] + ReadRest(tail).value == ReadRest(tail).value;
    } else {
      var c := SkipWhitespace(core);
      assert (c + closed)[1..] == c[1..] + closed && (c + tail)[1..] == c[1..] + tail;
      assert c[0] == (c + closed)[0] == (c + tail)[0];
      assert (c[1..] + closed)[|c| - 1] == RBRACKET;
      assert c[0] == COMMA;
      SkipAppend(c[1..], closed);
      SkipAppend(c[1..], tail);
      assert !AllWhitespace(c[1..]);
      ElementsSplice(SkipWhitespace(c[1..]), w, tail);
    }
  }

  /** A single element up to the end of the array. */
  lemma LastElement(x: Bytes, w: Bytes)
    requires IsObjectText(x) && AllWhitespace(w)
    ensures ReadElements(x + ([NEWLINE, RBRACKET] + w)) == Some([x])
  {
    var rest := [NEWLINE, RBRACKET] + w;
    ObjectReads(x, rest);
    SkipOne(NEWLINE, [RBRACKET] + w);
    assert rest == [NEWLINE] + ([RBRACKET] + w);
    assert ([RBRACKET] + w)[1..] == w;
    assert ReadRest(rest) == Some([]);
    assert [x] + [] == [x];
    assert (x + rest)[|x|..] == rest;
  }

  lemma SkipOne(b: byte, rest: Bytes)
    requires IsWhitespace(b)
    ensures SkipWhitespace([b] + rest) == SkipWhitespace(rest)
  {
    SkipAppend([b], rest);
  }

  lemma CommaAndLastElement(x: Bytes, w: Bytes)
    requires IsObjectText(x) && AllWhitespace(w)
    ensures ReadRest([COMMA, NEWLINE] + x + ([NEWLINE, RBRACKET] + w)) == Some([x])
  {
    var body := x + ([NEWLINE, RBRACKET] + w);
    var tail := [COMMA, NEWLINE] + x + ([NEWLINE, RBRACKET] + w);
    assert tail[1..] == [NEWLINE] + body;
    SkipOne(NEWLINE, body);
    ObjectReads(x, [NEWLINE, RBRACKET] + w);
    LastElement(x, w);
  }

  /** An object's text ends in a closing bracket. */
  lemma {:induction false} ScanStopsAtCloser(bs: Bytes, l: Lex)
    requires Scan(bs, l).Some? && l.depth >= 1
    ensures var last := bs[Scan(bs, l).value - 1]; last == RBRACE || last == RBRACKET
  {
    var next := LexStep(l, bs[0]);
    if next.depth == 0 && !next.inString {
    } else {
      ScanStopsAtCloser(bs[1..], next);
    }
  }

  lemma ObjectStopsAtCloser(bs: Bytes)
    requires ReadObject(bs).Some?
    ensures var last := bs[ReadObject(bs).value - 1]; last == RBRACE || last == RBRACKET
  {
    var next := LexStep(OUTSIDE, bs[0]);
    assert next == Lex(1, false, false);
    ScanStopsAtCloser(bs[1..], next);
  }

  predicate EndsInCloser(bs: Bytes) {
    EndsIn(bs, RBRACE) || EndsIn(bs, RBRACKET)
  }

  lemma CloserInFront(front: Bytes, tail: Bytes)
    requires EndsInCloser(tail)
    ensures EndsInCloser(front + tail)
  {
    LastSignificantAppend(front, tail);
  }

  lemma CloserBehind(bs: Bytes)
    requires EndsInCloser(SkipWhitespace(bs))
    ensures EndsInCloser(bs)
  {
    SkipSplits(bs);
    var w := Skipped(bs);
    CloserInFront(w, SkipWhitespace(bs));
  }

  /** In front of the closing bracket of a non-empty array stands an element's closing bracket. */
  lemma {:induction false} ElementsKeepCloser(core: Bytes, w: Bytes)
    requires AllWhitespace(w) && ReadElements(core + ([RBRACKET] + w)).Some?
    ensures EndsInCloser(core)
    decreases |core|, 1
  {
    var closed := [RBRACKET] + w;
    var n := ObjectSplice(core, w, closed);
    assert (core + closed)[n..] == core[n..] + closed;
    ObjectStopsAtCloser(core + closed);
    assert (core + closed)[n - 1] == core[n - 1];
    assert core == core[..n] + core[n..];
    if AllWhitespace(core[n..]) {
      assert core == core[..n - 1] + ([core[n - 1]] + core[n..]);
      LastSignificantIs(core[..n - 1], core[n - 1], core[n..]);
    } else {
      RestKeepsCloser(core[n..], w);
      CloserInFront(core[..n], core[n..]);
    }
  }

  lemma {:induction false} RestKeepsCloser(core: Bytes, w: Bytes)
    requires AllWhitespace(w) && ReadRest(core + ([RBRACKET] + w)).Some?
    requires !AllWhitespace(core)
    ensures EndsInCloser(core)
    decreases |core|, 0
  {
    var closed := [RBRACKET] + w;
    SkipAppend(core, closed);
    var c := SkipWhitespace(core);
    assert (c + closed)[1..] == c[1..] + closed && c[0] == (c + closed)[0];
    assert (c[1..] + closed)[|c| - 1] == RBRACKET;
    assert c[0] == COMMA;
    SkipAppend(c[1..], closed);
    assert !AllWhitespace(c[1..]);
    ElementsKeepCloser(SkipWhitespace(c[1..]), w);
    CloserBehind(c[1..]);
    assert c == [c[0]] + c[1..];
    CloserInFront([c[0]], c[1..]);
    CloserBehind(core);
  }

  // ---- The array before the closing bracket ---------------------------------

  predicate StartsOpen(core: Bytes) {
    var c := SkipWhitespace(core);
    c != [] && c[0] == LBRACKET
  }

  /** What stands in front of the closing bracket: the opening bracket and the elements' text. */
  lemma Unclose(file: Bytes) returns (core: Bytes, w: Bytes)
    requires ReadArray(file).Some?
    ensures LastSignificant(file) >= 0 && core == file[..LastSignificant(file)]
    ensures file == core + ([RBRACKET] + w)
    ensures AllWhitespace(w) && StartsOpen(core)
  {
    ArrayEndsInBracket(file);
    var p := LastSignificant(file);
    core, w := file[..p], file[p + 1..];
    forall i | 0 <= i < |w| ensures IsWhitespace(w[i]) { assert w[i] == file[p + 1 + i]; }
    var closed := [RBRACKET] + w;
    assert file == core + closed;
    SkipAppend(core, closed);
    assert SkipWhitespace(closed) == closed;
    assert SkipWhitespace(file)[0] == LBRACKET;
  }

  /** The array is empty exactly when only whitespace stands between the brackets. */
  lemma {:induction false} BodyOf(core: Bytes, w: Bytes)
    requires AllWhitespace(w) && StartsOpen(core)
    requires ReadArray(core + ([RBRACKET] + w)).Some?
    ensures var inner := SkipWhitespace(core)[1..];
      if AllWhitespace(inner) then ReadArray(core + ([RBRACKET] + w)) == Some([])
      else ReadElements(SkipWhitespace(inner) + ([RBRACKET] + w)) == ReadArray(core + ([RBRACKET] + w))
  {
    var closed := [RBRACKET] + w;
    var c := SkipWhitespace(core);
    SkipAppend(core, closed);
    assert (c + closed)[1..] == c[1..] + closed && (c + closed)[0] == c[0];
    SkipAppend(c[1..], closed);
    if AllWhitespace(c[1..]) {
      assert closed[1..] == w;
    } else {
      BodyIsNotEmpty(SkipWhitespace(c[1..]), closed);
    }
  }

  /** Elements do not start with a closing bracket when another one follows. */
  lemma BodyIsNotEmpty(d: Bytes, closed: Bytes)
    requires d != [] && closed != [] && closed[0] == RBRACKET
    ensures (d + closed)[0] == d[0]
    ensures d[0] == RBRACKET ==> !AllWhitespace((d + closed)[1..])
  {
    assert (d + closed)[0] == d[0] && (d + closed)[1..] == d[1..] + closed;
    assert (d[1..] + closed)[|d| - 1] == RBRACKET;
  }

  lemma {:induction false} ElementsAreNotNone(bs: Bytes)
    requires ReadElements(bs).Some?
    ensures ReadElements(bs).value != []
  {
    assert ReadElements(bs).value[0] == bs[..ReadObject(bs).value];
  }

  /** The byte test for an empty array is right: it is true exactly when the array has no element. */
  lemma LooksEmptyIsEmpty(file: Bytes)
    requires ReadArray(file).Some?
    ensures LooksEmpty(file) <==> ReadArray(file) == Some([])
  {
    var core, w := Unclose(file);
    BodyOf(core, w);
    SkipSplits(core);
    var v := Skipped(core);
    var c := SkipWhitespace(core);
    assert c == [LBRACKET] + c[1..];
    if AllWhitespace(c[1..]) {
      LastSignificantIs(v, LBRACKET, c[1..]);
      assert LastSignificant(core) == |v| && core[|v|] == LBRACKET;
    } else {
      var d := SkipWhitespace(c[1..]);
      ElementsKeepCloser(d, w);
      ElementsAreNotNone(d + ([RBRACKET] + w));
      CloserBehind(c[1..]);
      CloserInFront([LBRACKET], c[1..]);
      CloserBehind(core);
    }
  }

  /** After an append to a non-empty array the file holds one element more. */
  lemma AppendToSome(core: Bytes, w: Bytes, value: Bytes, w': Bytes)
    requires AllWhitespace(w) && AllWhitespace(w') && IsObjectText(value)
    requires StartsOpen(core)
    requires ReadArray(core + ([RBRACKET] + w)).Some? && ReadArray(core + ([RBRACKET] + w)).value != []
    ensures ReadArray(core + ([COMMA, NEWLINE] + value + ([NEWLINE, RBRACKET] + w')))
         == Some(ReadArray(core + ([RBRACKET] + w)).value + [value])
  {
    var tail := [COMMA, NEWLINE] + value + ([NEWLINE, RBRACKET] + w');
    BodyOf(core, w);
    CommaAndLastElement(value, w');
    var c := SkipWhitespace(core);
    var d := SkipWhitespace(c[1..]);
    SkipAppend(core, tail);
    SkipAppend(c[1..], tail);
    assert (c + tail)[1..] == c[1..] + tail && (c + tail)[0] == c[0];
    ElementsSplice(d, w, tail);
    assert ReadElements(d + tail).Some?;
    assert (d + tail)[0] == LBRACE;
  }

  /** After an append to an empty array the file holds that one element. */
  lemma AppendToNone(core: Bytes, w: Bytes, value: Bytes, w': Bytes)
    requires AllWhitespace(w) && AllWhitespace(w') && IsObjectText(value)
    requires StartsOpen(core)
    requires ReadArray(core + ([RBRACKET] + w)) == Some([])
    ensures ReadArray(core + ([NEWLINE] + value + ([NEWLINE, RBRACKET] + w'))) == Some([value])
  {
    var body := value + ([NEWLINE, RBRACKET] + w');
    var tail := [NEWLINE] + value + ([NEWLINE, RBRACKET] + w');
    assert tail == [NEWLINE] + body;
    BodyOf(core, w);
    var c := SkipWhitespace(core);
    if !AllWhitespace(c[1..]) { ElementsAreNotNone(SkipWhitespace(c[1..]) + ([RBRACKET] + w)); }
    SkipAppend(core, tail);
    SkipAppend(c[1..], tail);
    SkipOne(NEWLINE, body);
    ObjectReads(value, [NEWLINE, RBRACKET] + w');
    assert (c + tail)[1..] == c[1..] + tail && (c + tail)[0] == c[0];
    assert body[0] == value[0] == LBRACE;
    LastElement(value, w');
  }

  /** The elements a file holds; a file without a byte stands for no element. */
  function ElementsOf(file: Bytes): Option<seq<Bytes>> {
    if file == [] then Some([]) else ReadArray(file)
  }

  lemma FirstElement(value: Bytes)
    requires IsObjectText(value)
    ensures ReadArray([LBRACKET, NEWLINE] + value + CLOSING) == Some([value])
  {
    var body := value + ([NEWLINE, RBRACKET] + [NEWLINE]);
    var text := [LBRACKET, NEWLINE] + value + CLOSING;
    assert text == [LBRACKET] + ([NEWLINE] + body);
    assert text[1..] == [NEWLINE] + body;
    SkipOne(NEWLINE, body);
    ObjectReads(value, [NEWLINE, RBRACKET] + [NEWLINE]);
    assert body[0] == value[0] == LBRACE;
    LastElement(value, [NEWLINE]);
  }

  /** An overwrite keeps what stands in front and leaves only whitespace behind. */
  lemma OverwriteKeepsFront(file: Bytes, separator: Bytes, value: Bytes) returns (w: Bytes)
    requires LastSignificant(file) >= 0
    ensures AllWhitespace(w)
    ensures Overwritten(file, LastSignificant(file), separator + value + CLOSING)
         == file[..LastSignificant(file)] + (separator + value + ([NEWLINE, RBRACKET] + w))
  {
    var p := LastSignificant(file);
    var written := separator + value + CLOSING;
    var left := if p + |written| < |file| then file[p + |written|..] else [];
    forall i | 0 <= i < |left| ensures IsWhitespace(left[i]) { assert left[i] == file[p + |written| + i]; }
    w := [NEWLINE] + left;
    assert CLOSING + left == [NEWLINE, RBRACKET] + w;
    assert written + left == separator + value + ([NEWLINE, RBRACKET] + w);
    assert file[..p] + written + left == file[..p] + (written + left);
  }

  /**
   Appending in place is right: whatever whitespace the file uses, it then
   holds the same elements followed by the new one.
   */
  lemma AppendExtendsArray(file: Bytes, value: Bytes)
    requires ElementsOf(file).Some? && IsObjectText(value)
    ensures Appended(file, value).Some?
    ensures ElementsOf(Appended(file, value).value) == Some(ElementsOf(file).value + [value])
    ensures file != [] ==> file[..LastSignificant(file)] <= Appended(file, value).value
  {
    if file == [] {
      FirstElement(value);
      assert [] + [value] == [value];
    } else {
      var core, w := Unclose(file);
      LooksEmptyIsEmpty(file);
      var w' := OverwriteKeepsFront(file, Separator(LooksEmpty(file)), value);
      if LooksEmpty(file) {
        AppendToNone(core, w, value, w');
        assert [] + [value] == [value];
      } else {
        AppendToSome(core, w, value, w');
      }
    }
  }

  // ---- A full rewrite ---------------------------------------------------------

  predicate AreObjectTexts(values: seq<Bytes>) {
    forall i :: 0 <= i < |values| ==> IsObjectText(values[i])
  }

  lemma IndentedElement(x: Bytes, rest: Bytes)
    requires IsObjectText(x)
    ensures SkipWhitespace([SPACE, SPACE] + x + rest) == x + rest
    ensures x + rest != [] && (x + rest)[0] == LBRACE
  {
    assert [SPACE, SPACE] + x + rest == [SPACE] + ([SPACE] + (x + rest));
    SkipOne(SPACE, [SPACE] + (x + rest));
    SkipOne(SPACE, x + rest);
    ObjectReads(x, rest);
    assert (x + rest)[0] == x[0];
  }

  lemma {:induction false} RenderedElementsRead(values: seq<Bytes>)
    requires values != [] && AreObjectTexts(values)
    ensures var body := SkipWhitespace(RenderedElements(values));
      body != [] && body[0] == LBRACE && ReadElements(body) == Some(values)
  {
    var x := values[0];
    var rest := if |values| == 1 then CLOSING else [COMMA, NEWLINE] + RenderedElements(values[1..]);
    assert RenderedElements(values) == [SPACE, SPACE] + x + rest;
    IndentedElement(x, rest);
    if |values| == 1 {
      assert CLOSING == [NEWLINE, RBRACKET] + [NEWLINE];
      LastElement(x, [NEWLINE]);
      assert values == [x];
    } else {
      RenderedElementsRead(values[1..]);
      RenderedRestReads(values[1..]);
      ObjectReads(x, rest);
      assert values == [x] + values[1..];
    }
  }

  lemma RenderedRestReads(values: seq<Bytes>)
    requires values != [] && ReadElements(SkipWhitespace(RenderedElements(values))) == Some(values)
    ensures ReadRest([COMMA, NEWLINE] + RenderedElements(values)) == Some(values)
  {
    var more := RenderedElements(values);
    assert ([COMMA, NEWLINE] + more)[1..] == [NEWLINE] + more;
    SkipOne(NEWLINE, more);
  }

  /** A full rewrite reads back as the sequence that was written. */
  lemma RenderedReads(values: seq<Bytes>)
    requires AreObjectTexts(values)
    ensures ReadArray(Rendered(values)) == Some(values)
  {
    if values != [] {
      var more := RenderedElements(values);
      assert Rendered(values) == [LBRACKET] + ([NEWLINE] + more);
      assert Rendered(values)[1..] == [NEWLINE] + more;
      SkipOne(NEWLINE, more);
      RenderedElementsRead(values);
    } else {
      assert Rendered(values)[1..] == [RBRACKET, NEWLINE];
    }
  }

  // ---- The chunked backward scan ------------------------------------------------

  /** What the scan knows once it has looked at every byte from `offset` on. */
  ghost predicate Scanned(file: Bytes, offset: int, significant: Bytes, positions: seq<nat>) {
    && 0 <= offset <= |file|
    && |significant| == |positions| <= 2
    && (|significant| == 0 ==> AllWhitespace(file[offset..]))
    && (|significant| >= 1 ==>
          offset <= positions[0] == LastSignificant(file) && significant[0] == file[positions[0]])
    && (|significant| == 1 ==> AllWhitespace(file[offset..positions[0]]))
    && (|significant| == 2 ==>
          positions[1] == LastSignificant(file[..positions[0]]) && significant[1] == file[positions[1]])
  }

  lemma LastSignificantUnique(bs: Bytes, p: nat)
    requires p < |bs| && !IsWhitespace(bs[p]) && AllWhitespace(bs[p + 1..])
    ensures LastSignificant(bs) == p
  {
    forall i | p < i < |bs| ensures IsWhitespace(bs[i]) { assert bs[i] == bs[p + 1..][i - p - 1]; }
  }

  /** One byte further to the front: whitespace changes nothing, any other byte is taken. */
  lemma ScanByte(file: Bytes, at: nat, significant: Bytes, positions: seq<nat>)
    requires Scanned(file, at + 1, significant, positions) && |significant| < 2
    ensures IsWhitespace(file[at]) ==> Scanned(file, at, significant, positions)
    ensures !IsWhitespace(file[at]) ==> Scanned(file, at, significant + [file[at]], positions + [at])
  {
    var end := if |significant| == 0 then |file| else positions[0];
    assert file[at..end] == [file[at]] + file[at + 1..end];
    if !IsWhitespace(file[at]) {
      assert file[..end][at + 1..] == file[at + 1..end];
      LastSignificantUnique(file[..end], at);
      assert |significant| == 0 ==> file[..end] == file;
    }
  }

  /** A scan that took two bytes, or went through the whole file, has the answer. */
  lemma ScanAnswers(file: Bytes, at: nat, significant: Bytes, positions: seq<nat>)
    requires Scanned(file, at, significant, positions) && (|significant| == 2 || at == 0)
    ensures significant == [] ==> !EndsIn(file, RBRACKET)
    ensures significant != [] ==>
      (EndsIn(file, RBRACKET) <==> significant[0] == RBRACKET) && positions[0] == LastSignificant(file)
    ensures significant != [] ==> (LooksEmpty(file) <==> |significant| > 1 && significant[1] == LBRACKET)
  {
    if |significant| == 0 {
      assert file == file[at..];
    } else if |significant| == 1 {
      assert file[..positions[0]] == file[0..positions[0]];
    }
  }

  /** Takes up to two significant bytes in all from the chunk `file[start..offset]`, back to front. */
  method ScanChunk(file: Bytes, start: nat, offset: nat, taken: Bytes, places: seq<nat>)
    returns (significant: Bytes, positions: seq<nat>, ghost at: nat)
    requires start <= offset <= |file| && |taken| < 2
    requires Scanned(file, offset, taken, places)
    ensures Scanned(file, at, significant, positions)
    ensures |significant| == 2 || at == start
  {
    significant, positions := taken, places;
    var chunk := file[start..offset];
    var index := |chunk| - 1;
    while index >= 0 && |significant| < 2
      invariant -1 <= index < |chunk|
      invariant Scanned(file, start + index + 1, significant, positions)
    {
      ScanByte(file, start + index, significant, positions);
      assert chunk[index] == file[start + index];
      if !IsWhitespace(chunk[index]) {
        significant, positions := significant + [chunk[index]], positions + [start + index];
      }
      index := index - 1;
    }
    at := start + index + 1;
  }

  /**
   Finds where an append to the array in `file` starts, reading the file
   backwards in chunks.  The answer does not depend on the chunk size: it is
   the position of the closing bracket and whether the array is empty.
   */
  method FindAppendPosition(file: Bytes, chunkSize: nat) returns (r: Option<(nat, bool)>)
    requires chunkSize >= 1
    ensures r.Some? <==> EndsIn(file, RBRACKET)
    ensures r.Some? ==> r.value == (LastSignificant(file), LooksEmpty(file))
  {
    var significant: Bytes := [];
    var positions: seq<nat> := [];
    var offset := |file|;
    ghost var at := offset;
    assert Scanned(file, at, significant, positions);
    while offset > 0 && |significant| < 2
      invariant 0 <= offset <= |file|
      invariant Scanned(file, at, significant, positions)
      invariant |significant| == 2 || at == offset
    {
      var start := if offset < chunkSize then 0 else offset - chunkSize;
      significant, positions, at := ScanChunk(file, start, offset, significant, positions);
      offset := start;
    }
    ScanAnswers(file, at, significant, positions);
    if significant == [] || significant[0] != RBRACKET {
      return None;
    }
    return Some((positions[0], |significant| > 1 && significant[1] == LBRACKET));
  }
}
