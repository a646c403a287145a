/** Generated blocks in the documentation: what stands between two markers is replaced. */
module InstallDocs {
  import opened Wrappers
  import opened MarkedText
  import opened Text

  datatype Error = MissingMarker(marker: string)

  /** A block is named by its two markers. */
  datatype Block = Block(start: string, end: string)

  predicate IsBlock(b: Block) {
    IsMarker(b.start) && IsMarker(b.end)
  }

  const INSTALL := Block("<!-- NANA:INSTALL:START -->", "<!-- NANA:INSTALL:END -->")
  const RELEASE := Block("<!-- NANA:RELEASE:START -->", "<!-- NANA:RELEASE:END -->")

  /** Where a block stands: just behind its start marker, and at its end marker. */
  datatype Span = Span(from: nat, to: nat)

  function SpanOf(content: string, b: Block): (r: Result<Span, Error>)
    ensures r.Ok? ==> |b.start| <= r.value.from <= r.value.to && r.value.to + |b.end| <= |content|
  {
    var start := Index(content, b.start);
    if start < 0 then Err(MissingMarker(b.start))
    else
      var from := start + |b.start|;
      var rel := Index(content[from..], b.end);
      if rel < 0 then Err(MissingMarker(b.end)) else Ok(Span(from, from + rel))
  }

  /** The content with the block's lines replaced. */
  function Replaced(content: string, b: Block, replacement: string): Result<string, Error> {
    match SpanOf(content, b)
    case Err(e) => Err(e)
    case Ok(span) => Ok(content[..span.from] + "\n" + TrimBreaks(replacement) + "\n" + content[span.to..])
  }

  /** The two blocks stand apart: one ends before the other starts. */
  predicate Apart(a: Block, x: Span, b: Block, y: Span) {
    x.to + |a.end| <= y.from - |b.start| || y.to + |b.end| <= x.from - |a.start|
  }

  // ---- One block --------------------------------------------------------------------

  /** Lines put between a front and a rear. */
  function Framed(front: string, lines: string, rear: string): string {
    front + "\n" + (lines + "\n" + rear)
  }

  /** What a replacement is made of: the untouched front and rear with the new lines between. */
  lemma Parts(content: string, b: Block, replacement: string) returns (front: string, mid: string, rear: string)
    requires SpanOf(content, b).Ok?
    ensures content == front + mid + rear
    ensures SpanOf(content, b) == Ok(Span(|front|, |front + mid|))
    ensures Replaced(content, b, replacement) == Ok(Framed(front, TrimBreaks(replacement), rear))
  {
    var span := SpanOf(content, b).value;
    front, mid, rear := content[..span.from], content[span.from..span.to], content[span.to..];
    Regroup(front, TrimBreaks(replacement), rear);
  }

  lemma Regroup(front: string, lines: string, rear: string)
    ensures front + "\n" + lines + "\n" + rear == Framed(front, lines, rear)
  {
  }

  /** The texts before and after an exchange, with the front they share taken apart. */
  lemma FrontFirst(front: string, mid: string, rear: string, lines: string)
    ensures front + mid + rear == front + (mid + rear)
    ensures Framed(front, lines, rear) == front + ("\n" + (lines + "\n" + rear))
  {
  }

  /** The same, with the end of the rear that they share taken apart. */
  lemma RestLast(front: string, mid: string, gap: string, rest: string, lines: string)
    ensures front + mid + (gap + rest) == (front + mid + gap) + rest
    ensures Framed(front, lines, gap + rest) == (front + "\n" + (lines + "\n") + gap) + rest
  {
  }

  /** A span is where the markers stand for the first time. */
  lemma SpanMeans(s: string, front: string, rest: string, b: Block, n: nat)
    requires s == front + rest && |b.start| <= |front| && n <= |rest|
    ensures SpanOf(s, b) == Ok(Span(|front|, |front| + n)) <==>
      Index(s, b.start) == |front| - |b.start| && Index(rest, b.end) == n
  {
    assert s[|front|..] == rest;
  }

  /** The end marker stands at the front of what follows the block. */
  lemma EndStands(front: string, mid: string, rear: string, b: Block)
    requires SpanOf(front + mid + rear, b) == Ok(Span(|front|, |front + mid|))
    ensures StandsAt(rear, b.end, 0)
  {
    assert front + mid + rear == front + (mid + rear);
    SpanMeans(front + mid + rear, front, mid + rear, b, |mid|);
    FirstIsIndex(mid + rear, b.end, |mid|);
    Behind(mid, rear, b.end, |mid|);
  }

  /** Where the end marker is found behind new lines. */
  function EndBehind(lines: string, m: string): nat {
    1 + if Contains(lines, m) then Index(lines, m) else |lines| + 1
  }

  /** A block whose start marker is in the front starts there whatever follows, and ends at the first end marker. */
  lemma StartInFront(s: string, t: string, front: string, was: string, now: string, b: Block, n: nat, k: nat)
    requires s == front + was && t == front + now && |b.start| <= |front| && n <= |was| && k <= |now|
    requires SpanOf(s, b) == Ok(Span(|front|, |front| + n)) && Index(now, b.end) == k
    ensures SpanOf(t, b) == Ok(Span(|front|, |front| + k))
  {
    SpanMeans(s, front, was, b, n);
    FirstInFront(front, was, now, b.start, |front| - |b.start|);
    SpanMeans(t, front, now, b, k);
  }

  /** With new lines a block starts where it did, and ends behind them unless they hold its end marker. */
  lemma FramedSpan(front: string, mid: string, rear: string, lines: string, b: Block)
    requires IsBlock(b) && SpanOf(front + mid + rear, b) == Ok(Span(|front|, |front + mid|))
    ensures SpanOf(Framed(front, lines, rear), b) == Ok(Span(|front|, |front| + EndBehind(lines, b.end)))
  {
    var s, t := front + mid + rear, Framed(front, lines, rear);
    var was, now := mid + rear, "\n" + (lines + "\n" + rear);
    assert Index(now, b.end) == EndBehind(lines, b.end) by {
      EndStands(front, mid, rear, b);
      FirstBehindLines(lines, rear, b.end);
    }
    assert s == front + was && t == front + now by { FrontFirst(front, mid, rear, lines); }
    StartInFront(s, t, front, was, now, b, |mid|, EndBehind(lines, b.end));
  }

  /**
   Replacing a block twice is the same as replacing it once exactly when the
   new lines do not hold the block's end marker.
   */
  lemma ReplaceTwiceExactly(content: string, b: Block, replacement: string)
    requires IsBlock(b) && Replaced(content, b, replacement).Ok?
    ensures Replaced(Replaced(content, b, replacement).value, b, replacement) == Replaced(content, b, replacement)
      <==> !Contains(TrimBreaks(replacement), b.end)
  {
    var r := TrimBreaks(replacement);
    var front, mid, rear := Parts(content, b, replacement);
    FramedSpan(front, mid, rear, r, b);
    FramedAgain(front, rear, r, EndBehind(r, b.end));
    Regroup(front, r, Framed(front, r, rear)[|front| + EndBehind(r, b.end)..]);
  }

  /** Exchanging the first part of some framed lines for the lines again changes nothing when it was all of them. */
  lemma FramedAgain(front: string, rear: string, lines: string, k: nat)
    requires k <= |lines| + 2
    ensures Framed(front, lines, rear)[..|front|] == front
    ensures Framed(front, lines, Framed(front, lines, rear)[|front| + k..]) == Framed(front, lines, rear)
      <==> k == |lines| + 2
  {
    var once := Framed(front, lines, rear);
    assert once == (front + "\n" + (lines + "\n")) + rear;
    if k == |lines| + 2 {
      assert once[|front| + k..] == rear;
    } else {
      assert |Framed(front, lines, once[|front| + k..])| > |once|;
    }
  }

  // ---- Two blocks ----------------------------------------------------------------------

  /** The new lines hold no marker of the block. */
  predicate IsFreeOf(replacement: string, b: Block) {
    !Contains(TrimBreaks(replacement), b.start) && !Contains(TrimBreaks(replacement), b.end)
  }

  /** A block that stands apart in front keeps its place. */
  lemma FrontBlockStays(head: string, mid: string, was: string, now: string, b: Block, n: nat)
    requires |b.start| <= |head| && n + |b.end| <= |mid|
    requires SpanOf(head + (mid + was), b) == Ok(Span(|head|, |head| + n))
    ensures SpanOf(head + (mid + now), b) == Ok(Span(|head|, |head| + n))
  {
    SpanMeans(head + (mid + was), head, mid + was, b, n);
    FirstInFront(mid, was, now, b.end, n);
    StartInFront(head + (mid + was), head + (mid + now), head, mid + was, mid + now, b, n, n);
  }

  lemma CutFront(front: string, rest: string, k: nat)
    requires k <= |front|
    ensures front + rest == front[..k] + (front[k..] + rest)
  {
  }

  /** The first place of a marker behind exchanged lines moves with the text. */
  lemma FirstMoves(front: string, mid: string, rear: string, lines: string, m: string, i: int)
    requires IsMarker(m) && !Contains(lines, m)
    requires Index(front + mid + rear, m) == i && i >= |front + mid|
    ensures Index(Framed(front, lines, rear), m) == i - |mid| + |lines| + 2
  {
    var k := i - |mid| + |lines| + 2;
    FirstIsIndex(front + mid + rear, m, i);
    forall j | 0 <= j <= k
      ensures StandsAt(Framed(front, lines, rear), m, j) <==>
        StandsAt(front, m, j) || StandsAt(rear, m, j - |front| - |lines| - 2)
    {
      AroundLines(front, lines, rear, m, j);
    }
    Behind(front + mid, rear, m, i);
    assert front + mid + rear == front + (mid + rear);
    forall j | 0 <= j < k ensures !StandsAt(front, m, j) && !StandsAt(rear, m, j - |front| - |lines| - 2) {
      if j + |m| <= |front| { InFront(front, mid + rear, m, j); }
      if j >= |front| + |lines| + 2 { Behind(front + mid, rear, m, j + |mid| - |lines| - 2); }
    }
    FirstIsIndex(Framed(front, lines, rear), m, k);
  }

  /** A block that stands apart behind moves as a whole. */
  lemma RearBlockMoves(s: string, t: string, head: string, head': string, rest: string, b: Block, n: nat)
    requires s == head + rest && t == head' + rest && |b.start| <= |head| && |b.start| <= |head'| && n <= |rest|
    requires SpanOf(s, b) == Ok(Span(|head|, |head| + n))
    requires Index(s, b.start) == |head| - |b.start| ==> Index(t, b.start) == |head'| - |b.start|
    ensures SpanOf(t, b) == Ok(Span(|head'|, |head'| + n))
    ensures t[|head'|..|head'| + n] == s[|head|..|head| + n]
  {
    SpanMeans(s, head, rest, b, n);
    SpanMeans(t, head', rest, b, n);
    SliceBehind(head, rest, n);
    SliceBehind(head', rest, n);
  }

  lemma SliceInFront(front: string, rest: string, y: Span)
    requires y.from <= y.to <= |front|
    ensures (front + rest)[y.from..y.to] == front[y.from..y.to]
  {
  }

  lemma SliceBehind(head: string, rest: string, n: nat)
    requires n <= |rest|
    ensures (head + rest)[|head|..|head| + n] == rest[..n]
  {
  }

  /** The block shows the replacement: replacing it changes nothing. */
  predicate InSync(content: string, b: Block, replacement: string) {
    Replaced(content, b, replacement) == Ok(content)
  }

  lemma InSyncIs(content: string, b: Block, replacement: string)
    requires SpanOf(content, b).Ok?
    ensures var span := SpanOf(content, b).value;
      InSync(content, b, replacement) <==> content[span.from..span.to] == "\n" + TrimBreaks(replacement) + "\n"
  {
    var span := SpanOf(content, b).value;
    var lines := "\n" + TrimBreaks(replacement) + "\n";
    var front, mid, rear := content[..span.from], content[span.from..span.to], content[span.to..];
    assert content == front + mid + rear;
    assert Replaced(content, b, replacement).value == front + lines + rear;
    if InSync(content, b, replacement) {
      assert |mid| == |lines|;
      assert (front + mid + rear)[span.from..span.to] == mid;
      assert (front + lines + rear)[span.from..span.to] == lines;
    }
  }

  /** What exchanging lines in one block leaves of the other: its text and its place, apart from the first. */
  ghost predicate OtherStays(before: string, after: string, a: Block, b: Block) {
    && SpanOf(before, b).Ok? && SpanOf(after, a).Ok? && SpanOf(after, b).Ok?
    && Apart(a, SpanOf(after, a).value, b, SpanOf(after, b).value)
    && var x, y, y' := SpanOf(after, a).value, SpanOf(before, b).value, SpanOf(after, b).value;
       && after[y'.from..y'.to] == before[y.from..y.to]
       && y'.from == if y.from < x.from then y.from else y.from + |after| - |before|
  }

  lemma OtherInFrontStays(s: string, t: string, front: string, was: string, now: string, a: Block, x: Span,
      b: Block, y: Span)
    requires s == front + was && t == front + now
    requires SpanOf(t, a) == Ok(x) && x.from == |front| && |a.start| > 0
    requires SpanOf(s, b) == Ok(y) && y.to + |b.end| <= |front| - |a.start|
    ensures OtherStays(s, t, a, b)
  {
    var head, mid := front[..y.from], front[y.from..];
    CutFront(front, was, y.from);
    CutFront(front, now, y.from);
    FrontBlockStays(head, mid, was, now, b, y.to - y.from);
    SliceInFront(front, was, y);
    SliceInFront(front, now, y);
  }

  lemma OtherBehindStays(s: string, t: string, head: string, head': string, rest: string, a: Block, x: Span,
      b: Block, n: nat)
    requires s == head + rest && t == head' + rest && |b.start| <= |head| && n <= |rest|
    requires SpanOf(t, a) == Ok(x) && x.to + |a.end| + |b.start| <= |head'| && x.from <= |head|
    requires SpanOf(s, b) == Ok(Span(|head|, |head| + n))
    requires Index(s, b.start) == |head| - |b.start| ==> Index(t, b.start) == |head'| - |b.start|
    ensures OtherStays(s, t, a, b)
  {
    RearBlockMoves(s, t, head, head', rest, b, n);
  }

  lemma OtherStaysInFront(front: string, mid: string, rear: string, lines: string, a: Block, b: Block, y: Span)
    requires IsBlock(a) && !Contains(lines, a.end)
    requires SpanOf(front + mid + rear, a) == Ok(Span(|front|, |front + mid|))
    requires SpanOf(front + mid + rear, b) == Ok(y) && y.to + |b.end| <= |front| - |a.start|
    ensures OtherStays(front + mid + rear, Framed(front, lines, rear), a, b)
  {
    var x := Span(|front|, |front| + EndBehind(lines, a.end));
    FramedSpan(front, mid, rear, lines, a);
    FrontFirst(front, mid, rear, lines);
    OtherInFrontStays(front + mid + rear, Framed(front, lines, rear), front, mid + rear, "\n" + (lines + "\n" + rear),
                      a, x, b, y);
  }

  lemma StartMoves(front: string, mid: string, gap: string, rest: string, lines: string, m: string)
    requires IsMarker(m) && !Contains(lines, m) && |m| <= |gap|
    ensures Index(front + mid + (gap + rest), m) == |front + mid + gap| - |m| ==>
      Index(Framed(front, lines, gap + rest), m) == |front| + |lines| + 2 + |gap| - |m|
  {
    if Index(front + mid + (gap + rest), m) == |front + mid + gap| - |m| {
      FirstMoves(front, mid, gap + rest, lines, m, |front + mid + gap| - |m|);
    }
  }

  lemma OtherStaysBehind(front: string, mid: string, gap: string, rest: string, lines: string, a: Block, b: Block,
      n: nat)
    requires IsMarker(b.start) && !Contains(lines, b.start) && n <= |rest|
    requires SpanOf(Framed(front, lines, gap + rest), a) == Ok(Span(|front|, |front| + |lines| + 2))
    requires SpanOf(front + mid + (gap + rest), b) == Ok(Span(|front + mid + gap|, |front + mid + gap| + n))
    requires |gap| >= |a.end| + |b.start|
    ensures OtherStays(front + mid + (gap + rest), Framed(front, lines, gap + rest), a, b)
  {
    var s, t := front + mid + (gap + rest), Framed(front, lines, gap + rest);
    var head, head' := front + mid + gap, front + "\n" + (lines + "\n") + gap;
    var x := Span(|front|, |front| + |lines| + 2);
    assert s == head + rest && t == head' + rest by { RestLast(front, mid, gap, rest, lines); }
    assert Index(s, b.start) == |head| - |b.start| ==> Index(t, b.start) == |head'| - |b.start| by {
      StartMoves(front, mid, gap, rest, lines, b.start);
    }
    OtherBehindStays(s, t, head, head', rest, a, x, b, n);
  }

  lemma OtherStaysInRear(front: string, mid: string, rear: string, lines: string, a: Block, b: Block, y: Span)
    requires IsBlock(a) && IsBlock(b) && !Contains(lines, a.end) && !Contains(lines, b.start)
    requires SpanOf(front + mid + rear, a) == Ok(Span(|front|, |front + mid|))
    requires SpanOf(front + mid + rear, b) == Ok(y) && |front + mid| + |a.end| <= y.from - |b.start|
    ensures OtherStays(front + mid + rear, Framed(front, lines, rear), a, b)
  {
    var k := y.from - |front + mid|;
    assert rear == rear[..k] + rear[k..];
    FramedSpan(front, mid, rear, lines, a);
    OtherStaysBehind(front, mid, rear[..k], rear[k..], lines, a, b, y.to - y.from);
  }

  lemma OtherBlockStays(content: string, a: Block, replacement: string, b: Block)
    requires IsBlock(a) && IsBlock(b) && SpanOf(content, a).Ok? && SpanOf(content, b).Ok?
    requires Apart(a, SpanOf(content, a).value, b, SpanOf(content, b).value)
    requires IsFreeOf(replacement, a) && IsFreeOf(replacement, b)
    ensures OtherStays(content, Replaced(content, a, replacement).value, a, b)
  {
    var front, mid, rear := Parts(content, a, replacement);
    var y := SpanOf(content, b).value;
    if y.to + |b.end| <= |front| - |a.start| {
      OtherStaysInFront(front, mid, rear, TrimBreaks(replacement), a, b, y);
    } else {
      OtherStaysInRear(front, mid, rear, TrimBreaks(replacement), a, b, y);
    }
  }

  /** Replacing one block leaves the other in sync, and the two apart. */
  lemma OtherBlockStaysInSync(content: string, a: Block, replacement: string, b: Block, other: string)
    requires IsBlock(a) && IsBlock(b) && SpanOf(content, a).Ok? && SpanOf(content, b).Ok?
    requires Apart(a, SpanOf(content, a).value, b, SpanOf(content, b).value)
    requires IsFreeOf(replacement, a) && IsFreeOf(replacement, b)
    ensures var after := Replaced(content, a, replacement).value;
      && SpanOf(after, a).Ok? && SpanOf(after, b).Ok?
      && Apart(a, SpanOf(after, a).value, b, SpanOf(after, b).value)
      && (InSync(content, b, other) ==> InSync(after, b, other))
  {
    OtherBlockStays(content, a, replacement, b);
    InSyncIs(content, b, other);
    InSyncIs(Replaced(content, a, replacement).value, b, other);
  }

  function BothReplaced(content: string, a: Block, one: string, b: Block, other: string): Result<string, Error> {
    match Replaced(content, a, one)
    case Err(e) => Err(e)
    case Ok(c) => Replaced(c, b, other)
  }

  /** Syncing two blocks that stand apart, with new lines free of markers, twice is the same as syncing them once. */
  lemma SyncBothTwice(content: string, a: Block, one: string, b: Block, other: string)
    requires IsBlock(a) && IsBlock(b) && SpanOf(content, a).Ok? && SpanOf(content, b).Ok?
    requires Apart(a, SpanOf(content, a).value, b, SpanOf(content, b).value)
    requires IsFreeOf(one, a) && IsFreeOf(one, b) && IsFreeOf(other, a) && IsFreeOf(other, b)
    ensures BothReplaced(content, a, one, b, other).Ok?
    ensures var synced := BothReplaced(content, a, one, b, other).value;
      && InSync(synced, a, one) && InSync(synced, b, other)
      && BothReplaced(synced, a, one, b, other) == Ok(synced)
  {
    var first := Replaced(content, a, one).value;
    ReplaceTwiceExactly(content, a, one);
    OtherBlockStaysInSync(content, a, one, b, other);
    ReplaceTwiceExactly(first, b, other);
    OtherBlockStaysInSync(first, b, other, a, one);
  }

  /** What a block shows for some replacement. */
  function Lines(replacement: string): string {
    "\n" + TrimBreaks(replacement) + "\n"
  }

  lemma FramedLines(front: string, replacement: string, rear: string)
    ensures Framed(front, TrimBreaks(replacement), rear) == front + Lines(replacement) + rear
  {
  }

  /** One text cut in two ways, the second cut being behind the first. */
  lemma CutBehind(front: string, mid: string, rear: string, head: string, tail: string) returns (gap: string)
    requires front + mid + rear == head + tail && |front + mid| <= |head|
    ensures head == front + mid + gap && rear == gap + tail
  {
    var n := |front + mid|;
    gap := head[n..];
    assert head[..n] == (head + tail)[..n] == front + mid;
    assert rear == (front + mid + rear)[n..] == (head + tail)[n..];
  }

  /** The second exchange is behind the first. */
  lemma ExchangedBehind(f: string, m: string, r: string, one: string, f': string, m': string, r': string, other: string)
    returns (gap: string)
    requires f + one + r == f' + m' + r' && |f + one| <= |f'|
    ensures f + m + r == f + m + gap + m' + r'
    ensures f' + other + r' == f + one + gap + other + r'
    ensures |f + m + gap| == |f'| + |m| - |one| && |f + m + gap + m'| == |f' + m'| + |m| - |one|
  {
    assert f' + m' + r' == f' + (m' + r');
    gap := CutBehind(f, one, r, f', m' + r');
    assert f + m + (gap + (m' + r')) == f + m + gap + m' + r';
  }

  /** The second exchange is in front of the first. */
  lemma ExchangedInFront(f: string, m: string, r: string, one: string, f': string, m': string, r': string,
      other: string)
    returns (gap: string)
    requires f + one + r == f' + m' + r' && |f' + m'| <= |f|
    ensures f + m + r == f' + m' + gap + m + r
    ensures f' + other + r' == f' + other + gap + one + r
    ensures |f' + m' + gap| == |f| && |f' + m' + gap + m| == |f + m|
  {
    assert f + one + r == f + (one + r);
    gap := CutBehind(f', m', r', f, one + r);
    assert f' + other + (gap + (one + r)) == f' + other + gap + one + r;
  }

  /** Once the first block is exchanged, the second stands in front of it or behind it. */
  lemma SecondStandsApart(content: string, f: string, m: string, r: string, a: Block, one: string, b: Block)
    requires IsBlock(a) && IsBlock(b) && content == f + m + r && SpanOf(content, a) == Ok(Span(|f|, |f + m|))
    requires SpanOf(content, b).Ok? && Apart(a, SpanOf(content, a).value, b, SpanOf(content, b).value)
    requires IsFreeOf(one, a) && IsFreeOf(one, b) && Replaced(content, a, one) == Ok(f + Lines(one) + r)
    ensures var y := SpanOf(f + Lines(one) + r, b);
      y.Ok? && (y.value.to <= |f| || |f + Lines(one)| <= y.value.from)
  {
    FramedLines(f, one, r);
    OtherBlockStays(content, a, one, b);
    FramedSpan(f, m, r, TrimBreaks(one), a);
  }

  /** The place of the second block once the first is exchanged: the same, or moved with the text. */
  lemma SecondsPlace(content: string, f: string, m: string, r: string, a: Block, one: string, b: Block)
    requires IsBlock(a) && IsBlock(b) && content == f + m + r && SpanOf(content, a) == Ok(Span(|f|, |f + m|))
    requires SpanOf(content, b).Ok? && Apart(a, SpanOf(content, a).value, b, SpanOf(content, b).value)
    requires IsFreeOf(one, a) && IsFreeOf(one, b) && Replaced(content, a, one) == Ok(f + Lines(one) + r)
    ensures SpanOf(f + Lines(one) + r, b).Ok?
    ensures var y, y' := SpanOf(content, b).value, SpanOf(f + Lines(one) + r, b).value;
      if y.from < |f| then y' == y
      else y' == Span(y.from + |Lines(one)| - |m|, y.to + |Lines(one)| - |m|) && y.from >= |f + m|
  {
    FramedLines(f, one, r);
    OtherBlockStays(content, a, one, b);
    FramedSpan(f, m, r, TrimBreaks(one), a);
    var y, y' := SpanOf(content, b).value, SpanOf(f + Lines(one) + r, b).value;
    assert |(f + Lines(one) + r)[y'.from..y'.to]| == |content[y.from..y.to]|;
  }

  /** The second block stood at `y`: in front of the first, or behind it. */
  predicate StoodAt(f: string, m: string, f': string, m': string, one: string, y: Span) {
    var moved := |m| - |Lines(one)|;
    || (|f'| + |m'| <= |f| && y == Span(|f'|, |f'| + |m'|))
    || (|f| + |Lines(one)| <= |f'| && y.from == |f'| + moved && y.to == |f'| + |m'| + moved)
  }

  /** Both exchanges, one after the other, and where the second block stood before the first. */
  lemma SecondExchange(content: string, a: Block, one: string, b: Block, other: string)
    returns (f: string, m: string, r: string, f': string, m': string, r': string)
    requires IsBlock(a) && IsBlock(b) && SpanOf(content, a).Ok? && SpanOf(content, b).Ok?
    requires Apart(a, SpanOf(content, a).value, b, SpanOf(content, b).value)
    requires IsFreeOf(one, a) && IsFreeOf(one, b)
    ensures content == f + m + r && SpanOf(content, a) == Ok(Span(|f|, |f| + |m|))
    ensures f + Lines(one) + r == f' + m' + r'
    ensures BothReplaced(content, a, one, b, other) == Ok(f' + Lines(other) + r')
    ensures StoodAt(f, m, f', m', one, SpanOf(content, b).value)
  {
    f, m, r := Parts(content, a, one);
    FramedLines(f, one, r);
    var first := f + Lines(one) + r;
    assert Replaced(content, a, one) == Ok(first);
    SecondStandsApart(content, f, m, r, a, one, b);
    SecondsPlace(content, f, m, r, a, one, b);
    f', m', r' := Parts(first, b, other);
    FramedLines(f', other, r');
  }

  /** The text in front of two blocks, the first one's, between them, the second one's, and behind; or swapped. */
  datatype Layout = Layout(front: string, x: string, gap: string, y: string, rear: string, swapped: bool)

  function TextOf(l: Layout): string {
    l.front + l.x + l.gap + l.y + l.rear
  }

  function FirstOf(l: Layout): Span {
    Span(|l.front|, |l.front| + |l.x|)
  }

  function SecondOf(l: Layout): Span {
    var from := |l.front| + |l.x| + |l.gap|;
    Span(from, from + |l.y|)
  }

  /** The layout with both blocks' lines exchanged. */
  function Relaid(l: Layout, one: string, other: string): string {
    if l.swapped then l.front + Lines(other) + l.gap + Lines(one) + l.rear
    else l.front + Lines(one) + l.gap + Lines(other) + l.rear
  }

  lemma LaidBehind(f: string, m: string, r: string, f': string, m': string, r': string, one: string, other: string)
    returns (l: Layout)
    requires f + Lines(one) + r == f' + m' + r' && |f| + |Lines(one)| <= |f'|
    ensures !l.swapped && TextOf(l) == f + m + r && Relaid(l, one, other) == f' + Lines(other) + r'
    ensures FirstOf(l) == Span(|f|, |f| + |m|)
    ensures var moved := |m| - |Lines(one)|; SecondOf(l).from == |f'| + moved && SecondOf(l).to == |f'| + |m'| + moved
  {
    var gap := ExchangedBehind(f, m, r, Lines(one), f', m', r', Lines(other));
    l := Layout(f, m, gap, m', r', false);
  }

  lemma LaidInFront(f: string, m: string, r: string, f': string, m': string, r': string, one: string, other: string)
    returns (l: Layout)
    requires f + Lines(one) + r == f' + m' + r' && |f'| + |m'| <= |f|
    ensures l.swapped && TextOf(l) == f + m + r && Relaid(l, one, other) == f' + Lines(other) + r'
    ensures FirstOf(l) == Span(|f'|, |f'| + |m'|) && SecondOf(l) == Span(|f|, |f| + |m|)
  {
    var gap := ExchangedInFront(f, m, r, Lines(one), f', m', r', Lines(other));
    l := Layout(f', m', gap, m, r, true);
  }

  lemma LaidOut(f: string, m: string, r: string, f': string, m': string, r': string, one: string, other: string,
      y: Span)
    returns (l: Layout)
    requires f + Lines(one) + r == f' + m' + r' && StoodAt(f, m, f', m', one, y)
    ensures TextOf(l) == f + m + r && Relaid(l, one, other) == f' + Lines(other) + r'
    ensures (if l.swapped then SecondOf(l) else FirstOf(l)) == Span(|f|, |f| + |m|)
    ensures (if l.swapped then FirstOf(l) else SecondOf(l)) == y
  {
    if |f'| + |m'| <= |f| && y == Span(|f'|, |f'| + |m'|) {
      l := LaidInFront(f, m, r, f', m', r', one, other);
    } else {
      l := LaidBehind(f, m, r, f', m', r', one, other);
    }
  }

  /**
   Syncing two blocks changes what they show and nothing else: the text in
   front of the first, between the two and behind the second stays.
   */
  lemma {:induction false} OutsideStays(content: string, a: Block, one: string, b: Block, other: string)
    returns (l: Layout)
    requires IsBlock(a) && IsBlock(b) && SpanOf(content, a).Ok? && SpanOf(content, b).Ok?
    requires Apart(a, SpanOf(content, a).value, b, SpanOf(content, b).value)
    requires IsFreeOf(one, a) && IsFreeOf(one, b)
    ensures content == TextOf(l)
    ensures SpanOf(content, a) == Ok(if l.swapped then SecondOf(l) else FirstOf(l))
    ensures SpanOf(content, b) == Ok(if l.swapped then FirstOf(l) else SecondOf(l))
    ensures BothReplaced(content, a, one, b, other) == Ok(Relaid(l, one, other))
  {
    var f, m, r, f', m', r' := SecondExchange(content, a, one, b, other);
    l := LaidOut(f, m, r, f', m', r', one, other, SpanOf(content, b).value);
  }

  // ---- Syncing files ------------------------------------------------------------------------

  /** A documentation file and the blocks it has. */
  datatype Target = Target(content: string, install: Option<string>, release: Option<string>)

  function SyncedContent(t: Target): Result<string, Error> {
    var first := if t.install.Some? then Replaced(t.content, INSTALL, t.install.value) else Ok(t.content);
    match first
    case Err(e) => Err(e)
    case Ok(c) => if t.release.Some? then Replaced(c, RELEASE, t.release.value) else Ok(c)
  }

  /** The markers are there, the blocks apart, and the new lines free of markers. */
  predicate IsClean(t: Target) {
    && (t.install.Some? ==> SpanOf(t.content, INSTALL).Ok? && IsFreeOf(t.install.value, INSTALL))
    && (t.release.Some? ==> SpanOf(t.content, RELEASE).Ok? && IsFreeOf(t.release.value, RELEASE))
    && (t.install.Some? && t.release.Some? ==>
          && Apart(INSTALL, SpanOf(t.content, INSTALL).value, RELEASE, SpanOf(t.content, RELEASE).value)
          && IsFreeOf(t.install.value, RELEASE) && IsFreeOf(t.release.value, INSTALL))
  }

  lemma MarkersAreMarkers()
    ensures IsBlock(INSTALL) && IsBlock(RELEASE)
  {
  }

  lemma SyncedIsInSync(t: Target)
    requires IsClean(t)
    ensures SyncedContent(t).Ok?
    ensures SyncedContent(t.(content := SyncedContent(t).value)) == SyncedContent(t)
  {
    MarkersAreMarkers();
    if t.install.Some? && t.release.Some? {
      SyncBothTwice(t.content, INSTALL, t.install.value, RELEASE, t.release.value);
    } else if t.install.Some? {
      ReplaceTwiceExactly(t.content, INSTALL, t.install.value);
    } else if t.release.Some? {
      ReplaceTwiceExactly(t.content, RELEASE, t.release.value);
    }
  }

  // ---- What a synced file shows ------------------------------------------------------------------

  /** Between the block's markers the text shows the given lines and nothing else. */
  predicate Shows(content: string, b: Block, lines: string) {
    SpanOf(content, b).Ok? && content[SpanOf(content, b).value.from..SpanOf(content, b).value.to] == Lines(lines)
  }

  /** Every block that the file has shows its own lines. */
  predicate ShowsAll(t: Target) {
    && (t.install.Some? ==> Shows(t.content, INSTALL, t.install.value))
    && (t.release.Some? ==> Shows(t.content, RELEASE, t.release.value))
  }

  /** The file with the text at the places of its blocks exchanged, and every other character as it was. */
  function Exchanged(t: Target): string
    requires IsClean(t)
  {
    var c := t.content;
    if t.install.Some? && t.release.Some? then
      var x, y := SpanOf(c, INSTALL).value, SpanOf(c, RELEASE).value;
      if x.from < y.from
      then c[..x.from] + Lines(t.install.value) + c[x.to..y.from] + Lines(t.release.value) + c[y.to..]
      else c[..y.from] + Lines(t.release.value) + c[y.to..x.from] + Lines(t.install.value) + c[x.to..]
    else if t.install.Some? then
      var x := SpanOf(c, INSTALL).value;
      c[..x.from] + Lines(t.install.value) + c[x.to..]
    else if t.release.Some? then
      var y := SpanOf(c, RELEASE).value;
      c[..y.from] + Lines(t.release.value) + c[y.to..]
    else c
  }

  lemma ShownIs(content: string, b: Block, lines: string)
    ensures Shows(content, b, lines) <==> InSync(content, b, lines)
  {
    if SpanOf(content, b).Ok? { InSyncIs(content, b, lines); }
  }

  lemma OneReplaced(content: string, b: Block, lines: string)
    requires IsBlock(b) && SpanOf(content, b).Ok? && IsFreeOf(lines, b)
    ensures var span := SpanOf(content, b).value;
      Replaced(content, b, lines) == Ok(content[..span.from] + Lines(lines) + content[span.to..])
    ensures Shows(Replaced(content, b, lines).value, b, lines)
  {
    var front, mid, rear := Parts(content, b, lines);
    FramedLines(front, lines, rear);
    ReplaceTwiceExactly(content, b, lines);
    ShownIs(Replaced(content, b, lines).value, b, lines);
    assert content[..|front|] == front && content[|front + mid|..] == rear;
  }

  lemma Cuts(l: Layout)
    ensures var c := TextOf(l);
      && c[..FirstOf(l).from] == l.front && c[FirstOf(l).to..SecondOf(l).from] == l.gap && c[SecondOf(l).to..] == l.rear
  {
  }

  lemma BothExchanged(t: Target)
    requires IsClean(t) && t.install.Some? && t.release.Some?
    ensures SyncedContent(t) == Ok(Exchanged(t))
  {
    MarkersAreMarkers();
    var l := OutsideStays(t.content, INSTALL, t.install.value, RELEASE, t.release.value);
    Cuts(l);
  }

  /** Syncing a clean file exchanges the text of its blocks and nothing else, and then every block shows its lines. */
  lemma SyncedShows(t: Target)
    requires IsClean(t)
    ensures SyncedContent(t) == Ok(Exchanged(t)) && ShowsAll(t.(content := Exchanged(t)))
  {
    MarkersAreMarkers();
    if t.install.Some? && t.release.Some? {
      BothExchanged(t);
      SyncBothTwice(t.content, INSTALL, t.install.value, RELEASE, t.release.value);
      ShownIs(Exchanged(t), INSTALL, t.install.value);
      ShownIs(Exchanged(t), RELEASE, t.release.value);
    } else if t.install.Some? {
      OneReplaced(t.content, INSTALL, t.install.value);
    } else if t.release.Some? {
      OneReplaced(t.content, RELEASE, t.release.value);
    }
  }

  /** A clean file has drifted exactly when one of its blocks does not show its lines. */
  lemma DriftExactly(t: Target)
    requires IsClean(t)
    ensures SyncedContent(t).Ok? && (SyncedContent(t).value != t.content <==> !ShowsAll(t))
  {
    SyncedShows(t);
    assert t.(content := t.content) == t;
    if t.install.Some? { ShownIs(t.content, INSTALL, t.install.value); }
    if t.release.Some? { ShownIs(t.content, RELEASE, t.release.value); }
  }

  /** What a run leaves of a file: its synced content, or the file itself when it only checks. */
  predicate IsDone(was: Target, now: Target, check: bool) {
    && SyncedContent(was).Ok?
    && now == if check then was else was.(content := SyncedContent(was).value)
  }

  predicate HasDrifted(t: Target) {
    SyncedContent(t).Ok? && SyncedContent(t).value != t.content
  }

  /**
   Syncs the files one after the other, or only lists those that drifted.
   A marker that is missing stops the run at its file.
   */
  method SyncTargets(targets: array<Target>, check: bool) returns (drifted: seq<nat>, error: Option<Error>)
    modifies targets
    ensures error.None? ==> forall i :: 0 <= i < targets.Length ==>
      IsDone(old(targets[i]), targets[i], check) && (i in drifted <==> check && HasDrifted(old(targets[i])))
    ensures error.Some? ==> exists n ::
      && 0 <= n < targets.Length && SyncedContent(old(targets[n])) == Err(error.value)
      && (forall i :: 0 <= i < n ==> IsDone(old(targets[i]), targets[i], check))
      && (forall i :: n <= i < targets.Length ==> targets[i] == old(targets[i]))
    ensures forall i :: 0 <= i < targets.Length && error.None? && IsClean(old(targets[i])) ==>
      if check then targets[i] == old(targets[i]) && (i in drifted <==> !ShowsAll(targets[i]))
      else ShowsAll(targets[i]) && targets[i] == old(targets[i]).(content := Exchanged(old(targets[i])))
    ensures (forall i :: 0 <= i < targets.Length ==> IsClean(old(targets[i]))) ==> error.None?
  {
    drifted := [];
    var i := 0;
    while i < targets.Length
      invariant 0 <= i <= targets.Length
      invariant forall k :: i <= k < targets.Length ==> targets[k] == old(targets[k])
      invariant forall k :: 0 <= k < i ==>
        IsDone(old(targets[k]), targets[k], check) && (k in drifted <==> check && HasDrifted(old(targets[k])))
      invariant forall k :: k in drifted ==> k < i
    {
      var updated := SyncedContent(targets[i]);
      if updated.Err? {
        if IsClean(targets[i]) { SyncedIsInSync(targets[i]); }
        return drifted, Some(updated.error);
      }
      if updated.value != targets[i].content {
        if check {
          drifted := drifted + [i];
        } else {
          targets[i] := targets[i].(content := updated.value);
        }
      }
      i := i + 1;
    }
    forall i | 0 <= i < targets.Length && IsClean(old(targets[i]))
      ensures SyncedContent(old(targets[i])) == Ok(Exchanged(old(targets[i])))
      ensures ShowsAll(old(targets[i]).(content := Exchanged(old(targets[i]))))
      ensures HasDrifted(old(targets[i])) <==> !ShowsAll(old(targets[i]))
    {
      SyncedShows(old(targets[i]));
      DriftExactly(old(targets[i]));
    }
    return drifted, None;
  }

  /** A check right after a sync of clean files finds no drift. */
  method SyncThenCheck(targets: array<Target>) returns (drifted: seq<nat>, error: Option<Error>)
    requires forall i :: 0 <= i < targets.Length ==> IsClean(targets[i])
    modifies targets
    ensures error.None? && forall i :: 0 <= i < targets.Length ==> i !in drifted
  {
    forall i | 0 <= i < targets.Length
      ensures SyncedContent(targets[i]).Ok?
      ensures SyncedContent(targets[i].(content := SyncedContent(targets[i]).value)) == SyncedContent(targets[i])
    {
      SyncedIsInSync(targets[i]);
    }
    drifted, error := SyncTargets(targets, false);
    if error.None? {
      drifted, error := SyncTargets(targets, true);
    }
  }
}
