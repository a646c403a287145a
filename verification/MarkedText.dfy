/** Searching text for markers: strings without a line break, between which whole lines are replaced. */
module MarkedText {
  import opened Text

  /** A marker is not empty and stays on its line. */
  predicate IsMarker(m: string) {
    m != "" && '\n' !in m
  }

  /** What stands in the front part of a text does not depend on the rest. */
  lemma InFront(a: string, b: string, m: string, i: int)
    requires i + |m| <= |a|
    ensures StandsAt(a + b, m, i) <==> StandsAt(a, m, i)
  {
    if 0 <= i { assert (a + b)[i..i + |m|] == a[i..i + |m|]; }
  }

  lemma Behind(a: string, b: string, m: string, i: int)
    requires i >= |a|
    ensures StandsAt(a + b, m, i) <==> StandsAt(b, m, i - |a|)
  {
    if i + |m| <= |a + b| { assert (a + b)[i..i + |m|] == b[i - |a|..i - |a| + |m|]; }
  }

  /** The first place is the same whatever follows it. */
  lemma FirstInFront(a: string, b: string, c: string, m: string, i: nat)
    requires Index(a + b, m) == i && i + |m| <= |a|
    ensures Index(a + c, m) == i
  {
    FirstIsIndex(a + b, m, i);
    forall j | 0 <= j <= i ensures StandsAt(a + b, m, j) <==> StandsAt(a + c, m, j) {
      InFront(a, b, m, j);
      InFront(a, c, m, j);
    }
    FirstIsIndex(a + c, m, i);
  }

  /** A marker stands in front of a line break or behind it, never across. */
  lemma NotAcross(a: string, b: string, m: string, i: int)
    requires IsMarker(m) && StandsAt(a + "\n" + b, m, i)
    ensures if i <= |a| then i + |m| <= |a| && StandsAt(a, m, i) else StandsAt(b, m, i - |a| - 1)
  {
    var s := a + "\n" + b;
    assert s == a + ("\n" + b) && s[|a|] == '\n';
    if i <= |a| {
      assert forall k :: 0 <= k < |m| ==> m[k] == s[i + k];
      assert i + |m| <= |a|;
      InFront(a, "\n" + b, m, i);
    } else {
      Behind(a + "\n", b, m, i);
    }
  }

  /** A part of a text that does not hold a marker does not hold it either. */
  lemma PartHolds(s: string, m: string, from: nat, to: nat)
    requires from <= to <= |s|
    ensures Contains(s[from..to], m) ==> Contains(s, m) && Index(s, m) + |m| <= to
  {
    FirstIsIndex(s, m, Index(s, m));
    FirstIsIndex(s[from..to], m, 0);
    if i :| StandsAt(s[from..to], m, i) {
      var part := s[from..to];
      assert forall k :: 0 <= k < |m| ==> m[k] == part[i + k];
      assert StandsAt(s, m, from + i);
    }
  }

  /** Around a line break a marker is first found in front of it, or else behind it. */
  lemma IndexAround(a: string, b: string, m: string)
    requires IsMarker(m)
    ensures Index(a + "\n" + b, m) ==
      if Contains(a, m) then Index(a, m) else if Contains(b, m) then |a| + 1 + Index(b, m) else -1
  {
    var whole := a + "\n" + b;
    var k := if Contains(a, m) then Index(a, m) else if Contains(b, m) then |a| + 1 + Index(b, m) else -1;
    assert whole == a + ("\n" + b);
    FirstIsIndex(a, m, Index(a, m));
    FirstIsIndex(b, m, Index(b, m));
    if Contains(a, m) { InFront(a, "\n" + b, m, k); } else if Contains(b, m) { Behind(a + "\n", b, m, k); }
    forall j | 0 <= j && (j < k || k < 0) && StandsAt(whole, m, j) ensures false {
      NotAcross(a, b, m, j);
    }
    FirstIsIndex(whole, m, k);
  }

  /** Behind a line break and some lines, a marker at the front of the rest is found there, or in the lines. */
  lemma FirstBehindLines(lines: string, rest: string, m: string)
    requires IsMarker(m) && StandsAt(rest, m, 0)
    ensures Index("\n" + (lines + "\n" + rest), m) == 1 + if Contains(lines, m) then Index(lines, m) else |lines| + 1
  {
    var tail := lines + "\n" + rest;
    IndexAround("", tail, m);
    IndexAround(lines, rest, m);
    FirstIsIndex(rest, m, 0);
    FirstIsIndex("", m, 0);
    assert "" + "\n" + tail == "\n" + tail;
  }

  /** Where a marker stands around exchanged lines: in the front as before, or in the rear, moved. */
  lemma AroundLines(front: string, lines: string, rear: string, m: string, j: int)
    requires IsMarker(m) && !Contains(lines, m) && j >= 0
    ensures StandsAt(front + "\n" + (lines + "\n" + rear), m, j) <==>
      StandsAt(front, m, j) || StandsAt(rear, m, j - |front| - |lines| - 2)
  {
    var tail := lines + "\n" + rear;
    var whole := front + "\n" + tail;
    assert whole == front + ("\n" + tail) && whole == (front + "\n" + (lines + "\n")) + rear;
    FirstIsIndex(lines, m, 0);
    if StandsAt(whole, m, j) {
      NotAcross(front, tail, m, j);
      if j > |front| { NotAcross(lines, rear, m, j - |front| - 1); }
    }
    if StandsAt(front, m, j) { InFront(front, "\n" + tail, m, j); }
    if StandsAt(rear, m, j - |front| - |lines| - 2) { Behind(front + "\n" + (lines + "\n"), rear, m, j); }
  }

  lemma TrimHolds(s: string, m: string)
    ensures Contains(Trim(s), m) ==> Contains(s, m)
  {
    var k := TrimIsPart(s);
    assert Trim(s) == s[k..k + |Trim(s)|];
    PartHolds(s, m, k, k + |Trim(s)|);
  }
}
