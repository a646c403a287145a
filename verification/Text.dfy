/** Searching, trimming and changing the case of text. */
module Text {

  // ---- Searching ----------------------------------------------------------------------

  predicate StandsAt(s: string, m: string, i: int) {
    0 <= i && i + |m| <= |s| && s[i..i + |m|] == m
  }

  /** Where `m` first stands in `s` from position `from` on, or -1. */
  function IndexFrom(s: string, m: string, from: nat): (i: int)
    ensures i == -1 || (from <= i && i + |m| <= |s|)
    decreases |s| - from
  {
    if from + |m| > |s| then -1
    else if StandsAt(s, m, from) then from
    else IndexFrom(s, m, from + 1)
  }

  /** Where `m` first stands in `s`, or -1. */
  function Index(s: string, m: string): (i: int)
    ensures i == -1 || (0 <= i && i + |m| <= |s|)
  {
    IndexFrom(s, m, 0)
  }

  predicate Contains(s: string, m: string) {
    Index(s, m) >= 0
  }

  /** `m` stands at `i` for the first time. */
  predicate FirstAt(s: string, m: string, i: int) {
    StandsAt(s, m, i) && forall j :: 0 <= j < i ==> !StandsAt(s, m, j)
  }

  lemma {:induction false} IndexFromIs(s: string, m: string, from: nat, i: int)
    ensures IndexFrom(s, m, from) < 0 ==> forall j :: from <= j ==> !StandsAt(s, m, j)
    ensures from <= i && StandsAt(s, m, i) && (forall j :: from <= j < i ==> !StandsAt(s, m, j)) <==>
      from <= i && IndexFrom(s, m, from) == i
    decreases |s| - from
  {
    if from + |m| <= |s| && !StandsAt(s, m, from) {
      IndexFromIs(s, m, from + 1, i);
    }
  }

  /** The index is the first place, and there is none exactly when the text nowhere holds the marker. */
  lemma FirstIsIndex(s: string, m: string, i: int)
    ensures i >= 0 ==> (FirstAt(s, m, i) <==> Index(s, m) == i)
    ensures Contains(s, m) <==> exists j :: StandsAt(s, m, j)
  {
    IndexFromIs(s, m, 0, i);
    IndexFromIs(s, m, 0, Index(s, m));
  }

  // ---- Trimming -----------------------------------------------------------------------

  /** Without the line breaks at the end. */
  function TrimBreaks(s: string): string {
    if s != "" && s[|s| - 1] == '\n' then TrimBreaks(s[..|s| - 1]) else s
  }

  /** Nothing but line breaks is cut off, and none is left at the end. */
  lemma {:induction false} TrimBreaksExactly(s: string)
    ensures TrimBreaks(s) <= s && forall i :: |TrimBreaks(s)| <= i < |s| ==> s[i] == '\n'
    ensures TrimBreaks(s) != "" ==> TrimBreaks(s)[|TrimBreaks(s)| - 1] != '\n'
  {
    if s != "" && s[|s| - 1] == '\n' {
      TrimBreaksExactly(s[..|s| - 1]);
    }
  }

  /** The white space of Unicode. */
  predicate IsSpace(c: char) {
    || '\U{0009}' <= c <= '\U{000D}' || c == ' ' || c == '\U{0085}' || c == '\U{00A0}' || c == '\U{1680}'
    || '\U{2000}' <= c <= '\U{200A}' || c == '\U{2028}' || c == '\U{2029}' || c == '\U{202F}' || c == '\U{205F}'
    || c == '\U{3000}'
  }

  /** Without the whitespace at both ends. */
  function Trim(s: string): (r: string)
    ensures |r| <= |s|
    ensures r != "" ==> !IsSpace(r[0]) && !IsSpace(r[|r| - 1])
  {
    if s != "" && IsSpace(s[0]) then Trim(s[1..])
    else if s != "" && IsSpace(s[|s| - 1]) then Trim(s[..|s| - 1])
    else s
  }

  /** Trimming leaves a part of the text. */
  lemma {:induction false} TrimIsPart(s: string) returns (k: nat)
    ensures k + |Trim(s)| <= |s| && forall i :: 0 <= i < |Trim(s)| ==> Trim(s)[i] == s[k + i]
    decreases |s|
  {
    if s != "" && IsSpace(s[0]) {
      k := TrimIsPart(s[1..]);
      k := k + 1;
    } else if s != "" && IsSpace(s[|s| - 1]) {
      k := TrimIsPart(s[..|s| - 1]);
    } else {
      k := 0;
    }
  }

  lemma TrimTwice(s: string)
    ensures Trim(Trim(s)) == Trim(s)
  {
  }

  lemma TrimFramed(s: string)
    requires Trim(s) == s
    ensures Trim("\n" + s + "\n") == s
  {
    var framed := "\n" + s + "\n";
    assert framed[1..] == s + "\n";
    if s == "" {
      assert (s + "\n")[1..] == "";
    } else {
      assert (s + "\n")[0] == s[0] && (s + "\n")[..|s|] == s;
    }
  }

  // ---- Case ---------------------------------------------------------------------------

  /** Lower case, for ASCII letters. */
  function Lower(c: char): char {
    if 'A' <= c <= 'Z' then (c as int - 'A' as int + 'a' as int) as char else c
  }

  function LowerAll(s: string): (r: string)
    ensures |r| == |s| && forall i :: 0 <= i < |s| ==> r[i] == Lower(s[i])
  {
    seq(|s|, i requires 0 <= i < |s| => Lower(s[i]))
  }

  /** Upper case, for ASCII letters. */
  function Upper(c: char): char {
    if 'a' <= c <= 'z' then (c as int - 'a' as int + 'A' as int) as char else c
  }

  function UpperAll(s: string): (r: string)
    ensures |r| == |s| && forall i :: 0 <= i < |s| ==> r[i] == Upper(s[i])
  {
    seq(|s|, i requires 0 <= i < |s| => Upper(s[i]))
  }
}
