/**
 Account names: every name that enters the registry is put in normal form
 first, and a name that the user does not give is suggested.
 Letters are ASCII.
 */
module AccountNames {
  import opened Sets
  import opened Text

  predicate IsNameChar(c: char) {
    'a' <= c <= 'z' || '0' <= c <= '9' || c == '-' || c == '_' || c == '.'
  }

  /** One character in a name: spaces and slashes become dashes, anything else unfit is dropped. */
  function Spelled(c: char): string {
    var d := if c == ' ' || c == '/' || c == '\\' then '-' else Lower(c);
    if IsNameChar(d) then [d] else []
  }

  function SpelledAll(s: string): string {
    if s == [] then [] else SpelledAll(s[..|s| - 1]) + Spelled(s[|s| - 1])
  }

  /** Every run of dashes as a single dash. */
  function Collapsed(s: string): string {
    if |s| < 2 then s
    else if s[0] == '-' && s[1] == '-' then Collapsed(s[1..])
    else [s[0]] + Collapsed(s[1..])
  }

  function TrimDashes(s: string): string {
    if s != [] && s[0] == '-' then TrimDashes(s[1..])
    else if s != [] && s[|s| - 1] == '-' then TrimDashes(s[..|s| - 1])
    else s
  }

  function Normalized(raw: string): string {
    TrimDashes(Collapsed(SpelledAll(Trim(raw))))
  }

  /** Allowed characters only, no two dashes in a row, none at either end. */
  predicate IsNormal(s: string) {
    && (forall i :: 0 <= i < |s| ==> IsNameChar(s[i]))
    && NoDoubleDash(s)
    && (s != [] ==> s[0] != '-' && s[|s| - 1] != '-')
  }

  predicate NoDoubleDash(s: string) {
    forall i :: 0 <= i < |s| - 1 ==> s[i] != '-' || s[i + 1] != '-'
  }

  predicate AllNameChars(s: string) {
    forall i :: 0 <= i < |s| ==> IsNameChar(s[i])
  }

  lemma {:induction false} SpelledAllChars(s: string)
    ensures AllNameChars(SpelledAll(s))
  {
    if s == [] {
    } else {
      SpelledAllChars(s[..|s| - 1]);
    }
  }

  lemma {:induction false} CollapsedIs(s: string)
    ensures NoDoubleDash(Collapsed(s))
    ensures AllNameChars(s) ==> AllNameChars(Collapsed(s))
    ensures s != [] ==> Collapsed(s) != [] && Collapsed(s)[0] == s[0]
    ensures NoDoubleDash(s) ==> Collapsed(s) == s
  {
    if |s| < 2 {
    } else {
      CollapsedIs(s[1..]);
      assert forall i :: 0 <= i < |s| - 1 ==> s[1..][i] == s[i + 1];
      if s[0] == '-' && s[1] == '-' {
      } else {
        var c := Collapsed(s[1..]);
        assert forall i :: 0 < i < |c| + 1 ==> ([s[0]] + c)[i] == c[i - 1];
        assert s == [s[0]] + s[1..];
      }
    }
  }

  lemma {:induction false} TrimDashesIs(s: string)
    requires NoDoubleDash(s) && AllNameChars(s)
    ensures IsNormal(TrimDashes(s))
    ensures IsNormal(s) ==> TrimDashes(s) == s
    decreases |s|
  {
    if s != [] && s[0] == '-' {
      assert forall i :: 0 <= i < |s| - 1 ==> s[1..][i] == s[i + 1];
      TrimDashesIs(s[1..]);
    } else if s != [] && s[|s| - 1] == '-' {
      TrimDashesIs(s[..|s| - 1]);
    }
  }

  lemma {:induction false} SpelledNormal(s: string)
    requires AllNameChars(s)
    ensures SpelledAll(s) == s
  {
    if s == [] {
    } else {
      SpelledNormal(s[..|s| - 1]);
      assert s == s[..|s| - 1] + [s[|s| - 1]];
    }
  }

  /** Normalising gives a normal name, and leaves exactly the normal names as they are. */
  lemma NormalizedIsNormal(raw: string)
    ensures IsNormal(Normalized(raw))
    ensures IsNormal(raw) <==> Normalized(raw) == raw
    ensures Normalized(Normalized(raw)) == Normalized(raw)
  {
    NormalizedOnce(raw);
    NormalizedOnce(Normalized(raw));
  }

  lemma NormalizedOnce(raw: string)
    ensures IsNormal(Normalized(raw))
    ensures IsNormal(raw) ==> Normalized(raw) == raw
  {
    var spelled := SpelledAll(Trim(raw));
    SpelledAllChars(Trim(raw));
    CollapsedIs(spelled);
    TrimDashesIs(Collapsed(spelled));
    if IsNormal(raw) {
      assert Trim(raw) == raw;
      SpelledNormal(raw);
    }
  }

  // ---- The name in one pass ----------------------------------------------------

  /** A separator stands between words; a name never starts or ends with one. */
  predicate IsSeparator(c: char) {
    c == ' ' || c == '/' || c == '\\' || c == '-'
  }

  /** A character that is kept, in lower case. */
  predicate IsKept(c: char) {
    !IsSeparator(c) && IsNameChar(Lower(c))
  }

  /**
   The name in one pass: kept characters in lower case, with one dash between
   two of them exactly where a separator stands between them.  `inWord` says that one was
   kept already, and `gap` that a separator came since.
   */
  function Joined(s: string, inWord: bool, gap: bool): string {
    if s == [] then []
    else if IsKept(s[0]) then (if inWord && gap then "-" else "") + [Lower(s[0])] + Joined(s[1..], true, false)
    else Joined(s[1..], inWord, gap || IsSeparator(s[0]))
  }

  /** In front of the first kept character separators do not count. */
  lemma {:induction false} NoGapInFront(s: string)
    ensures Joined(s, false, true) == Joined(s, false, false)
  {
    if s != [] && !IsKept(s[0]) { NoGapInFront(s[1..]); }
  }

  /** Nor do they behind the last. */
  lemma {:induction false} NoGapBehind(s: string, c: char, inWord: bool, gap: bool)
    requires !IsKept(c)
    ensures Joined(s + [c], inWord, gap) == Joined(s, inWord, gap)
  {
    if s == [] {
      assert s + [c] == [c] && [c][1..] == [];
    } else {
      assert (s + [c])[1..] == s[1..] + [c];
      if IsKept(s[0]) {
        NoGapBehind(s[1..], c, true, false);
      } else {
        NoGapBehind(s[1..], c, inWord, gap || IsSeparator(s[0]));
      }
    }
  }

  lemma {:induction false} TrimmedJoins(s: string)
    ensures Joined(Trim(s), false, false) == Joined(s, false, false)
    decreases |s|
  {
    if s != [] && IsSpace(s[0]) {
      TrimmedJoins(s[1..]);
      NoGapInFront(s[1..]);
    } else if s != [] && IsSpace(s[|s| - 1]) {
      TrimmedJoins(s[..|s| - 1]);
      NoGapBehind(s[..|s| - 1], s[|s| - 1], false, false);
      assert s == s[..|s| - 1] + [s[|s| - 1]];
    }
  }

  lemma {:induction false} TrimmedDashesJoin(s: string)
    ensures Joined(TrimDashes(s), false, false) == Joined(s, false, false)
    decreases |s|
  {
    if s != [] && s[0] == '-' {
      TrimmedDashesJoin(s[1..]);
      NoGapInFront(s[1..]);
    } else if s != [] && s[|s| - 1] == '-' {
      TrimmedDashesJoin(s[..|s| - 1]);
      NoGapBehind(s[..|s| - 1], '-', false, false);
      assert s == s[..|s| - 1] + ['-'];
    }
  }

  lemma {:induction false} CollapsedJoins(s: string, inWord: bool, gap: bool)
    ensures Joined(Collapsed(s), inWord, gap) == Joined(s, inWord, gap)
  {
    if |s| >= 2 {
      if s[0] == '-' && s[1] == '-' {
        CollapsedJoins(s[1..], inWord, gap);
        assert Joined(s[1..], inWord, gap) == Joined(s[1..][1..], inWord, true);
        assert Joined(s[1..], inWord, true) == Joined(s[1..][1..], inWord, true);
      } else {
        assert ([s[0]] + Collapsed(s[1..]))[1..] == Collapsed(s[1..]);
        if IsKept(s[0]) {
          CollapsedJoins(s[1..], true, false);
        } else {
          CollapsedJoins(s[1..], inWord, gap || IsSeparator(s[0]));
        }
      }
    }
  }

  lemma {:induction false} SpelledFirst(c: char, s: string)
    ensures SpelledAll([c] + s) == Spelled(c) + SpelledAll(s)
  {
    var whole := [c] + s;
    if s == [] {
      assert whole[..0] == [] && whole == [c];
    } else {
      var front, last := s[..|s| - 1], s[|s| - 1];
      SpelledFirst(c, front);
      assert whole[..|s|] == [c] + front && whole[|s|] == last;
      assert (Spelled(c) + SpelledAll(front)) + Spelled(last) == Spelled(c) + (SpelledAll(front) + Spelled(last));
    }
  }

  lemma {:induction false} SpelledJoins(s: string, inWord: bool, gap: bool)
    ensures Joined(SpelledAll(s), inWord, gap) == Joined(s, inWord, gap)
  {
    if s != [] {
      SpelledFirst(s[0], s[1..]);
      assert s == [s[0]] + s[1..];
      var rest := SpelledAll(s[1..]);
      if Spelled(s[0]) != [] { assert SpelledAll(s)[1..] == rest; }
      if IsKept(s[0]) {
        SpelledJoins(s[1..], true, false);
      } else {
        SpelledJoins(s[1..], inWord, gap || IsSeparator(s[0]));
        assert Spelled(s[0]) == if IsSeparator(s[0]) then "-" else "";
        assert SpelledAll(s) == if IsSeparator(s[0]) then "-" + rest else rest;
      }
    }
  }

  lemma {:induction false} NormalJoins(s: string, inWord: bool, gap: bool)
    requires AllNameChars(s) && NoDoubleDash(s) && s != [] && s[|s| - 1] != '-'
    ensures s[0] != '-' ==> Joined(s, inWord, gap) == (if inWord && gap then "-" else "") + s
    ensures s[0] == '-' && inWord ==> Joined(s, inWord, gap) == s
  {
    assert s == [s[0]] + s[1..];
    if |s| > 1 {
      assert forall i :: 0 <= i < |s| - 1 ==> s[1..][i] == s[i + 1];
      if IsKept(s[0]) {
        NormalJoins(s[1..], true, false);
      } else {
        NormalJoins(s[1..], inWord, true);
      }
    } else {
      assert s[1..] == [];
    }
  }

  /** Trimming, spelling, collapsing and trimming again amounts to the one pass. */
  lemma NormalizedInOnePass(raw: string)
    ensures Normalized(raw) == Joined(raw, false, false)
  {
    TrimmedJoins(raw);
    SpelledJoins(Trim(raw), false, false);
    CollapsedJoins(SpelledAll(Trim(raw)), false, false);
    TrimmedDashesJoin(Collapsed(SpelledAll(Trim(raw))));
    NormalizedOnce(raw);
    if Normalized(raw) != [] { NormalJoins(Normalized(raw), false, false); }
  }

  // ---- The loops -------------------------------------------------------------

  /** Replaces each pair of dashes, from left to right, by one dash. */
  function ReplacePairs(s: string): (r: string)
    ensures |r| <= |s|
    ensures !NoDoubleDash(s) ==> |r| < |s|
  {
    if |s| < 2 then s
    else if s[0] == '-' && s[1] == '-' then ['-'] + ReplacePairs(s[2..])
    else
      assert forall i :: 0 <= i < |s| - 1 ==> s[1..][i] == s[i + 1];
      [s[0]] + ReplacePairs(s[1..])
  }

  /** Replacing pairs does not change what a run of dashes collapses to. */
  lemma {:induction false} ReplacePairsCollapses(s: string)
    ensures Collapsed(ReplacePairs(s)) == Collapsed(s)
    ensures s != [] ==> ReplacePairs(s) != [] && ReplacePairs(s)[0] == s[0]
    decreases |s|
  {
    if |s| < 2 {
    } else if s[0] == '-' && s[1] == '-' {
      var rest := s[2..];
      var r := ReplacePairs(rest);
      ReplacePairsCollapses(rest);
      assert s[1..][1..] == rest && s[1..][0] == '-';
      assert (['-'] + r)[1..] == r;
      if rest != [] {
        assert s[1..][1] == rest[0];
        assert Collapsed(s) == Collapsed(s[1..]);
      }
    } else {
      var r := ReplacePairs(s[1..]);
      ReplacePairsCollapses(s[1..]);
      assert r[0] == s[1] && ([s[0]] + r)[1..] == r;
    }
  }

  /** Spells a name character by character. */
  method Spell(value: string) returns (built: string)
    ensures built == SpelledAll(value)
  {
    built := [];
    var i := 0;
    while i < |value|
      invariant 0 <= i <= |value| && built == SpelledAll(value[..i])
    {
      assert value[..i + 1][..i] == value[..i];
      built := built + Spelled(value[i]);
      i := i + 1;
    }
    assert value[..i] == value;
  }

  /** Puts a name in normal form the way the command line does, pass by pass. */
  method Normalize(raw: string) returns (name: string)
    ensures name == Normalized(raw)
  {
    var built := Spell(Trim(raw));
    ghost var spelled := built;
    while !NoDoubleDash(built)
      invariant Collapsed(built) == Collapsed(spelled)
      decreases |built|
    {
      ReplacePairsCollapses(built);
      built := ReplacePairs(built);
    }
    CollapsedIs(built);
    name := TrimDashes(built);
  }

  // ---- Suggesting a name ---------------------------------------------------------

  function Digit(d: nat): char
    requires d < 10
  {
    ('0' as int + d) as char
  }

  function Decimal(n: nat): string {
    if n < 10 then [Digit(n)] else Decimal(n / 10) + [Digit(n % 10)]
  }

  lemma {:induction false} DecimalInjective(m: nat, n: nat)
    requires Decimal(m) == Decimal(n)
    ensures m == n
  {
    DecimalShape(m);
    DecimalShape(n);
    if m >= 10 && n >= 10 {
      var a, b := Decimal(m), Decimal(n);
      assert a[..|a| - 1] == Decimal(m / 10) && b[..|b| - 1] == Decimal(n / 10);
      DecimalInjective(m / 10, n / 10);
      assert a[|a| - 1] == Digit(m % 10) && b[|b| - 1] == Digit(n % 10);
    } else if m < 10 && n < 10 {
      assert Decimal(m)[0] == Digit(m) && Decimal(n)[0] == Digit(n);
    }
  }

  lemma {:induction false} DecimalShape(n: nat)
    ensures |Decimal(n)| >= 1 && (n >= 10 <==> |Decimal(n)| >= 2)
    ensures forall i :: 0 <= i < |Decimal(n)| ==> '0' <= Decimal(n)[i] <= '9'
  {
    if n < 10 {
    } else {
      DecimalShape(n / 10);
    }
  }

  function Numbered(n: nat): string {
    "account-" + Decimal(n)
  }

  lemma NumberedIs(n: nat)
    ensures IsNormal(Numbered(n))
  {
    DecimalShape(n);
    var name, d := Numbered(n), Decimal(n);
    forall i | 0 <= i < |name| ensures IsNameChar(name[i]) && (i >= 8 ==> name[i] != '-') {
      if i >= 8 { assert name[i] == d[i - 8]; }
    }
    assert name[..8] == "account-" && forall i :: 0 <= i < 7 ==> name[i] == "account-"[i] != '-';
  }

  /** The numbered names from two up to `n`. */
  ghost function NumberedBelow(n: nat): set<string>
    requires n >= 2
  {
    if n == 2 then {} else NumberedBelow(n - 1) + {Numbered(n - 1)}
  }

  lemma {:induction false} NumberedBelowSize(n: nat)
    requires n >= 2
    ensures |NumberedBelow(n)| == n - 2
    ensures forall x :: x in NumberedBelow(n) ==> exists k :: 2 <= k < n && x == Numbered(k)
  {
    if n > 2 {
      NumberedBelowSize(n - 1);
      if Numbered(n - 1) in NumberedBelow(n - 1) {
        var k :| 2 <= k < n - 1 && Numbered(n - 1) == Numbered(k);
        SameNumber(n - 1, k);
        assert false;
      }
    }
  }

  lemma SameNumber(m: nat, n: nat)
    requires Numbered(m) == Numbered(n)
    ensures m == n
  {
    assert Numbered(m)[8..] == Decimal(m) && Numbered(n)[8..] == Decimal(n);
    DecimalInjective(m, n);
  }

  /** The first free number from two on. */
  ghost predicate IsFirstFree(n: nat, reserved: set<string>) {
    n >= 2 && Numbered(n) !in reserved && NumberedBelow(n) <= reserved
  }

  /**
   Suggests a name that is normal and not reserved: "primary" for the first
   account, otherwise the first free number from two on.  The search ends
   because the reserved names are finitely many.
   */
  method Suggest(reserved: set<string>) returns (name: string)
    ensures name !in reserved && IsNormal(name)
    ensures reserved == {} ==> name == "primary"
    ensures reserved != {} ==> exists n: nat :: IsFirstFree(n, reserved) && n <= |reserved| + 2 && name == Numbered(n)
  {
    if |reserved| == 0 {
      return "primary";
    }
    var index := 2;
    while Numbered(index) in reserved
      invariant index >= 2 && NumberedBelow(index) <= reserved
      invariant index <= |reserved| + 2
      decreases |reserved| + 2 - index
    {
      index := index + 1;
      NumberedBelowSize(index);
      SubsetSize(NumberedBelow(index), reserved);
    }
    NumberedIs(index);
    assert IsFirstFree(index, reserved);
    return Numbered(index);
  }
}
