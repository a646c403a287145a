/** Generated guidance files with a section for notes written by hand: regenerating the file keeps the notes. */
module ManualNotes {
  import opened Wrappers
  import opened MarkedText
  import opened Text

  const MANAGED := "<!-- NANA:AGENTS-INIT:MANAGED -->"
  const START := "<!-- NANA:AGENTS-INIT:MANUAL:START -->"
  const END := "<!-- NANA:AGENTS-INIT:MANUAL:END -->"

  /** The notes a file holds between its markers, if there are any. */
  function Section(existing: string): Option<string> {
    var start, end := Index(existing, START), Index(existing, END);
    if start < 0 || end < 0 || end < start then None
    else
      MarkersDoNotOverlap(existing, start, end);
      var section := Trim(existing[start + |START|..end]);
      if section == "" then None else Some(section)
  }

  /** The notes to write: those of the file, or the ones a new file gets. */
  function Extracted(existing: string, fallback: string): string {
    match Section(existing)
    case None => Trim(fallback)
    case Some(notes) => notes
  }

  function Front(body: string): string {
    MANAGED + "\n" + TrimBreaks(body) + "\n"
  }

  function Wrapped(body: string, notes: string): string {
    Front(body) + "\n" + (START + "\n" + Trim(notes) + "\n" + END + "\n")
  }

  lemma TheMarkers()
    ensures |MANAGED| == 33 && |START| == 38 && |END| == 36
    ensures IsMarker(MANAGED) && IsMarker(START) && IsMarker(END)
    ensures START[0] == '<' && END[0] == '<' && START[29] == 'S' && END[29] == 'E'
    ensures forall k :: 0 < k < |START| ==> START[k] != '<'
  {
  }

  /** The end of the notes never stands inside the start marker. */
  lemma MarkersDoNotOverlap(s: string, start: int, end: int)
    requires Index(s, START) == start && Index(s, END) == end && 0 <= start <= end
    ensures start + |START| <= end
  {
    TheMarkers();
    FirstIsIndex(s, START, start);
    FirstIsIndex(s, END, end);
    assert s[start + 29] == START[29] && s[end + 29] == END[29] && s[end] == END[0];
    assert forall k :: 0 <= k < |START| ==> s[start + k] == START[k];
    assert forall i :: start < i < start + |START| ==> s[i] == START[i - start];
  }

  predicate IsFree(text: string) {
    !Contains(text, START) && !Contains(text, END)
  }

  lemma MarkersStayOut(text: string, m: string)
    requires IsMarker(m) && |m| > |text|
    ensures !Contains(text, m)
  {
    FirstIsIndex(text, m, 0);
  }

  /** The text in front of the notes holds only what the body holds. */
  lemma FrontHolds(body: string, m: string)
    requires IsMarker(m) && |m| > |MANAGED|
    ensures Contains(Front(body), m) <==> Contains(TrimBreaks(body), m)
  {
    TheMarkers();
    var lines := TrimBreaks(body);
    IndexAround(MANAGED, lines + "\n", m);
    IndexAround(lines, "", m);
    MarkersStayOut(MANAGED, m);
    MarkersStayOut("", m);
    assert Front(body) == MANAGED + "\n" + (lines + "\n") && lines + "\n" + "" == lines + "\n";
  }

  /** Where the markers of a generated file are found. */
  lemma WrappedMarkers(body: string, notes: string)
    ensures Index(Wrapped(body, notes), START) ==
      if Contains(TrimBreaks(body), START) then Index(Front(body), START) else |Front(body)| + 1
    ensures var s, n := |Front(body)| + 1 + |START|, Trim(notes);
      Index(Wrapped(body, notes), END) ==
        if Contains(TrimBreaks(body), END) then Index(Front(body), END)
        else s + 1 + if Contains(n, END) then Index(n, END) else |n| + 1
  {
    TheMarkers();
    var front, n := Front(body), Trim(notes);
    FrontHolds(body, START);
    FrontHolds(body, END);
    StartIsFound(front, n);
    EndIsFound(front, n);
  }

  lemma StartIsFound(front: string, n: string)
    ensures Index(front + "\n" + (START + "\n" + n + "\n" + END + "\n"), START) ==
      if Contains(front, START) then Index(front, START) else |front| + 1
  {
    TheMarkers();
    var rest := n + "\n" + END + "\n";
    assert START + "\n" + n + "\n" + END + "\n" == START + "\n" + rest;
    FoundInItself(START);
    IndexAround(START, rest, START);
    IndexAround(front, START + "\n" + rest, START);
  }

  lemma FoundInItself(m: string)
    ensures Index(m, m) == 0
  {
    FirstIsIndex(m, m, 0);
  }

  lemma StartHasNoEnd()
    ensures !Contains(START, END)
  {
    TheMarkers();
    FirstIsIndex(START, END, 0);
    assert START[0..|END|][29] == START[29];
    assert forall j :: 0 < j <= 2 ==> START[j..j + |END|][0] == START[j];
  }

  lemma EndIsFound(front: string, n: string)
    ensures var s := |front| + 1 + |START|;
      Index(front + "\n" + (START + "\n" + n + "\n" + END + "\n"), END) ==
        if Contains(front, END) then Index(front, END)
        else s + 1 + if Contains(n, END) then Index(n, END) else |n| + 1
  {
    TheMarkers();
    var head, rest := front + "\n" + START + "\n" + n, END + "\n";
    FoundInItself(END);
    StartHasNoEnd();
    MarkersStayOut("", END);
    assert front + "\n" + (START + "\n" + n + "\n" + END + "\n") == head + "\n" + rest;
    assert front + "\n" + START + "\n" + n == front + "\n" + (START + "\n" + n) && END + "\n" + "" == rest;
    IndexAround(END, "", END);
    IndexAround(START, n, END);
    IndexAround(front, START + "\n" + n, END);
    IndexAround(head, rest, END);
  }

  // ---- One regeneration --------------------------------------------------------------------

  /** A generated file holds the notes it was given, unless the body or the notes hold a marker. */
  lemma {:induction false} NotesAreFound(body: string, notes: string)
    requires IsFree(TrimBreaks(body)) && !Contains(Trim(notes), END)
    ensures Section(Wrapped(body, notes)) == if Trim(notes) == "" then None else Some(Trim(notes))
  {
    var head, n, tail := Front(body) + "\n" + START, Trim(notes), END + "\n";
    assert Wrapped(body, notes) == head + ("\n" + n + "\n") + tail;
    WrappedMarkers(body, notes);
    SectionIs(Wrapped(body, notes), head, "\n" + n + "\n", tail);
    TrimTwice(notes);
    TrimFramed(n);
  }

  lemma SectionIs(text: string, head: string, section: string, tail: string)
    requires text == head + section + tail && |head| >= |START|
    requires Index(text, START) == |head| - |START| && Index(text, END) == |head| + |section|
    ensures Section(text) == if Trim(section) == "" then None else Some(Trim(section))
  {
    assert text[|head|..|head| + |section|] == section;
  }

  lemma {:induction false} KeptWithoutStart(body: string, notes: string)
    requires !Contains(TrimBreaks(body), START)
    ensures Extracted(Wrapped(body, notes), "") == Trim(notes) <==>
      Trim(notes) == "" || (!Contains(TrimBreaks(body), END) && !Contains(Trim(notes), END))
  {
    var front, n := Front(body), Trim(notes);
    var text := Wrapped(body, notes);
    WrappedMarkers(body, notes);
    if Contains(TrimBreaks(body), END) {
      assert Section(text) == None;
    } else if Contains(n, END) {
      var section := text[|front| + 1 + |START|..Index(text, END)];
      assert |Trim(section)| < |n|;
    } else {
      NotesAreFound(body, notes);
    }
  }

  /** A body that holds both markers is read instead of the notes. */
  lemma {:induction false} BodyIsRead(body: string, notes: string)
    requires Contains(TrimBreaks(body), START) && Contains(TrimBreaks(body), END)
    ensures Section(Wrapped(body, notes)) == Section(Front(body))
  {
    WrappedMarkers(body, notes);
    BothAreWhole(body);
    PrefixIsRead(Front(body), Wrapped(body, notes));
  }

  lemma BothAreWhole(body: string)
    requires Contains(TrimBreaks(body), START) && Contains(TrimBreaks(body), END)
    ensures 0 <= Index(Front(body), START) && 0 <= Index(Front(body), END) <= |Front(body)|
  {
    TheMarkers();
    FrontHolds(body, START);
    FrontHolds(body, END);
    FirstIsIndex(Front(body), END, Index(Front(body), END));
  }

  /** Text behind both markers does not count. */
  lemma PrefixIsRead(front: string, text: string)
    requires front <= text
    requires Index(text, START) == Index(front, START) && Index(text, END) == Index(front, END)
    requires 0 <= Index(front, END) <= |front|
    ensures Section(text) == Section(front)
  {
    var start, end := Index(front, START), Index(front, END);
    if 0 <= start <= end {
      MarkersDoNotOverlap(front, start, end);
      assert text[start + |START|..end] == front[start + |START|..end];
    }
  }

  /** Trimming leaves everything between two places that are not white space. */
  lemma {:induction false} TrimLeaves(s: string, i: nat, j: nat)
    requires i <= j < |s| && !IsSpace(s[i]) && !IsSpace(s[j])
    ensures |Trim(s)| >= j - i + 1
    decreases |s|
  {
    if IsSpace(s[0]) {
      TrimLeaves(s[1..], i - 1, j - 1);
    } else if IsSpace(s[|s| - 1]) {
      TrimLeaves(s[..|s| - 1], i, j);
    }
  }

  /** What is read never holds the end marker, so notes that do are not read again. */
  lemma {:induction false} OpenBodyDropsEnd(body: string, notes: string)
    requires Contains(TrimBreaks(body), START) && !Contains(TrimBreaks(body), END) && Contains(Trim(notes), END)
    ensures Extracted(Wrapped(body, notes), "") != Trim(notes)
  {
    if Section(Wrapped(body, notes)).Some? {
      SectionIsFree(Wrapped(body, notes));
    } else {
      FirstIsIndex("", END, 0);
    }
  }

  /** Notes that do not are read together with what stands in front of them. */
  lemma {:induction false} OpenBodyReadsMore(body: string, notes: string)
    requires Contains(TrimBreaks(body), START) && !Contains(TrimBreaks(body), END) && !Contains(Trim(notes), END)
    ensures Extracted(Wrapped(body, notes), "") != Trim(notes)
  {
    var front, n := Front(body), Trim(notes);
    FrontHolds(body, START);
    WrappedMarkers(body, notes);
    StartIsWhole(front);
    TrimTwice(notes);
    ReadFrom(Wrapped(body, notes), front, n, Index(front, START) + |START|);
  }

  lemma StartIsWhole(text: string)
    requires Contains(text, START)
    ensures 0 <= Index(text, START) <= |text| - |START|
  {
    FirstIsIndex(text, START, Index(text, START));
  }

  /** What is read from a place in the front on is longer than the notes. */
  lemma {:induction false} ReadFrom(text: string, front: string, n: string, from: nat)
    requires text == front + "\n" + (START + "\n" + n + "\n" + END + "\n")
    requires |START| <= from <= |front| && Trim(n) == n
    requires Index(text, START) == from - |START| && Index(text, END) == |front| + 1 + |START| + 1 + |n| + 1
    ensures Extracted(text, "") != n
  {
    SectionStandsThere(front, n, from);
    LongerThanNotes(front[from..], n);
  }

  lemma SectionStandsThere(front: string, n: string, from: nat)
    requires from <= |front|
    ensures (front + "\n" + (START + "\n" + n + "\n" + END + "\n"))[from..|front| + 1 + |START| + 1 + |n| + 1] ==
      front[from..] + "\n" + (START + "\n" + n + "\n")
  {
  }

  lemma {:induction false} LongerThanNotes(before: string, n: string)
    requires Trim(n) == n
    ensures |Trim(before + "\n" + (START + "\n" + n + "\n"))| > |n|
  {
    TheMarkers();
    var s := before + "\n" + (START + "\n" + n + "\n");
    assert s[|before| + 1] == START[0];
    assert n != "" ==> s[|s| - 2] == n[|n| - 1];
    TrimLeaves(s, |before| + 1, if n == "" then |before| + 1 else |s| - 2);
  }

  /** Behind a start marker in the body alone the notes are never read as they were written. */
  lemma OpenBodyIsNeverKept(body: string, notes: string)
    requires Contains(TrimBreaks(body), START) && !Contains(TrimBreaks(body), END)
    ensures Extracted(Wrapped(body, notes), "") != Trim(notes)
  {
    if Contains(Trim(notes), END) {
      OpenBodyDropsEnd(body, notes);
    } else {
      OpenBodyReadsMore(body, notes);
    }
  }

  /**
   The notes written to a file are the notes read from it exactly when the
   body holds no start marker, and they are blank or neither they nor the
   body hold the end marker; or when the body holds both markers, and between
   them the very same notes.
   */
  lemma {:induction false} NotesAreKeptExactly(body: string, notes: string)
    ensures Extracted(Wrapped(body, notes), "") == Trim(notes) <==>
      if Contains(TrimBreaks(body), START) then
        Contains(TrimBreaks(body), END) && Extracted(Front(body), "") == Trim(notes)
      else
        Trim(notes) == "" || (!Contains(TrimBreaks(body), END) && !Contains(Trim(notes), END))
  {
    if !Contains(TrimBreaks(body), START) {
      KeptWithoutStart(body, notes);
    } else if Contains(TrimBreaks(body), END) {
      BodyIsRead(body, notes);
    } else {
      OpenBodyIsNeverKept(body, notes);
    }
  }

  /** Notes read from a file never hold the end marker. */
  lemma SectionIsFree(existing: string)
    requires Section(existing).Some?
    ensures !Contains(Section(existing).value, END)
    ensures Trim(Section(existing).value) == Section(existing).value != ""
  {
    var start, end := Index(existing, START), Index(existing, END);
    MarkersDoNotOverlap(existing, start, end);
    TheMarkers();
    PartHolds(existing, END, start + |START|, end);
    TrimHolds(existing[start + |START|..end], END);
    TrimTwice(existing[start + |START|..end]);
  }

  // ---- Syncing a file ---------------------------------------------------------------------------

  datatype Decision = Updated | Unchanged | Skipped

  /** One run over a file: the body it generates, the notes for a file without any, and how it was started. */
  datatype Run = Run(body: string, fallback: string, force: bool, dryRun: bool, session: bool)

  function Content(existing: string, r: Run): string {
    Wrapped(r.body, Extracted(existing, r.fallback))
  }

  function DecisionOn(file: Option<string>, r: Run): Decision {
    if r.session then Skipped
    else if file.None? then Updated
    else if file.value == Content(file.value, r) then Unchanged
    else if !Contains(file.value, MANAGED) && !r.force then Skipped
    else Updated
  }

  function Existing(file: Option<string>): string {
    if file.Some? then file.value else ""
  }

  function AfterRun(file: Option<string>, r: Run): Option<string> {
    if DecisionOn(file, r) == Updated && !r.dryRun then Some(Content(Existing(file), r)) else file
  }

  function AfterRuns(file: Option<string>, runs: seq<Run>): Option<string>
    decreases |runs|
  {
    if runs == [] then file else AfterRuns(AfterRun(file, runs[0]), runs[1..])
  }

  /** Only a body without markers is generated. */
  predicate IsPlain(r: Run) {
    IsFree(TrimBreaks(r.body))
  }

  /** What a run writes is managed. */
  lemma WrittenIsManaged(file: Option<string>, r: Run)
    requires AfterRun(file, r) != file
    ensures AfterRun(file, r).Some? && Contains(AfterRun(file, r).value, MANAGED)
  {
    TheMarkers();
    var text := Content(Existing(file), r);
    assert text[..|MANAGED|] == MANAGED;
    FirstIsIndex(text, MANAGED, 0);
    assert StandsAt(text, MANAGED, 0);
  }

  /** A managed file stays managed over every sequence of runs. */
  lemma {:induction false} ManagedStays(file: string, runs: seq<Run>)
    requires Contains(file, MANAGED)
    ensures AfterRuns(Some(file), runs).Some? && Contains(AfterRuns(Some(file), runs).value, MANAGED)
    decreases |runs|
  {
    if runs != [] {
      if AfterRun(Some(file), runs[0]) != Some(file) { WrittenIsManaged(Some(file), runs[0]); }
      ManagedStays(AfterRun(Some(file), runs[0]).value, runs[1..]);
    }
  }

  /** Notes in a file survive every sequence of runs, whatever bodies they generate and however they are started. */
  lemma {:induction false} NotesSurvive(file: string, runs: seq<Run>)
    requires Section(file).Some? && forall i :: 0 <= i < |runs| ==> IsPlain(runs[i])
    ensures AfterRuns(Some(file), runs).Some?
    ensures Section(AfterRuns(Some(file), runs).value) == Section(file)
    decreases |runs|
  {
    if runs != [] {
      SectionIsFree(file);
      NotesAreFound(runs[0].body, Section(file).value);
      NotesSurvive(AfterRun(Some(file), runs[0]).value, runs[1..]);
    }
  }

  /** A file without notes that a run writes gets the run's, and keeps them from then on. */
  lemma {:induction false} FirstNotesSurvive(file: Option<string>, first: Run, runs: seq<Run>)
    requires Section(Existing(file)).None? && AfterRun(file, first) != file
    requires IsPlain(first) && Trim(first.fallback) != "" && !Contains(Trim(first.fallback), END)
    requires forall i :: 0 <= i < |runs| ==> IsPlain(runs[i])
    ensures AfterRuns(AfterRun(file, first), runs).Some?
    ensures Section(AfterRuns(AfterRun(file, first), runs).value) == Some(Trim(first.fallback))
  {
    TrimTwice(first.fallback);
    NotesAreFound(first.body, Trim(first.fallback));
    NotesSurvive(AfterRun(file, first).value, runs);
  }

  /** A file that one run wrote, the same run leaves as it is. */
  lemma {:induction false} SameRunTwice(file: Option<string>, r: Run)
    requires IsPlain(r) && !r.session && AfterRun(file, r) != file
    requires Section(Existing(file)).None? ==> !Contains(Trim(r.fallback), END)
    ensures DecisionOn(AfterRun(file, r), r) == Unchanged
  {
    var notes := Extracted(Existing(file), r.fallback);
    if Section(Existing(file)).Some? { SectionIsFree(Existing(file)); }
    TrimTwice(r.fallback);
    NotesAreFound(r.body, notes);
  }

  /** A file that is not managed is never touched unless a run is forced. */
  lemma {:induction false} UnmanagedStays(file: string, runs: seq<Run>)
    requires !Contains(file, MANAGED) && forall i :: 0 <= i < |runs| ==> !runs[i].force
    ensures AfterRuns(Some(file), runs) == Some(file)
    decreases |runs|
  {
    if runs != [] { UnmanagedStays(file, runs[1..]); }
  }

  // ---- What is read and written, told on the text ---------------------------------------------------

  /**
   Between the first start marker and the first end marker stand the notes; a
   file without one of them, or with the end in front, has none, and neither
   has one with white space between them only.
   */
  lemma SectionExactly(existing: string, notes: string)
    ensures Section(existing) == Some(notes) <==>
      notes != "" && exists start, end ::
        FirstAt(existing, START, start) && FirstAt(existing, END, end) && start + |START| <= end
        && Trim(existing[start + |START|..end]) == notes
  {
    var start, end := Index(existing, START), Index(existing, END);
    FirstIsIndex(existing, START, start);
    FirstIsIndex(existing, END, end);
    if 0 <= start <= end {
      MarkersDoNotOverlap(existing, start, end);
      assert FirstAt(existing, START, start) && FirstAt(existing, END, end);
    }
    forall s, e | FirstAt(existing, START, s) && FirstAt(existing, END, e) ensures s == start && e == end {
      FirstIsIndex(existing, START, s);
      FirstIsIndex(existing, END, e);
    }
  }

  /** The text that a run over a file generates: the file's own notes, or else the run's, behind the body. */
  predicate IsGenerated(text: string, file: Option<string>, r: Run) {
    var kept := if file.Some? then Section(file.value) else None;
    var notes := match kept case None => Trim(r.fallback) case Some(n) => n;
    text == MANAGED + "\n" + TrimBreaks(r.body) + "\n\n" + START + "\n" + notes + "\n" + END + "\n"
  }

  /** A forced run that is no dry run and no session's always leaves the generated text. */
  lemma ForcedWrites(file: Option<string>, r: Run) returns (text: string)
    ensures IsGenerated(text, file, r)
    ensures AfterRun(file, r.(force := true, dryRun := false, session := false)) == Some(text)
  {
    text := Content(Existing(file), r);
    FirstIsIndex("", START, 0);
    if file.Some? && Section(file.value).Some? {
      SectionIsFree(file.value);
    } else {
      TrimTwice(r.fallback);
    }
    var notes := Trim(Extracted(Existing(file), r.fallback));
    assert MANAGED + "\n" + TrimBreaks(r.body) + "\n" + "\n" == MANAGED + "\n" + TrimBreaks(r.body) + "\n\n";
    assert Wrapped(r.body, Extracted(Existing(file), r.fallback))
        == MANAGED + "\n" + TrimBreaks(r.body) + "\n" + "\n" + (START + "\n" + notes + "\n" + END + "\n");
  }

  /**
   A run writes exactly when it is no session's, no dry run, and the file is
   missing, or does not show the generated text already and is managed or the
   run is forced.  What it answers is the same for a dry run.
   */
  lemma WritesExactly(file: Option<string>, r: Run, text: string)
    requires IsGenerated(text, file, r)
    ensures var writes :=
        !r.session && (file.None? || (file.value != text && (Contains(file.value, MANAGED) || r.force)));
      && AfterRun(file, r) == (if writes && !r.dryRun then Some(text) else file)
      && (DecisionOn(file, r) == Updated <==> writes)
      && (DecisionOn(file, r) == Unchanged <==> !r.session && file == Some(text))
  {
    var generated := ForcedWrites(file, r);
    assert generated == text == Content(Existing(file), r);
  }
}
