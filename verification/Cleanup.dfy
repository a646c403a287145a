/**
 Process cleanup: which server processes belong to the current session, and
 which are left over from an earlier one.
 */
module Cleanup {
  import opened Sets
  import opened Text
  import opened Wrappers

  datatype Process = Process(pid: int, ppid: int, command: string)

  datatype Reason = OrphanedToInit | OutsideSession

  datatype Candidate = Candidate(process: Process, reason: Reason)

  // ---- Commands -----------------------------------------------------------------

  function WithSlashes(s: string): string {
    seq(|s|, i requires 0 <= i < |s| => if s[i] == '\\' then '/' else s[i])
  }

  predicate IsServer(command: string) {
    Contains(WithSlashes(command), "nana/dist/mcp") || Contains(WithSlashes(command), "/dist/mcp/")
  }

  predicate IsSession(command: string) {
    Contains(WithSlashes(command), "codex") || Contains(WithSlashes(command), "@openai/codex")
  }

  // ---- Parent links -----------------------------------------------------------------

  /** The entry that counts for a process: the last one with its pid. */
  function EntryOf(table: seq<Process>, pid: int): Option<Process> {
    if table == [] then None
    else if table[|table| - 1].pid == pid then Some(table[|table| - 1])
    else EntryOf(table[..|table| - 1], pid)
  }

  predicate IsSessionPid(table: seq<Process>, pid: int) {
    EntryOf(table, pid).Some? && IsSession(EntryOf(table, pid).value.command)
  }

  /** The parent to go on to, if there is one that is a process of its own. */
  function ParentOf(table: seq<Process>, pid: int): Option<int> {
    match EntryOf(table, pid)
    case None => None
    case Some(p) => if p.ppid <= 0 || p.ppid == pid then None else Some(p.ppid)
  }

  /** The walk to the root goes no further than this process. */
  predicate IsStop(table: seq<Process>, pid: int) {
    pid <= 1 || IsSessionPid(table, pid) || ParentOf(table, pid).None?
  }

  /** The process that the walk reaches after `n` steps, if it gets that far. */
  function Walked(table: seq<Process>, start: int, n: nat): Option<int> {
    if n == 0 then Some(start)
    else
      match Walked(table, start, n - 1)
      case None => None
      case Some(pid) => if IsStop(table, pid) then None else ParentOf(table, pid)
  }

  predicate StopsAfter(table: seq<Process>, start: int, n: nat) {
    Walked(table, start, n).Some? && IsStop(table, Walked(table, start, n).value)
  }

  ghost predicate WalkEnds(table: seq<Process>, start: int) {
    exists n: nat :: StopsAfter(table, start, n)
  }

  /** The root that a walk of `n` steps finds: the session it stops at, or the start itself. */
  function RootAfter(table: seq<Process>, start: int, n: nat): int
    requires StopsAfter(table, start, n)
  {
    var pid := Walked(table, start, n).value;
    if pid > 1 && IsSessionPid(table, pid) then pid else start
  }

  /** The root of the session that the process belongs to, where the walk ends. */
  ghost function RootOf(table: seq<Process>, start: int): int
    requires WalkEnds(table, start)
  {
    var n: nat :| StopsAfter(table, start, n);
    RootAfter(table, start, n)
  }

  lemma {:induction false} EntryIsInTable(table: seq<Process>, pid: int)
    ensures EntryOf(table, pid).Some? ==> EntryOf(table, pid).value in table && EntryOf(table, pid).value.pid == pid
    ensures EntryOf(table, pid).Some? <==> exists p :: p in table && p.pid == pid
  {
    if table == [] {
    } else {
      var last := |table| - 1;
      EntryIsInTable(table[..last], pid);
      assert table[last] in table;
      assert forall p :: p in table <==> p in table[..last] || p == table[last];
    }
  }

  /** Of several entries of a process the last one counts. */
  lemma {:induction false} EntryIsLast(table: seq<Process>, i: nat)
    requires i < |table| && forall j :: i < j < |table| ==> table[j].pid != table[i].pid
    ensures EntryOf(table, table[i].pid) == Some(table[i])
  {
    if i < |table| - 1 { EntryIsLast(table[..|table| - 1], i); }
  }

  lemma {:induction false} WalkedBefore(table: seq<Process>, start: int, m: nat, n: nat)
    requires m <= n && Walked(table, start, n).Some?
    ensures Walked(table, start, m).Some?
    ensures m < n ==> !IsStop(table, Walked(table, start, m).value)
    decreases n
  {
    if m < n { WalkedBefore(table, start, m, n - 1); }
  }

  /** A walk stops only once. */
  lemma StopIsUnique(table: seq<Process>, start: int, m: nat, n: nat)
    requires StopsAfter(table, start, m) && StopsAfter(table, start, n)
    ensures m == n
  {
    if m < n { WalkedBefore(table, start, m, n); }
    if n < m { WalkedBefore(table, start, n, m); }
  }

  // ---- When the walk ends -----------------------------------------------------------------

  lemma RootIs(table: seq<Process>, start: int, n: nat)
    requires StopsAfter(table, start, n)
    ensures RootOf(table, start) == RootAfter(table, start, n)
  {
    forall m: nat | StopsAfter(table, start, m) ensures m == n { StopIsUnique(table, start, m, n); }
  }

  /** The walk meets a session, that is a process above pid 1 whose command says so. */
  predicate MeetsSession(table: seq<Process>, start: int, n: nat) {
    match Walked(table, start, n)
    case None => false
    case Some(pid) => pid > 1 && EntryOf(table, pid).Some? && IsSession(EntryOf(table, pid).value.command)
  }

  /** The root is the session that the walk meets, and without one the start. */
  lemma RootExactly(table: seq<Process>, start: int)
    requires WalkEnds(table, start)
    ensures (forall n: nat :: !MeetsSession(table, start, n)) ==> RootOf(table, start) == start
    ensures forall n: nat :: MeetsSession(table, start, n) ==> Walked(table, start, n) == Some(RootOf(table, start))
  {
    var stop: nat :| StopsAfter(table, start, stop);
    RootIs(table, start, stop);
    forall n: nat | MeetsSession(table, start, n) ensures n == stop {
      assert StopsAfter(table, start, n);
      StopIsUnique(table, start, n, stop);
    }
    var pid := Walked(table, start, stop).value;
    assert MeetsSession(table, start, stop) <==> pid > 1 && IsSessionPid(table, pid);
  }

  /** Every step of the walk leads to a parent, and a session is never passed. */
  lemma WalkClimbs(table: seq<Process>, start: int, n: nat)
    requires Walked(table, start, n + 1).Some?
    ensures Walked(table, start, n).Some? && !MeetsSession(table, start, n)
    ensures var pid := Walked(table, start, n).value;
      pid > 1 && EntryOf(table, pid).Some? && Walked(table, start, n + 1) == Some(EntryOf(table, pid).value.ppid)
  {
  }

  /** The walk comes back to a process it has been at. */
  ghost predicate RunsInCircle(table: seq<Process>, start: int) {
    exists m: nat, n: nat ::
      m < n && Walked(table, start, n).Some? && Walked(table, start, m) == Walked(table, start, n)
  }

  lemma {:induction false} WalkRepeats(table: seq<Process>, start: int, m: nat, n: nat, k: nat)
    requires Walked(table, start, m) == Walked(table, start, n)
    ensures Walked(table, start, m + k) == Walked(table, start, n + k)
  {
    if k > 0 { WalkRepeats(table, start, m, n, k - 1); }
  }

  function Pids(table: seq<Process>): set<int> {
    set p | p in table :: p.pid
  }

  /** The processes that the first `n` steps leave from. */
  ghost function Visited(table: seq<Process>, start: int, n: nat): set<int> {
    set k | 0 <= k < n && Walked(table, start, k).Some? :: Walked(table, start, k).value
  }

  lemma {:induction false} VisitedGrows(table: seq<Process>, start: int, n: nat)
    requires Walked(table, start, n).Some? && !RunsInCircle(table, start)
    ensures |Visited(table, start, n)| == n && Visited(table, start, n) <= Pids(table)
  {
    if n == 0 {
      assert Visited(table, start, 0) == {};
    } else {
      var pid := Walked(table, start, n - 1).value;
      VisitedGrows(table, start, n - 1);
      EntryIsInTable(table, pid);
      assert pid in Pids(table);
      assert Visited(table, start, n) == Visited(table, start, n - 1) + {pid};
      assert forall k: nat :: k < n - 1 ==> Walked(table, start, k) != Walked(table, start, n - 1);
    }
  }

  /** Walks that go on and on have passed more processes than there are. */
  lemma {:induction false} StopsWithin(table: seq<Process>, start: int, n: nat)
    requires !RunsInCircle(table, start) && Walked(table, start, n).Some?
    ensures WalkEnds(table, start)
    decreases |Pids(table)| - n
  {
    VisitedGrows(table, start, n);
    SubsetSize(Visited(table, start, n), Pids(table));
    if !StopsAfter(table, start, n) {
      assert Walked(table, start, n + 1).Some?;
      VisitedGrows(table, start, n + 1);
      SubsetSize(Visited(table, start, n + 1), Pids(table));
      StopsWithin(table, start, n + 1);
    }
  }

  /** The walk to the root ends exactly when it does not come back to a process it has been at. */
  lemma WalkEndsExactly(table: seq<Process>, start: int)
    ensures WalkEnds(table, start) <==> !RunsInCircle(table, start)
  {
    if RunsInCircle(table, start) && WalkEnds(table, start) {
      var m: nat, n: nat :|
        m < n && Walked(table, start, n).Some? && Walked(table, start, m) == Walked(table, start, n);
      var stop: nat :| StopsAfter(table, start, stop);
      WalkedEarlier(table, start, stop, n);
      WalkRepeats(table, start, m, n, stop - n);
      StopIsUnique(table, start, m + (stop - n), stop);
    } else if !RunsInCircle(table, start) {
      StopsWithin(table, start, 0);
    }
  }

  lemma WalkedEarlier(table: seq<Process>, start: int, stop: nat, n: nat)
    requires StopsAfter(table, start, stop) && Walked(table, start, n).Some?
    ensures n <= stop
  {
    if stop < n { WalkedBefore(table, start, stop, n); }
  }

  /** Two processes that name each other as parent keep the walk going for ever. */
  lemma MutualParentsNeverEnd()
    ensures !WalkEnds([Process(5, 6, "a"), Process(6, 5, "b")], 5)
  {
    var table := [Process(5, 6, "a"), Process(6, 5, "b")];
    assert table[..1] == [Process(5, 6, "a")];
    assert EntryOf(table, 6) == Some(table[1]) && EntryOf(table, 5) == EntryOf(table[..1], 5) == Some(table[0]);
    assert WithSlashes("a") == "a" && WithSlashes("b") == "b";
    assert Walked(table, 5, 1) == Some(6) && Walked(table, 5, 2) == Some(5);
    assert Walked(table, 5, 0) == Walked(table, 5, 2);
    assert RunsInCircle(table, 5);
    WalkEndsExactly(table, 5);
  }

  /** A step that leads on is taken before the walk stops. */
  lemma StepsUp(table: seq<Process>, start: int, stop: nat, step: nat, pid: int)
    requires StopsAfter(table, start, stop) && step <= stop && Walked(table, start, step) == Some(pid)
    requires !StopsAfter(table, start, step)
    ensures step < stop && EntryOf(table, pid).Some?
    ensures Walked(table, start, step + 1) == Some(EntryOf(table, pid).value.ppid)
  {
    assert Walked(table, start, step + 1).Some?;
    WalkedEarlier(table, start, stop, step + 1);
  }

  /** Walks up the parent links to the session that the current process belongs to. */
  method ResolveRoot(table: seq<Process>, current: int) returns (root: int)
    requires WalkEnds(table, current)
    ensures root == RootOf(table, current)
  {
    ghost var stop: nat :| StopsAfter(table, current, stop);
    ghost var step: nat := 0;
    var pid := current;
    while pid > 1
      invariant step <= stop && Walked(table, current, step) == Some(pid)
      decreases stop - step
    {
      var entry := EntryOf(table, pid);
      if entry.Some? && IsSession(entry.value.command) {
        assert StopsAfter(table, current, step);
        RootIs(table, current, step);
        return pid;
      }
      if entry.None? || entry.value.ppid <= 0 || entry.value.ppid == pid {
        break;
      }
      StepsUp(table, current, stop, step, pid);
      pid := entry.value.ppid;
      step := step + 1;
    }
    assert StopsAfter(table, current, step);
    RootIs(table, current, step);
    return current;
  }

  // ---- Child links ------------------------------------------------------------------------

  predicate IsChild(table: seq<Process>, parent: int, child: int) {
    exists p :: p in table && p.ppid == parent && p.pid == child
  }

  /** A path from a process down to a descendant. */
  predicate IsPath(table: seq<Process>, path: seq<int>) {
    path != [] && forall i :: 0 < i < |path| ==> IsChild(table, path[i - 1], path[i])
  }

  ghost predicate IsReachable(table: seq<Process>, root: int, pid: int) {
    exists path: seq<int> :: IsPath(table, path) && path[0] == root && path[|path| - 1] == pid
  }

  /** The children of a process, in table order. */
  function ChildrenOf(table: seq<Process>, pid: int): seq<int> {
    if table == [] then []
    else
      var last := table[|table| - 1];
      ChildrenOf(table[..|table| - 1], pid) + if last.ppid == pid then [last.pid] else []
  }

  lemma {:induction false} ChildrenAre(table: seq<Process>, pid: int, child: int)
    ensures child in ChildrenOf(table, pid) <==> IsChild(table, pid, child)
  {
    if table == [] {
    } else {
      var last := |table| - 1;
      ChildrenAre(table[..last], pid, child);
      assert table[last] in table;
      assert forall p :: p in table <==> p in table[..last] || p == table[last];
    }
  }

  lemma ReachMore(table: seq<Process>, root: int, pid: int, child: int)
    requires IsReachable(table, root, pid) && IsChild(table, pid, child)
    ensures IsReachable(table, root, child)
  {
    var path: seq<int> :| IsPath(table, path) && path[0] == root && path[|path| - 1] == pid;
    assert IsPath(table, path + [child]);
    assert (path + [child])[0] == root && (path + [child])[|path|] == child;
  }

  /** A set that contains the root and all children of its members contains everything reachable. */
  lemma {:induction false} ClosedContains(table: seq<Process>, members: set<int>, path: seq<int>)
    requires IsPath(table, path) && path[0] in members
    requires forall parent, child :: parent in members && IsChild(table, parent, child) ==> child in members
    ensures path[|path| - 1] in members
  {
    if |path| > 1 {
      var front := path[..|path| - 1];
      assert IsPath(table, front);
      ClosedContains(table, members, front);
      assert IsChild(table, path[|path| - 2], path[|path| - 1]);
    }
  }

  method ChildTable(table: seq<Process>) returns (children: map<int, seq<int>>)
    ensures forall pid :: (if pid in children then children[pid] else []) == ChildrenOf(table, pid)
  {
    children := map[];
    var i := 0;
    while i < |table|
      invariant 0 <= i <= |table|
      invariant forall pid :: (if pid in children then children[pid] else []) == ChildrenOf(table[..i], pid)
    {
      var p := table[i];
      assert table[..i + 1][..i] == table[..i];
      var siblings := if p.ppid in children then children[p.ppid] else [];
      children := children[p.ppid := siblings + [p.pid]];
      i := i + 1;
    }
    assert table[..i] == table;
  }

  /** What a worklist closure has found: nothing but descendants, and no way out but through the queue. */
  ghost predicate IsPartialClosure(table: seq<Process>, root: int, found: set<int>, queue: seq<int>) {
    && (root in found || root in queue)
    && (forall pid :: pid in found ==> IsReachable(table, root, pid))
    && (forall pid :: pid in queue ==> IsReachable(table, root, pid))
    && (forall pid, child :: pid in found && IsChild(table, pid, child) ==> child in found || child in queue)
  }

  lemma {:induction false} ClosureTakes(table: seq<Process>, root: int, found: set<int>, queue: seq<int>,
      rest: seq<int>)
    requires IsPartialClosure(table, root, found, queue) && queue != []
    requires var pid := queue[|queue| - 1];
      rest == queue[..|queue| - 1] + if pid in found then [] else ChildrenOf(table, pid)
    ensures IsPartialClosure(table, root, found + {queue[|queue| - 1]}, rest)
  {
    var pid := queue[|queue| - 1];
    var front := queue[..|queue| - 1];
    assert forall x :: x in queue <==> x in front || x == pid;
    forall x | x in rest ensures IsReachable(table, root, x) {
      if x !in front {
        ChildrenAre(table, pid, x);
        ReachMore(table, root, pid, x);
      }
    }
    forall x, child | x in found + {pid} && IsChild(table, x, child)
      ensures child in found + {pid} || child in rest
    {
      if x !in found { ChildrenAre(table, pid, child); }
    }
  }

  /**
   Every process of the current session: exactly those that are reachable by
   child links from its root.
   */
  method ProtectedPids(table: seq<Process>, current: int) returns (found: set<int>)
    requires WalkEnds(table, current)
    ensures forall pid :: pid in found <==> IsReachable(table, RootOf(table, current), pid)
  {
    var children := ChildTable(table);
    var start := ResolveRoot(table, current);
    found := {};
    var queue := [start];
    ghost var all := Pids(table) + {start};
    assert IsPath(table, [start]);
    while |queue| > 0
      invariant found <= all && forall pid :: pid in queue ==> pid in all
      invariant IsPartialClosure(table, start, found, queue)
      decreases all - found, |queue|
    {
      var pid := queue[|queue| - 1];
      ghost var before := queue;
      queue := queue[..|queue| - 1];
      if pid in found {
        ClosureTakes(table, start, found, before, queue);
        assert found + {pid} == found;
        continue;
      }
      queue := queue + if pid in children then children[pid] else [];
      forall x | x in ChildrenOf(table, pid) ensures x in all { ChildrenAre(table, pid, x); }
      ClosureTakes(table, start, found, before, queue);
      found := found + {pid};
    }
    forall pid | IsReachable(table, start, pid) ensures pid in found {
      var path: seq<int> :| IsPath(table, path) && path[0] == start && path[|path| - 1] == pid;
      ClosedContains(table, found, path);
    }
  }

  /** The walk from the current process up to the root, read downwards, is a path. */
  lemma {:induction false} WalkIsPath(table: seq<Process>, start: int, m: nat, n: nat) returns (path: seq<int>)
    requires m <= n && Walked(table, start, n).Some?
    ensures Walked(table, start, m).Some?
    ensures IsPath(table, path) && path[0] == Walked(table, start, n).value
    ensures path[|path| - 1] == Walked(table, start, m).value
    decreases n - m
  {
    WalkedBefore(table, start, m, n);
    if m == n {
      path := [Walked(table, start, n).value];
    } else {
      var front := WalkIsPath(table, start, m + 1, n);
      var pid := Walked(table, start, m).value;
      EntryIsInTable(table, pid);
      path := front + [pid];
      assert IsChild(table, Walked(table, start, m + 1).value, pid);
    }
  }

  lemma WalkReaches(table: seq<Process>, start: int, m: nat, n: nat)
    requires m <= n && Walked(table, start, n).Some?
    ensures Walked(table, start, m).Some?
    ensures IsReachable(table, Walked(table, start, n).value, Walked(table, start, m).value)
  {
    var path := WalkIsPath(table, start, m, n);
  }

  /** The current process and every process on its way up to the root are protected. */
  lemma AncestorsAreProtected(table: seq<Process>, current: int, n: nat, m: nat)
    requires StopsAfter(table, current, n) && m <= n
    ensures IsReachable(table, RootOf(table, current), current)
    ensures RootOf(table, current) != current ==>
      Walked(table, current, m).Some? && IsReachable(table, RootOf(table, current), Walked(table, current, m).value)
  {
    RootIs(table, current, n);
    WalkReaches(table, current, 0, n);
    WalkReaches(table, current, m, n);
    assert IsPath(table, [current]);
  }

  // ---- Candidates ------------------------------------------------------------------------------

  function CandidateOf(p: Process): Candidate {
    Candidate(p, if p.ppid <= 1 then OrphanedToInit else OutsideSession)
  }

  /** The server processes that are not protected, in table order. */
  function Unprotected(table: seq<Process>, current: int, found: set<int>): seq<Candidate> {
    if table == [] then []
    else
      var last := table[|table| - 1];
      Unprotected(table[..|table| - 1], current, found)
      + if last.pid == current || last.pid in found || !IsServer(last.command) then [] else [CandidateOf(last)]
  }

  lemma {:induction false} UnprotectedAre(table: seq<Process>, current: int, found: set<int>, c: Candidate)
    ensures c in Unprotected(table, current, found) <==>
      && c.process in table && c == CandidateOf(c.process)
      && c.process.pid != current && c.process.pid !in found && IsServer(c.process.command)
  {
    if table == [] {
    } else {
      var last := |table| - 1;
      UnprotectedAre(table[..last], current, found, c);
      assert table[last] in table;
      assert forall p :: p in table <==> p in table[..last] || p == table[last];
    }
  }

  /** Every entry that is listed is listed as often as the table has it. */
  lemma {:induction false} UnprotectedCount(table: seq<Process>, current: int, found: set<int>, p: Process)
    ensures multiset(Unprotected(table, current, found))[CandidateOf(p)] ==
      if p.pid == current || p.pid in found || !IsServer(p.command) then 0 else multiset(table)[p]
  {
    if table == [] {
    } else {
      var last := table[|table| - 1];
      UnprotectedCount(table[..|table| - 1], current, found, p);
      assert table == table[..|table| - 1] + [last];
      assert CandidateOf(last) == CandidateOf(p) <==> last == p;
    }
  }

  predicate IsSortedByPid(cs: seq<Candidate>) {
    forall i, j :: 0 <= i < j < |cs| ==> cs[i].process.pid <= cs[j].process.pid
  }

  /** Where a candidate goes in a sorted list. */
  function Inserted(cs: seq<Candidate>, c: Candidate): (r: seq<Candidate>)
    ensures multiset(r) == multiset(cs) + multiset{c}
  {
    if cs == [] || cs[|cs| - 1].process.pid <= c.process.pid then cs + [c]
    else
      assert cs == cs[..|cs| - 1] + [cs[|cs| - 1]];
      Inserted(cs[..|cs| - 1], c) + [cs[|cs| - 1]]
  }

  lemma {:induction false} InsertedIsSorted(cs: seq<Candidate>, c: Candidate)
    requires IsSortedByPid(cs)
    ensures IsSortedByPid(Inserted(cs, c))
    ensures forall x :: x in Inserted(cs, c) ==> x in cs || x == c
  {
    if cs == [] || cs[|cs| - 1].process.pid <= c.process.pid {
    } else {
      var front, last := cs[..|cs| - 1], cs[|cs| - 1];
      var r := Inserted(front, c);
      InsertedIsSorted(front, c);
      forall i | 0 <= i < |r| ensures r[i].process.pid <= last.process.pid {
        assert r[i] in r;
        if r[i] != c { var k :| 0 <= k < |front| && front[k] == r[i]; }
      }
    }
  }

  method CollectCandidates(table: seq<Process>, current: int, found: set<int>) returns (candidates: seq<Candidate>)
    ensures IsSortedByPid(candidates)
    ensures multiset(candidates) == multiset(Unprotected(table, current, found))
  {
    candidates := [];
    var i := 0;
    while i < |table|
      invariant 0 <= i <= |table| && IsSortedByPid(candidates)
      invariant multiset(candidates) == multiset(Unprotected(table[..i], current, found))
    {
      assert table[..i + 1][..i] == table[..i];
      var p := table[i];
      if p.pid != current && p.pid !in found && IsServer(p.command) {
        InsertedIsSorted(candidates, CandidateOf(p));
        candidates := Inserted(candidates, CandidateOf(p));
      }
      i := i + 1;
    }
    assert table[..i] == table;
  }

  lemma SameMembers<T>(a: seq<T>, b: seq<T>)
    requires multiset(a) == multiset(b)
    ensures forall x :: x in a <==> x in b
  {
    assert forall x :: x in a <==> x in multiset(a);
    assert forall x :: x in b <==> x in multiset(b);
  }

  /** The process is a server that does not descend from the root, and not the current process either. */
  ghost predicate IsLeftOver(table: seq<Process>, current: int, root: int, p: Process) {
    IsServer(p.command) && p.pid != current && !IsReachable(table, root, p.pid)
  }

  /**
   The processes to clean up, by ascending pid: exactly the server processes
   of the table that are outside the current session.  The session is what
   descends from the first session process on the way up from the current
   process; where there is none, it is the current process and what descends
   from that.
   */
  method FindCandidates(table: seq<Process>, current: int) returns (candidates: seq<Candidate>)
    requires WalkEnds(table, current)
    ensures IsSortedByPid(candidates)
    ensures forall p :: CandidateOf(p) in candidates <==>
      p in table && IsServer(p.command) && !IsReachable(table, RootOf(table, current), p.pid)
    ensures forall c :: c in candidates ==>
      c == CandidateOf(c.process) && (c.reason == OrphanedToInit <==> c.process.ppid <= 1)
    ensures (forall n: nat :: !MeetsSession(table, current, n)) ==>
      forall p :: multiset(candidates)[CandidateOf(p)]
        == if IsLeftOver(table, current, current, p) then multiset(table)[p] else 0
    ensures forall n: nat :: MeetsSession(table, current, n) ==>
      forall p :: multiset(candidates)[CandidateOf(p)]
        == if IsLeftOver(table, current, Walked(table, current, n).value, p) then multiset(table)[p] else 0
  {
    var found := ProtectedPids(table, current);
    candidates := CollectCandidates(table, current, found);
    SameMembers(candidates, Unprotected(table, current, found));
    ghost var stop: nat :| StopsAfter(table, current, stop);
    AncestorsAreProtected(table, current, stop, 0);
    forall c: Candidate
      ensures c in candidates <==>
        && c.process in table && c == CandidateOf(c.process)
        && c.process.pid != current && c.process.pid !in found && IsServer(c.process.command)
    {
      UnprotectedAre(table, current, found, c);
    }
    forall p: Process
      ensures multiset(candidates)[CandidateOf(p)]
           == if IsLeftOver(table, current, RootOf(table, current), p) then multiset(table)[p] else 0
    {
      UnprotectedCount(table, current, found, p);
    }
    RootExactly(table, current);
  }

  // ---- What commands say -------------------------------------------------------------------

  lemma PartIsFound(a: string, m: string, b: string)
    ensures Contains(a + m + b, m)
  {
    assert StandsAt(a + m + b, m, |a|);
    FirstIsIndex(a + m + b, m, |a|);
  }

  lemma SlashesOf(a: string, m: string, m': string, b: string)
    requires '\\' !in a && '\\' !in b && |m'| == |m|
    requires forall k :: 0 <= k < |m| ==> m'[k] == if m[k] == '\\' then '/' else m[k]
    ensures WithSlashes(a + m + b) == a + m' + b
  {
  }

  /** The servers are told by their path, with either kind of slash, and sessions by their name. */
  lemma CommandsAreTold(a: string, b: string)
    requires '\\' !in a && '\\' !in b
    ensures IsServer(a + "/dist/mcp/" + b) && IsServer(a + "nana/dist/mcp" + b)
    ensures IsServer(a + "\\dist\\mcp\\" + b) && IsServer(a + "nana\\dist\\mcp" + b)
    ensures IsSession(a + "codex" + b)
  {
    PartIsFound(a, "/dist/mcp/", b);
    PartIsFound(a, "nana/dist/mcp", b);
    PartIsFound(a, "codex", b);
    SlashesOf(a, "/dist/mcp/", "/dist/mcp/", b);
    SlashesOf(a, "nana/dist/mcp", "nana/dist/mcp", b);
    SlashesOf(a, "\\dist\\mcp\\", "/dist/mcp/", b);
    SlashesOf(a, "nana\\dist\\mcp", "nana/dist/mcp", b);
    SlashesOf(a, "codex", "codex", b);
  }

  lemma LetterIsThere(s: string, m: string, k: nat)
    requires Contains(WithSlashes(s), m) && k < |m| && m[k] != '/'
    ensures m[k] in s
  {
    var told := WithSlashes(s);
    FirstIsIndex(told, m, Index(told, m));
    assert told[Index(told, m) + k] == m[k];
    assert s[Index(told, m) + k] == m[k];
  }

  /** A command without the letter `m` is no server, and one without `x` is no session. */
  lemma OthersAreTold(command: string)
    ensures 'm' !in command ==> !IsServer(command)
    ensures 'x' !in command ==> !IsSession(command)
  {
    if Contains(WithSlashes(command), "nana/dist/mcp") { LetterIsThere(command, "nana/dist/mcp", 10); }
    if Contains(WithSlashes(command), "/dist/mcp/") { LetterIsThere(command, "/dist/mcp/", 6); }
    if Contains(WithSlashes(command), "codex") { LetterIsThere(command, "codex", 4); }
    if Contains(WithSlashes(command), "@openai/codex") { LetterIsThere(command, "@openai/codex", 12); }
  }
}
