# Verification of NANA's stateful cores

This project models the parts of the NANA repository whose correctness depends on
state that lives longer than one call, and proves what each of them promises:

* the **runtime engine** of `nana-runtime`, which turns commands into events, keeps
  eight files in step with its state, and appends to its event log in place;
* the **balancer of managed accounts**, which merges usage samples, queues and makes
  switches between accounts, and reacts to rate limits, together with the account
  commands that edit the same two files;
* the **life of findings**: syncing scout reports, promotion, dismissal, restoring,
  and the retention passes that mark and purge;
* the **cleanup of processes** left over from earlier sessions;
* the **rewriting of text between markers** in documentation and guidance files;
* the **review rules** that scans propose and people move between four buckets;
* the **approval** in front of a merge.

`dafny verify dfyconfig.toml` checks everything.

## How it is built

Code of the repository that changes things step by step is a class or a method with
loops. Each such method is proved against a function of the inputs or the old state, and
what the repository promises is proved about those functions. The modules whose names end in `Laws`
say what the functions do without using them: on the fields, in plain numbers, and over whole runs.

| part | values and functions | laws | methods |
|---|---|---|---|
| event log in bytes | `JsonArrayText` | `JsonArrayEnd`, `JsonArrayAppend` | `JsonArrayAppend`, `RuntimeDirectory` |
| runtime engine | `RuntimeState` | `RuntimeReplay`, `RuntimeLaws` | `RuntimeEngine`, `RuntimeProcess` |
| balancer | `Accounts`, `UsageSamples`, `Balancer` | `BalancerChoice`, `BalancerLaws`, `BalancerRuns`, `BalancerSwitches`, `BalancerWorld`, `BalancerStale` | `BalancerManager`, `UsageSamples` |
| accounts | `AccountNames`, `AccountCommands` | the same, `AccountEffects`, `AccountLaws` | `AccountNames`, `AccountStore` |
| findings | `Findings`, `Retention` | `FindingsSync`, `FindingsSettled`, `FindingsCounts`, `FindingsRuns`, `FindingsItems`, `FindingsLaws`, `Retention`, `RetentionLaws` | `FindingsStore` |
| cleanup | `Cleanup` | `Cleanup` | `Cleanup` |
| marked text | `Text`, `MarkedText` | `InstallDocs`, `ManualNotes` | `InstallDocs` |
| review rules | `ReviewRules` | `ReviewRuleLaws` | `ReviewRuleCommands` |
| approval | `Approval` | `Approval` | `Approval` |

`Wrappers` and `Sets` hold the result types and one fact about finite sets.

## The main results

**Replay.** Over every run of commands and compactions, with repeated and empty request
ids, the log that is left rebuilds the lease, the cursor, the mailbox and, in order, every
dispatch record whose id is empty or has no finished record. The proof needs that only the
first record with an id ever takes a mark, so that a finished request takes no further one,
and that filtering a log by request ids commutes with replaying it.

**Leases.** Over every run the owner of the lease is that of the first acquisition, for ever, and the
lease is that of the last acquisition or renewal that was not refused; a renewal in front of the first
acquisition is.

**Files.** A file whose flag is clean and which exists holds its view of the state; every
command keeps this. So running any sequence of `init` and `exec` processes on an empty directory
leaves all eight files showing the state that the commands lead to, once one of them has written,
and loading them gives that state and log back.

**Append in place.** Whatever white space a JSON array of objects uses, after an append the
bytes are such an array with one element more. The reader that says so follows RFC 8259,
sections 2 and 5. The backward scan gives the same answer for every chunk size.

**Two files, two writers.** Over every sequence of launches, ticks, rate limits and account commands
registry and state stay consistent, also while commands run behind a running balancer, as long as
none takes from it an account that it may still use. Importing, activating and enabling never do.

**Choice.** The least-used search answers with the unique least candidate of a strict total
order, whatever the order of the scan: no other candidate has a smaller larger percentage, and ties
go to the five-hour window, the weekly one, the active account, the preferred one, and the order of
the registry. A launch picks a fresh account whenever there is one.

**Switching.** While every usage check fails, the most that a balancer can switch within one poll
interval is given exactly, for every state: the other enabled accounts that can still be used in it,
and the active one once more when its retry time is an old one.

**Syncing.** Syncing an unchanged report with a time and without contradictions changes something
at most three times and then never again: every reported finding is then alive or set aside by the
user, and every other finding of the source is closed. A resolved finding that is reported again is open,
or promoted with a planned item when the report promotes.

**Promotion.** Over every run of syncs, promotions, dismissals, restores, retention passes and
changes to planned items no finding ever has two items at a time, and syncs make at most one item
for a finding, whatever happens to it.

**Protection.** The protected processes are exactly those reachable from the session's root,
and the walk to that root ends exactly when it meets no process twice. Where it meets no session, the
root is the current process.

**Documents.** After a sync of files with both blocks each block shows its own lines and every other
character is as it was; a check lists exactly the files in which some block does not.

## What the proofs found

* **Commands behind a running balancer.** A running balancer keeps its own copy of the
  registry and writes only the state. If a command disables an account meanwhile, a rate limit
  can make that account active. `BalancerStale.StaleRegistryExactly` gives the exact condition under
  which the files stay sound: there is no active account, or the active account is enabled in the
  file and every other one that is enabled in the copy is enabled there or was removed, credentials
  and all. `BalancerStale.StaleRegistryIsReached` is a run of five steps that ends in the bad state,
  for any two names.
* **One switch more.** A poll interval need not have fewer switches than there are enabled accounts.
  `BalancerSwitches.FewerThanEnabledExactly` says when it has, for every state: unless all other
  accounts can be used, and the active one has a retry time from before and can be used again after
  one of them. `BalancerSwitches.RetryTimesDecide` says it by the retry times alone.
* **Second items.** A user can drop a planned item that was not launched. A promotion then makes
  another item for the same finding; a sync never does (`FindingsItems.SecondItem`,
  `FindingsItems.RunsPromoteOnce`).
* **Dismissed findings.** A user can promote a dismissed finding. `FindingsRuns.ReopensExactly` lists
  all that takes a finding out of being dismissed or deleted; no sync does.
* **Contradicting proposals.** A report that names one item twice with different contents
  changes something at every sync. Because missing findings are only looked for when nothing
  changed (`updated || mark…`), they are then never resolved.
* **Reports without a time.** A report without a time has that of the planned item it came from,
  and without that the current time. In the last case every sync from the second on updates every
  reported finding that is not deleted and, in the same way, never resolves a missing one.
  `FindingsSettled.SettlesFromExactly` says for all reports and states which ones settle.
* **Three syncs.** A report settles after two syncs that change something, unless it promotes an item
  that it names once while another finding is missing (`FindingsCounts.TwiceExactly`).
* **Circular parents.** Two processes that name each other as parent keep the walk to the root
  going for ever (`Cleanup.MutualParentsNeverEnd`).
* **Markers in replacements.** Replacing a block twice equals replacing it once exactly when the
  new lines do not hold the end marker. `ManualNotes.NotesAreKeptExactly` says for all generated
  bodies and all notes when notes written by hand are read back as they were written.
* **Shared review ids.** What counts as a reviewer's last review depends on the order of the list
  exactly when two different reviews of that reviewer share the highest id
  (`Approval.LatestIsFreeExactly`), and `Approval.AnswerIsFreeExactly` says when the answer does.

## Model

The main results stand first; then come the lemmas and methods they rest on, part by part. Methods
of one or two steps, whose contract is their specification, and lemmas that only serve one other
have no row of their own.

| member | source | states |
|---|---|---|
| `RuntimeReplay.ReplayRestoresState` | cmd/nana-runtime/main.go:899-986 | After every run, replaying the log at any times gives back lease, cursor, mailbox and, in order, every record whose id is empty or unfinished, up to timestamps |
| `RuntimeReplay.EveryRunRebuilds` | cmd/nana-runtime/main.go:312-458 | Every run of commands and compactions leaves a log that rebuilds the state, apart from finished requests |
| `RuntimeReplay.CompactionCommutesWithReplay` | cmd/nana-runtime/main.go:744-766 | Rebuilding from a filtered log is filtering what the full log rebuilds |
| `RuntimeReplay.FinishedTakesNoMark` | cmd/nana-runtime/main.go:542-593 | A request that has a delivered or failed record takes no further mark, even when its id was queued again |
| `RuntimeReplay.ReplayRestoresAll` | cmd/nana-runtime/main.go:899-986 | Without compactions replay gives back every record, up to timestamps |
| `RuntimeLaws.OwnerIsFirst` | cmd/nana-runtime/main.go:503-527 | Over every run the owner, once there is one, is that of the first acquisition, for ever |
| `RuntimeLaws.LeaseIsLast` | cmd/nana-runtime/main.go:503-527 | Over every run owner, lease id and deadline are those of the last acquisition or renewal that was not refused |
| `RuntimeLaws.RequestsAreKept` | cmd/nana-runtime/main.go:529-593 | Over every run the dispatch records are the queued requests, in order, each once, and the stamps of each agree with how far it came |
| `RuntimeLaws.MessagesAreKept` | cmd/nana-runtime/main.go:595-638 | Over every run the mailbox holds the messages written, in order, and the cursor is the last one asked for |
| `RuntimeProcess.RunProcesses` | cmd/nana-runtime/main.go:208-255 | Running any sequence of `init` and `exec` processes on an empty directory: once one was an `init` or was not refused, all eight files show the state the commands lead to, and the log rebuilds it apart from finished requests; before that no file exists |
| `RuntimeProcess.RunAndLoad` | cmd/nana-runtime/main.go:847-897 | After any sequence of processes, loading gives back exactly the state and log the commands lead to; it fails exactly when no process has written |
| `RuntimeProcess.Exec` | cmd/nana-runtime/main.go:208-240 | A refused command leaves every file as it was; any other leaves all eight files showing the next state |
| `JsonArrayAppend.AppendExtendsArray` | cmd/nana-runtime/main.go:996-1027 | After an append in place the file reads as the same elements followed by the new one, for every white space variant, the empty file and the empty array; the bytes in front of the closing bracket stay |
| `JsonArrayAppend.FindAppendPosition` | cmd/nana-runtime/main.go:1029-1056 | For every chunk size: the position of the last significant byte when it is `]`, and whether the array is empty; a failure otherwise |
| `BalancerWorld.FilesStaySound` | internal/gocli/auth_runtime.go:125-465 | Over every sequence of launches, ticks, rate limits and commands the files stay sound, also while commands run behind a running balancer, as long as none takes from it an account it may still use |
| `BalancerStale.StaleRegistryExactly` | internal/gocli/auth_runtime.go:175-503 | After an edit of the registry file everything a running balancer can write stays consistent with the file exactly when it has no active account, or the active account is enabled in the file and every other one enabled in its copy is enabled there or no longer registered |
| `BalancerStale.StaleRegistryIsReached` | internal/gocli/auth_runtime.go:125-503 | For all settings and any two names: import both, launch on the first, disable the second behind it, hit a rate limit; the state file then names a disabled account as active |
| `BalancerWorld.MoreIsAllowed` | internal/gocli/auth.go:466-816 | Importing, activating and enabling behind a running balancer are always allowed |
| `BalancerWorld.DisablingIsAllowedExactly` | internal/gocli/auth.go:818-860 | Disabling an enabled account behind a running balancer is allowed exactly when its copy does not have the account enabled |
| `BalancerWorld.RemovingIsAllowedExactly` | internal/gocli/auth.go:862-910 | Removing a registered account behind a running balancer is allowed exactly when it is not the balancer's active one |
| `AccountCommands.CommandsAreSound` | internal/gocli/auth.go:466-942 | Every command, wherever it fails, leaves restart-required exactly with a pending account, which is enabled and not the active one, and an enabled active account |
| `AccountEffects.DisableIs` | internal/gocli/auth.go:818-860 | Disabling switches off that account only and moves on to an enabled one when it was active; it is refused exactly when it is active and no other is enabled, or the copy fails, and then changes nothing; a name that is unknown or disabled already changes nothing either |
| `AccountLaws.ActivateExactly` | internal/gocli/auth.go:753-791 | An activation switches on, prefers, moves to the front and puts in use that account only; when the copy fails the state is as it was |
| `AccountLaws.ImportExactly` | internal/gocli/auth.go:466-540 | What an import registers, whom it prefers and whom it puts in use, and each case in which it fails |
| `AccountLaws.RemoveExactly` | internal/gocli/auth.go:862-910 | Nothing about a removed account is left in either file, and the preferred account is activated exactly when no active one is left |
| `BalancerChoice.LeastUsedIsBest` | internal/gocli/auth_runtime.go:482-503 | "" exactly when there is no candidate; otherwise the one candidate better than all others |
| `BalancerLaws.LeastUsedExactly` | internal/gocli/auth_runtime.go:482-581 | On the recorded percentages: no candidate has a smaller larger percentage, then five-hour, then weekly one, a blank counting as more than 100; among equals the active account, else the preferred one, else the first in order |
| `BalancerLaws.LaunchExactly` | internal/gocli/auth_runtime.go:125-154 | Which account a launch leaves active: a pending fresh one; by usage the least used fresh one, else the preferred, the active, the first fresh one; without any a usable active one, the enabled preferred one |
| `BalancerLaws.QueuedExactly` | internal/gocli/auth_runtime.go:213-251 | A switch away is queued exactly when the active account is at a limit, was in use long enough, and another one is fresh; a switch back exactly when the preferred one is fresh again and the active one was in use long enough |
| `BalancerLaws.LimitExactly` | internal/gocli/auth_runtime.go:405-446 | A rate limit lets the active account rest and puts the fallback in use exactly when there is one; what it writes about each account |
| `BalancerRuns.LaunchPicksFresh` | internal/gocli/auth_runtime.go:125-154 | After a successful launch, if any account is fresh-eligible then the active one is, nothing is pending and the balancer is not degraded |
| `BalancerRuns.SwitchesAreBounded` | internal/gocli/auth_runtime.go:405-465 | While no sample succeeds, whatever checks are made, a poll interval has fewer switches than enabled accounts when the active one is settled, and no more than those otherwise |
| `BalancerSwitches.MostSwitchesExactly` | internal/gocli/auth_runtime.go:156-465 | For every state: the most that any run of evaluations within a poll interval switches, each with one failing check for every account, is the number of accounts that can still be used in it, one more when the active account has an old retry time and can be used again after another one |
| `BalancerSwitches.FewerThanEnabledExactly` | internal/gocli/auth_runtime.go:156-465 | For every state: every such run switches fewer times than there are enabled accounts exactly unless all others can be used and the active one comes back |
| `BalancerSwitches.RetryTimesDecide` | internal/gocli/auth_runtime.go:156-465 | Over all states with the same retry times: exactly when the active account is settled, another enabled one rests, or there is no other |
| `BalancerSwitches.OldRetryTimeSwitchesBack` | internal/gocli/auth_runtime.go:156-465 | Outside the cases of `RetryTimesDecide` some state and some run with one failing check for each account make a switch for every enabled account |
| `FindingsSettled.SettlesExactly` | internal/gocli/findings.go:459-515 | A report settles from every state exactly when nothing is reported, or the report carries a time and no two of its proposals contradict each other |
| `FindingsSettled.SettlesFromExactly` | internal/gocli/findings.go:459-515 | From a given state a report settles exactly when no two of its proposals contradict each other, and it carries a time or all that it reports was deleted |
| `FindingsSettled.SyncSettles` | internal/gocli/findings.go:459-515 | Re-syncing an unchanged report that can settle changes something at most three times, and never again once a sync changed nothing |
| `FindingsSettled.ContradictionNeverSettles` | internal/gocli/findings.go:459-515 | A report that contradicts itself, timed or not, changes something at every sync from every state, and missing findings are never looked for |
| `FindingsSettled.UntimedNeverSettles` | internal/gocli/findings.go:474-515 | A report without a time that reports something not deleted changes something at every sync from the second on, from every state |
| `FindingsCounts.TwiceExactly` | internal/gocli/findings.go:459-515 | A timed report without contradictions changes something at most twice, from every state, exactly when it does not promote an item that it names once |
| `FindingsItems.RunsPromoteOnce` | internal/gocli/findings.go:706-762 | Over every run, with items that users queue and drop: no finding ever has two items at a time, and syncs make at most one item for a finding, its first |
| `FindingsRuns.PromoteExactly` | internal/gocli/findings.go:721-762 | A promotion of a finding that is not deleted makes one new item, and the finding names it, exactly when the finding names none or its item was dropped; otherwise nothing changes |
| `FindingsItems.SecondItem` | internal/gocli/findings.go:730-755 | After any run: a finding whose item can be dropped gets a second one when it is dropped and the finding promoted again |
| `FindingsRuns.RunsAreSound` | internal/gocli/findings.go:281-810 | Over every run of syncs, imports, promotions, dismissals, restores, retention passes and changes to planned items no two findings share a key, and no two ever name the same item |
| `FindingsRuns.ReopensExactly` | internal/gocli/findings.go:281-810 | A finding that is dismissed or deleted stays so, under every step, except exactly when a dismissed one is promoted, a deleted one is restored to another status, or it is purged |
| `FindingsLaws.SyncExactly` | internal/gocli/findings.go:459-515 | After a sync a reported finding that was resolved is open, or promoted with its own planned item when the report promotes; every other status stays, and a new finding is open |
| `FindingsLaws.TitledExactly` | internal/gocli/findings.go:477-509 | Entries without a title or a summary do not count: syncing the others alone does the same |
| `FindingsLaws.RunsAreHonest` | internal/gocli/findings.go:281-810 | Over every run a promoted finding names an item, and the times of resolution and deletion agree with the status |
| `Retention.GoneExactly` | internal/gocli/dismissed_retention.go:177-230 | It is gone exactly when one pass found it due and a later one found that mark old enough |
| `Retention.PurgedOnlyAfterWaits` | internal/gocli/dismissed_retention.go:177-230 | It is purged only later than both waiting times after the timestamp it carries, less one second |
| `RetentionLaws.AgesExactly` | internal/gocli/dismissed_retention.go:69-230 | In numbers: a pass marks exactly the dismissed findings and purges exactly the deleted ones that stood for the days set (30 when unset or negative, 3650 at most, never with 0); every other finding stays as it is |
| `RetentionLaws.JobGoneExactly` | internal/gocli/dismissed_retention.go:177-230 | A dismissed scout job is gone exactly when one pass found it due and a later one found that mark old enough |
| `Cleanup.FindCandidates` | internal/gocli/cleanup.go:209-224 | By ascending pid, each as often as in the table: where the walk meets a session, exactly the servers that do not descend from that; where it meets none, exactly those that are not the current process and do not descend from it; orphaned exactly with a parent of 1 or below |
| `Cleanup.WalkEndsExactly` | internal/gocli/cleanup.go:168-187 | The walk ends exactly when it does not come back to a process it has been at |
| `InstallDocs.ReplaceTwiceExactly` | cmd/nana-release-helper/main.go:505-518 | Replacing a block twice is replacing it once exactly when the new lines do not hold the end marker |
| `InstallDocs.SyncBothTwice` | cmd/nana-release-helper/main.go:466-478 | Syncing two blocks that stand apart, with lines free of markers, twice is syncing them once |
| `InstallDocs.OutsideStays` | cmd/nana-release-helper/main.go:466-478 | Syncing two blocks in either order exchanges the text between their markers, and the text in front, between and behind stays |
| `InstallDocs.SyncedShows` | cmd/nana-release-helper/main.go:466-518 | Syncing a clean file exchanges the text of its blocks, both when it has both, and nothing else; then every block shows its lines |
| `ManualNotes.NotesSurvive` | internal/gocli/agents_init.go:292-359 | Notes in a file survive every sequence of runs with any marker-free bodies and any flags |
| `ManualNotes.NotesAreKeptExactly` | internal/gocli/agents_init.go:292-310 | Exactly when notes are kept, for all bodies and notes: without a start marker in the body when they are blank or neither body nor notes hold the end marker; with one when the body holds both markers and the same notes between them |
| `ManualNotes.WritesExactly` | internal/gocli/agents_init.go:308-359 | When a run writes the file, what text it writes, and what it answers, for every file and every kind of run |
| `ReviewRuleLaws.DecidedStays` | internal/gocli/github_defaults.go:2358-2399 | Over every sequence a rule that was approved, disabled or archived is never lost and never proposed again |
| `ReviewRuleLaws.LastActionWins` | internal/gocli/github_defaults.go:2443-2483 | Of two commands for the same rules only the last one counts, order within the buckets included |
| `ReviewRuleLaws.MovesExactly` | internal/gocli/github_defaults.go:2443-2483 | Exactly the selected rules move to the target bucket, stamped; all others stay where and as they are |
| `ReviewRuleLaws.LastNamedDecides` | internal/gocli/github_defaults.go:1095-1171 | Over every sequence of steps a rule stands in the bucket of the last command that names it: enabled ones with the approved, disabled with the disabled, archived with the archived |
| `Approval.EnsureMerge` | internal/gocli/github_publisher.go:453-485 | The service is asked to merge exactly when every gate is open, and for every gate exactly when it is the answer |
| `Approval.LatestIsApproved` | internal/gocli/github_publisher.go:653-681 | Where each eligible reviewer has one last word: approved exactly when one of these approves and none requests changes |
| `Approval.LatestIsFreeExactly` | internal/gocli/github_publisher.go:657-667 | What the fold picks for a reviewer is the same for every order of the reviews exactly when the reviewer has one last word |
| `Approval.AnswerIsFreeExactly` | internal/gocli/github_publisher.go:653-681 | The answer is the same for every order of the reviews exactly when it is sure or impossible |
| `JsonArrayEnd.ArrayEndsInBracket` | cmd/nana-runtime/main.go:1029-1056 | What reads as a JSON array of objects ends in `]` up to white space, so the backward scan never fails on a good log |
| `JsonArrayAppend.LooksEmptyIsEmpty` | cmd/nana-runtime/main.go:1029-1056 | Looking at the significant byte in front of the last `]` tells exactly whether the array has no element |
| `JsonArrayAppend.RenderedReads` | cmd/nana-runtime/main.go:988-994 | A full rewrite of a list of objects reads back as that list |
| `JsonArrayAppend.ScanChunk` | cmd/nana-runtime/main.go:1037-1052 | A chunk read into the buffer continues the scan as if the file were read in one go |
| `RuntimeDirectory.RenderedLog` | cmd/nana-runtime/main.go:988-994 | Rewriting `events.json` and reading it back gives the same events |
| `RuntimeDirectory.AppendedLog` | cmd/nana-runtime/main.go:996-1027 | Appending to `events.json` and reading it back gives the old events followed by the new one |
| `RuntimeDirectory.StateDirectory.AppendEventText` | cmd/nana-runtime/main.go:996-1027 | The bytes of `events.json` after an append, which creates the file when it is missing and fails exactly when no closing bracket is found |
| `RuntimeDirectory.StateDirectory.AppendEvent` | cmd/nana-runtime/main.go:996-1027 | A log that can be read ends in the appended event |
| `RuntimeDirectory.BacklogCountsAll` | cmd/nana-runtime/main.go:661-676 | The four numbers of the backlog add up to the number of dispatch records |
| `RuntimeReplay.MarkFirstIs` | cmd/nana-runtime/main.go:542-593 | A mark changes one record, the first with the request id, and only from a status that allows it |
| `RuntimeReplay.ApplyUntimed` | cmd/nana-runtime/main.go:312-458 | No command's success depends on a timestamp's value |
| `RuntimeReplay.ReplayUntimed` | cmd/nana-runtime/main.go:939-986 | Replaying at another time gives the same state but for timestamps |
| `RuntimeReplay.ApplyIsReplay` | cmd/nana-runtime/main.go:939-986 | Replaying the event a command left does what the command did; a renewal replayed as an acquisition never fails |
| `RuntimeReplay.DoKeepsLogRebuilds` | cmd/nana-runtime/main.go:312-458 | Every command keeps the log sufficient to rebuild the state |
| `RuntimeReplay.CompactKeepsLogRebuilds` | cmd/nana-runtime/main.go:744-766 | So does a compaction, which drops finished requests from what is rebuilt and nothing else |
| `RuntimeLaws.LeaseExactly` | cmd/nana-runtime/main.go:503-527 | With an owner exactly the owner's acquisitions and renewals succeed, without one every acquisition and no renewal; what the lease becomes, and why it is refused |
| `RuntimeLaws.NoLeaseYet` | cmd/nana-runtime/main.go:503-527 | A run without an acquisition leaves no lease |
| `RuntimeLaws.NotifiedExactly` | cmd/nana-runtime/main.go:542-555 | A notification moves the first record with the id, from pending only |
| `RuntimeLaws.DeliveredExactly` | cmd/nana-runtime/main.go:557-569 | A delivery moves it from notified only |
| `RuntimeLaws.FailedExactly` | cmd/nana-runtime/main.go:571-584 | A failure moves it from pending or notified |
| `RuntimeLaws.UnknownExactly` | cmd/nana-runtime/main.go:542-593 | A request takes no mark as unknown exactly when no record has its id |
| `RuntimeLaws.MessagesExactly` | cmd/nana-runtime/main.go:605-638 | A mark stamps the first message with the id unless it was delivered |
| `RuntimeLaws.BacklogExactly` | cmd/nana-runtime/main.go:661-676 | The backlog has for every status the number of records with it |
| `RuntimeLaws.ReadyExactly` | cmd/nana-runtime/main.go:678-693 | Over every run the engine is ready exactly when the lease was acquired |
| `RuntimeLaws.CompactsExactly` | cmd/nana-runtime/main.go:744-766 | A compaction drops exactly the events of requests with an id that were delivered or failed, and keeps the order of the others |
| `RuntimeEngine.FlagsKeepCurrent` | cmd/nana-runtime/main.go:482-501 | A command that flags every view it changes keeps unflagged files equal to their views |
| `RuntimeEngine.WrittenShows` | cmd/nana-runtime/main.go:768-830 | Writing only flagged or missing files then leaves all of them equal to their views |
| `RuntimeEngine.RuntimeEngine.Acquire` | cmd/nana-runtime/main.go:503-513 | Acquires a free lease or one's own; refuses another owner's and leaves the lease as it was |
| `RuntimeEngine.RuntimeEngine.Renew` | cmd/nana-runtime/main.go:515-527 | Renews one's own lease; refuses otherwise and leaves the lease as it was |
| `RuntimeEngine.RuntimeEngine.MarkNotified` | cmd/nana-runtime/main.go:542-555 | Marks the first record with the id, if it is pending |
| `RuntimeEngine.RuntimeEngine.MarkDelivered` | cmd/nana-runtime/main.go:557-569 | Marks the first record with the id, if it was notified |
| `RuntimeEngine.RuntimeEngine.MarkFailed` | cmd/nana-runtime/main.go:571-584 | Marks the first record with the id, if its status allows it |
| `RuntimeEngine.RuntimeEngine.MarkMailboxNotified` | cmd/nana-runtime/main.go:605-616 | Stamps the first message with the id unless it was delivered |
| `RuntimeEngine.RuntimeEngine.MarkMailboxDelivered` | cmd/nana-runtime/main.go:618-629 | Stamps the first message with the id unless it was delivered |
| `RuntimeEngine.RuntimeEngine.Perform` | cmd/nana-runtime/main.go:312-458 | Each command changes the state as specified or refuses and changes nothing, and flags every view it changes |
| `RuntimeEngine.RuntimeEngine.ProcessCommand` | cmd/nana-runtime/main.go:312-480 | A refused command changes nothing; any other leaves exactly one event, and dirty events with an unloaded log always mean pending events |
| `RuntimeEngine.RuntimeEngine.Compact` | cmd/nana-runtime/main.go:744-766 | Drops from a loaded log the events of finished requests with an id, and touches nothing otherwise |
| `RuntimeEngine.RuntimeEngine.DispatchBacklog` | cmd/nana-runtime/main.go:661-676 | Counts the records by status |
| `RuntimeEngine.RuntimeEngine.PersistEventLog` | cmd/nana-runtime/main.go:832-845 | Full rewrite and append leave the same log for the same events |
| `RuntimeEngine.RuntimeEngine.AppendPending` | cmd/nana-runtime/main.go:838-843 | The pending events stand at the end of the file's log, in order |
| `RuntimeEngine.RuntimeEngine.PersistEvents` | cmd/nana-runtime/main.go:782-789 | An existing log is extended or replaced by the log in memory, never emptied; a clean existing file is not touched |
| `RuntimeEngine.RuntimeEngine.Persist` | cmd/nana-runtime/main.go:768-791 | Writes snapshot and event log where flagged or missing, and clears the two flags |
| `RuntimeEngine.RuntimeEngine.WriteCompatibilityView` | cmd/nana-runtime/main.go:793-830 | Writes each of the six other files where flagged or missing and clears their flags |
| `RuntimeProcess.ReplayEvent` | cmd/nana-runtime/main.go:939-986 | Replays one event in place; one that is refused changes nothing |
| `RuntimeProcess.ReplayAll` | cmd/nana-runtime/main.go:899-917 | Replays a whole log in place |
| `RuntimeProcess.LoadFromEvents` | cmd/nana-runtime/main.go:899-929 | Loads from `events.json` alone, exactly when it exists and can be read |
| `RuntimeProcess.Load` | cmd/nana-runtime/main.go:847-897 | Loads exactly the state in the snapshot files when all three exist, from the events otherwise |
| `RuntimeProcess.Process` | cmd/nana-runtime/main.go:224-230 | The command and, if asked for, the compaction |
| `RuntimeProcess.WriteBack` | cmd/nana-runtime/main.go:231-238 | After writing, all eight files show the state and the log |
| `RuntimeProcess.LoadOrFresh` | cmd/nana-runtime/main.go:214-223 | The engine an `exec` process starts with stands where the directory stands |
| `RuntimeProcess.Init` | cmd/nana-runtime/main.go:241-255 | `init` writes each of the eight files that is missing as it shows the initial state, and touches no file that exists |
| `RuntimeProcess.FilledInHolds` | cmd/nana-runtime/main.go:241-255 | After `init` an empty directory shows the initial state, and one that shows a state is as it was |
| `RuntimeProcess.CallsAreSteps` | cmd/nana-runtime/main.go:208-255 | A sequence of `init` and `exec` processes amounts to a run of commands and compactions |
| `RuntimeProcess.RunProcess` | cmd/nana-runtime/main.go:208-255 | One process takes a directory that holds a state and its log to the next; it writes unless it is refused |
| `AccountNames.NormalizedIsNormal` | internal/gocli/auth.go:1065-1086 | Normalising gives only allowed characters, no two dashes in a row and none at either end; it is idempotent and leaves exactly the normal names as they are |
| `AccountNames.NormalizedInOnePass` | internal/gocli/auth.go:1065-1086 | Trimming, spelling, collapsing and trimming again amounts to one pass that keeps the allowed characters in lower case, with one dash between two of them exactly where a separator stands between them |
| `AccountNames.ReplacePairsCollapses` | internal/gocli/auth.go:1081-1083 | Replacing pairs of dashes pass by pass leaves what a run of dashes collapses to |
| `AccountNames.Normalize` | internal/gocli/auth.go:1065-1086 | The loops compute the normal form; the collapse loop ends because each pass shortens the name |
| `AccountNames.Suggest` | internal/gocli/auth.go:400-464 | The search ends, with a normal name that is not reserved: the first free number, or "primary" when nothing is reserved |
| `Accounts.LookupIs` | internal/gocli/auth.go:1105-1113 | Looking an account up by name finds it exactly when it is registered |
| `Accounts.OrderedMembers` | internal/gocli/auth.go:1115-1127 | Ordering puts no account in and leaves none out |
| `UsageSamples.ClampPercentIs` | internal/gocli/account_usage_api.go:652-660 | A percentage is rounded to the nearest whole number within 0 and 100 |
| `UsageSamples.EarliestOfIs` | internal/gocli/account_usage_api.go:564-574 | The earliest of some retry times is one of them and no later than any other; blank ones do not count |
| `UsageSamples.FindEarliestRetry` | internal/gocli/account_usage_api.go:549-575 | The loop finds the earliest retry time of the windows that matter |
| `UsageSamples.BuildSnapshot` | internal/gocli/account_usage_api.go:458-499 | Filling in the snapshot field by field gives the snapshot of the response, but for plan and credits |
| `UsageSamples.EligibleAfterCheck` | internal/gocli/account_usage_api.go:501-534 | Right after a successful check an enabled account is eligible exactly when the response showed room |
| `BalancerChoice.BetterIsTotal` | internal/gocli/auth_runtime.go:519-581 | Of two registered accounts exactly one is better |
| `BalancerChoice.BetterIsTransitive` | internal/gocli/auth_runtime.go:519-581 | Being better is transitive |
| `BalancerChoice.ScanOrderIsFree` | internal/gocli/auth_runtime.go:482-503 | The answer does not depend on the order of the scan |
| `BalancerLaws.OrderedExactly` | internal/gocli/auth.go:1115-1127 | The preferred account comes first and the others in the order of the registry |
| `BalancerLaws.FallbackExactly` | internal/gocli/auth_runtime.go:286-303 | A fallback is found whenever there is one: the least used, or the preferred, or the first in order |
| `BalancerLaws.DegradedExactly` | internal/gocli/auth_runtime.go:213-251 | The balancer reports trouble exactly without an active account, or when that cannot go on or be left |
| `BalancerLaws.LimitWithoutActive` | internal/gocli/auth_runtime.go:405-446 | Without an active account a rate limit only reports trouble |
| `BalancerLaws.PauseExactly` | internal/gocli/auth_runtime.go:405-446 | A pause ends when the first enabled account may be tried again, or else after a poll interval |
| `BalancerLaws.FreshExactly` | internal/gocli/auth_runtime.go:305-331 | From a successful check on an account is fresh exactly while the check is not too old and showed room, and usable exactly when it showed room |
| `BalancerLaws.NotedExactly` | internal/gocli/auth_runtime.go:175-211 | What a successful check notes of limits: when and why an account is depleted, and when the active and the preferred one are cleared |
| `BalancerLaws.FailureExactly` | internal/gocli/account_usage_api.go:501-534 | A check that fails for the moment leaves a usable account usable while its last good check is fresh; one that fails for good does not |
| `BalancerLaws.RetryExactly` | internal/gocli/account_usage_api.go:458-575 | After a successful check an account waits for the first window that holds it back to open again |
| `BalancerLaws.DisabledIsNot` | internal/gocli/auth_runtime.go:305-331 | A disabled account is never chosen |
| `BalancerChoice.FallbackTargetIs` | internal/gocli/auth_runtime.go:286-303 | Under both policies a fallback is found exactly when there is a candidate |
| `BalancerChoice.LaunchChoiceIs` | internal/gocli/auth_runtime.go:253-284 | A launch chooses a fresh account whenever there is one, and no disabled one but the active |
| `BalancerChoice.EarliestRetryIs` | internal/gocli/auth_runtime.go:590-603 | The pause ends at the least pending retry time of an enabled account |
| `AccountCommands.ImportIsSound` | internal/gocli/auth.go:466-545 | Importing keeps registry and state consistent, also when the copy fails |
| `AccountCommands.ActivateIsSound` | internal/gocli/auth.go:753-791 | Activating keeps them consistent, also when the copy fails |
| `AccountCommands.EnableIsSound` | internal/gocli/auth.go:793-816 | Enabling keeps them consistent |
| `AccountCommands.DisableIsSound` | internal/gocli/auth.go:818-860 | Disabling keeps registry and state consistent, also when it refuses or a copy fails |
| `AccountCommands.RemoveIsSound` | internal/gocli/auth.go:862-910 | Removing keeps them consistent, also when the follow-up activation fails |
| `AccountEffects.RemoveIs` | internal/gocli/auth.go:862-910 | Removing takes that account out and switches no other one off, also when the follow-up activation fails |
| `AccountLaws.EnableExactly` | internal/gocli/auth.go:793-816 | Enabling switches that account on and leaves order and state alone; an enabled one changes nothing |
| `AccountLaws.NextEnabledExactly` | internal/gocli/auth.go:944-954 | The account moved on to is the preferred one when that is enabled, else the first enabled one in the registry |
| `AccountLaws.DisableExactly` | internal/gocli/auth.go:818-860 | What disabling leaves active, preferred and pending |
| `AccountEffects.MoreOnlySwitchesOn` | internal/gocli/auth.go:466-816 | Importing, activating and enabling switch no account off, whether they succeed or not |
| `AccountEffects.NoOtherExactly` | internal/gocli/auth.go:944-953 | There is no account to move on to exactly when no other one is enabled |
| `AccountStore.SetPreferred` | internal/gocli/auth.go:1088-1103 | The loop moves the account to the front |
| `AccountStore.FirstEnabledAccount` | internal/gocli/auth.go:944-953 | The scan finds the first enabled account but the skipped one |
| `AccountStore.WithoutAccount` | internal/gocli/auth.go:868-880 | The loop takes the account out and says whether it was there |
| `AccountStore.AuthFiles.ImportAccount` | internal/gocli/auth.go:466-545 | Edits the files as specified, also when a copy fails half-way |
| `AccountStore.AuthFiles.ActivateAccount` | internal/gocli/auth.go:753-791 | Edits the files as specified; a failed copy leaves the registry saved and the state as it was |
| `AccountStore.AuthFiles.EnableAccount` | internal/gocli/auth.go:793-816 | Edits the registry as specified and leaves the state alone |
| `AccountStore.AuthFiles.DisableAccount` | internal/gocli/auth.go:818-860 | Edits the files as specified; when it refuses or a copy fails nothing is saved |
| `AccountStore.AuthFiles.RemoveAccount` | internal/gocli/auth.go:862-910 | Edits the files as specified, and activates the preferred account when none is active |
| `AccountStore.AuthFiles.RunCommand` | internal/gocli/auth.go:466-942 | Every command does as specified, and sound files stay sound |
| `BalancerRuns.RefreshedKeeps` | internal/gocli/auth_runtime.go:213-251 | Deciding about queued switches keeps the state consistent and the active account |
| `BalancerRuns.EvaluatedKeeps` | internal/gocli/auth_runtime.go:175-211 | A whole evaluation keeps it too and changes no account beyond what the samples say |
| `BalancerRuns.LaunchKeeps` | internal/gocli/auth_runtime.go:125-154 | A launch leaves a consistent state |
| `BalancerRuns.RateLimitedKeeps` | internal/gocli/auth_runtime.go:405-465 | A rate limit leaves a sound state over the same registry and settings |
| `BalancerRuns.FailedSamplesKeepRetry` | internal/gocli/account_usage_api.go:501-534 | Samples that do not succeed change no retry time |
| `BalancerRuns.LimitUsesChoice` | internal/gocli/auth_runtime.go:405-446 | Every switch uses up one account that could be chosen |
| `BalancerRuns.BeatUsesChoice` | internal/gocli/auth_runtime.go:405-446 | A rate limit with its evaluation uses up one choice per switch |
| `BalancerRuns.SwitchesUseChoices` | internal/gocli/auth_runtime.go:405-465 | Over every run within a poll interval the switches are no more than the accounts that can be chosen, one more for an active account with an old retry time |
| `BalancerRuns.PausesEnd` | internal/gocli/auth_runtime.go:405-446 | A pause ends after now, and within a poll interval when the active account had no retry time |
| `BalancerSwitches.SwitchesAtMost` | internal/gocli/auth_runtime.go:156-465 | No run switches more often than `MostSwitches` |
| `BalancerSwitches.MostIsReached` | internal/gocli/auth_runtime.go:156-465 | Some run switches as often |
| `BalancerSwitches.BeatCosts` | internal/gocli/auth_runtime.go:156-465 | Every beat leaves at most as many switches as before, less the one it makes |
| `BalancerSwitches.EvaluatedShows` | internal/gocli/account_usage_api.go:501-534 | After an evaluation every enabled account is as its check left it |
| `BalancerSwitches.InOrderIsInWindow` | internal/gocli/auth_runtime.go:175-211 | These runs are among those of `BalancerRuns.SwitchesAreBounded` |
| `BalancerWorld.RemovedIsNotEligible` | internal/gocli/account_usage_api.go:328-332 | An account without credentials samples as failed for good, so it is not eligible once the samples are merged |
| `BalancerWorld.EvaluationFits` | internal/gocli/auth_runtime.go:175-251 | What an evaluation writes is consistent with a file that still allows the balancer's copy |
| `BalancerWorld.LimitFits` | internal/gocli/auth_runtime.go:405-446 | What a rate limit writes is consistent with a file that still allows the copy |
| `BalancerWorld.LaunchStepKeepsInStep` | internal/gocli/auth_runtime.go:125-154 | A launch on sound files puts balancer and files in step |
| `BalancerWorld.RunningStepKeepsInStep` | internal/gocli/auth_runtime.go:175-465 | Ticks, rate limits and quitting keep them in step |
| `BalancerWorld.StepKeepsInStep` | internal/gocli/auth_runtime.go:125-465 | Every allowed step keeps files and balancer in step, commands behind a running balancer included |
| `BalancerStale.SingledIsChosen` | internal/gocli/auth_runtime.go:405-503 | For every account that is enabled in the balancer's copy there are samples that make it the active one after a rate limit, and there are samples after which the active one stays |
| `BalancerStale.UnallowedBreaks` | internal/gocli/auth_runtime.go:405-503 | Where the file no longer allows the copy, there are samples after which a rate limit writes a state the file contradicts |
| `BalancerStale.AllowedStaysSound` | internal/gocli/auth_runtime.go:175-503 | Where it does, whatever is sampled and written stays consistent with the file |
| `BalancerManager.Manager.constructor` | internal/gocli/auth_runtime.go:55-67 | A balancer starts with the registry and the state that are in the files |
| `BalancerManager.Manager.ChooseLeastUsed` | internal/gocli/auth_runtime.go:482-503 | The scan computes the least-used candidate |
| `BalancerManager.Manager.ChooseFallbackTarget` | internal/gocli/auth_runtime.go:286-303 | Picks the least-used or the first eligible account, as the policy says |
| `BalancerManager.Manager.EarliestRetryAfter` | internal/gocli/auth_runtime.go:590-603 | The scan computes the earliest pending retry time |
| `BalancerManager.Manager.QueuePendingSwitch` | internal/gocli/auth_runtime.go:388-403 | Queues a switch to an enabled account; for the empty name or the active account it clears what is queued |
| `BalancerManager.Manager.RefreshQueuedSwitches` | internal/gocli/auth_runtime.go:213-251 | Queues or clears a switch as specified |
| `BalancerManager.Manager.MergeSamples` | internal/gocli/auth_runtime.go:175-205 | Merges every sample into its account |
| `BalancerManager.Manager.EvaluateUsage` | internal/gocli/auth_runtime.go:175-211 | Merges, decides and writes the state |
| `BalancerManager.Manager.ActivateAccount` | internal/gocli/auth_runtime.go:368-386 | Makes an account active and writes the state; a failed copy changes nothing |
| `BalancerManager.Manager.ChooseLaunchAccount` | internal/gocli/auth_runtime.go:253-284 | The branches and the scan pick the launch account of the specification |
| `BalancerManager.Manager.EnsureLaunchAccount` | internal/gocli/auth_runtime.go:125-154 | A successful launch leaves a fresh active account whenever there is one, and file and memory agree |
| `BalancerManager.Manager.HandleRateLimit` | internal/gocli/auth_runtime.go:405-446 | Switches, pauses or fails as specified, and what is in the file afterwards |
| `BalancerManager.Manager.LimitEvaluated` | internal/gocli/auth_runtime.go:405-446 | Marks, switches or pauses after the evaluation, and what the file then holds |
| `FindingsSync.UpsertIs` | internal/gocli/findings.go:281-348 | An upsert makes the finding of its key what was reported, changes no other, and says truly whether something changed |
| `FindingsLaws.UpsertExactly` | internal/gocli/findings.go:281-348 | An upsert shows what was reported, opens a resolved finding and changes no other status, keeps its history, and leaves a deleted one its time of update; a new finding is open with no item |
| `FindingsLaws.ItemExactly` | internal/gocli/findings.go:721-762 | A new planned item is queued, carries the finding's title, and is the more urgent the more severe the finding |
| `FindingsLaws.MarkExactly` | internal/gocli/findings.go:391-415 | Exactly the open and promoted findings of the source that the report does not name are resolved, stamped, and no other changes |
| `FindingsLaws.ForgottenExactly` | internal/gocli/findings.go:459-515 | Missing findings are resolved exactly when every proposal was current |
| `FindingsLaws.DismissExactly` | internal/gocli/findings.go:764-780 | What a dismissal writes into the finding, and when it is refused |
| `FindingsLaws.RestoreExactly` | internal/gocli/findings.go:782-810 | After every run exactly the deleted findings can be restored, and come back dismissed, with their reason and their item |
| `FindingsLaws.RestoreBringsBack` | internal/gocli/findings.go:795-810 | Restoring brings back the status from which a finding was deleted, in any state |
| `FindingsLaws.DropExactly` | internal/gocli/start_ui.go:7140-7168 | Exactly the queued and failed items can be dropped, and nothing else changes |
| `FindingsLaws.AdvanceExactly` | internal/gocli/start_scheduler.go:936-945 | A known item takes the state that is noted, and nothing else changes |
| `FindingsSync.UpsertTwiceExactly` | internal/gocli/findings.go:281-348 | Upserting the same input again changes nothing exactly when the input carries a time or the finding is deleted |
| `FindingsSync.AutoPromoteIs` | internal/gocli/findings.go:706-719 | Auto-promotion promotes exactly when it is on and the finding has no item and is neither dismissed nor deleted, and then changes that finding only |
| `FindingsSync.SyncOneIs` | internal/gocli/findings.go:459-515 | Syncing a proposal brings its finding one step closer to current, and reports a change exactly when it was not current |
| `FindingsSync.SyncAllChanges` | internal/gocli/findings.go:459-515 | A pass over a report changes something exactly when some finding is not current |
| `FindingsSync.MarkMissingIs` | internal/gocli/findings.go:391-415 | After marking no finding of the source is alive without being reported; it reports a change exactly when one was, and leaves current findings current |
| `FindingsSync.SyncComesCloser` | internal/gocli/findings.go:459-515 | Every sync that changes something comes one step closer to settled, in at most three steps |
| `FindingsSync.ChangesAreBounded` | internal/gocli/findings.go:459-515 | So the number of syncs that change something is bounded by the distance |
| `FindingsSync.TimedSettles` | internal/gocli/findings.go:459-515 | A timed report without contradiction changes something at most three times |
| `FindingsSync.SettledMeans` | internal/gocli/findings.go:391-515 | Once settled, reported findings are not resolved and unreported ones are dismissed, deleted or resolved |
| `FindingsSettled.SyncKeepsDeleted` | internal/gocli/findings.go:281-348 | A sync neither deletes what is reported nor takes a deletion back |
| `FindingsSettled.DeletedSettles` | internal/gocli/findings.go:338-340 | A consistent report of deleted findings, timed or not, changes something at most twice |
| `FindingsCounts.TwiceAtMost` | internal/gocli/findings.go:459-515 | Twice at most when nothing is missing, or no item that is named once is promoted |
| `FindingsCounts.ThreeTimes` | internal/gocli/findings.go:459-515 | A promotion of an item that is named once, together with a missing finding: three syncs in a row change something |
| `FindingsItems.DroppedIsPromotedAgain` | internal/gocli/findings.go:706-755 | After its item was dropped a finding gets another one by a promotion, and none by a sync |
| `FindingsItems.SecondItemHappens` | internal/gocli/findings.go:721-762 | Reported, promoted, its item dropped, and promoted again: two items for one finding |
| `FindingsItems.StepRecorded` | internal/gocli/findings.go:281-810 | Every step keeps items and the findings they were made for on record |
| `FindingsRuns.UpsertKeeps` | internal/gocli/findings.go:281-348 | An upsert keeps keys unique, promotions single and closed findings closed |
| `FindingsRuns.PromoteKeeps` | internal/gocli/findings.go:721-762 | A promotion keeps keys unique and items apart, drops no finding and touches no other one |
| `FindingsRuns.SyncKeeps` | internal/gocli/findings.go:391-515 | A sync drops no finding, reopens none that is dismissed or deleted, moves no purge clock and promotes nothing twice |
| `FindingsRuns.StepKeeps` | internal/gocli/findings.go:281-810 | Every step keeps keys unique and the items that findings name apart |
| `FindingsRuns.StepKeepsPromotions` | internal/gocli/findings.go:281-810 | Syncs, imports, dismissals, restores and retention passes keep every planned item and every finding's item, and make new items only for findings that had none |
| `FindingsRuns.RestoreUndoesMark` | internal/gocli/findings.go:782-810 | Restoring a finding that a retention pass marked gives it back as it was, but for its time of update |
| `FindingsStore.WorkState.Tick` | internal/gocli/findings.go:1004-1006 | Every look at the clock is later than all before |
| `FindingsStore.WorkState.Find` | internal/gocli/findings.go:263-279 | The first finding with the key, in the order of the identifiers |
| `FindingsStore.WorkState.UpsertFinding` | internal/gocli/findings.go:281-348 | Upserts in place as specified |
| `FindingsStore.WorkState.PromoteFinding` | internal/gocli/findings.go:721-762 | Promotes in place as specified, or refuses and changes nothing |
| `FindingsStore.WorkState.MarkMissingFindings` | internal/gocli/findings.go:391-415 | Resolves all missing findings, in any order |
| `FindingsStore.WorkState.SyncProposal` | internal/gocli/findings.go:477-509 | Upserts one proposal and promotes its finding |
| `FindingsStore.WorkState.SyncProposals` | internal/gocli/findings.go:477-509 | The loop computes the specified state, whether something changed, and what was seen |
| `FindingsStore.WorkState.SyncReport` | internal/gocli/findings.go:459-515 | Syncs a report in place; findings that are closed stay closed and nothing is promoted twice |
| `FindingsStore.WorkState.DismissFinding` | internal/gocli/findings.go:764-780 | Dismisses in place, or refuses and changes nothing |
| `FindingsStore.WorkState.RestoreFinding` | internal/gocli/findings.go:795-810 | Restores in place, or refuses and changes nothing |
| `FindingsStore.WorkState.QueueItem` | internal/gocli/start_ui.go:7037-7068 | A user queues an item of its own |
| `FindingsStore.WorkState.AdvanceItem` | internal/gocli/start_scheduler.go:936-945 | Notes in place how far an item got |
| `FindingsStore.WorkState.DropItem` | internal/gocli/start_ui.go:7140-7168 | Drops a queued or failed item in place; refuses an unknown or a launched one and changes nothing |
| `FindingsStore.WorkState.MaintainJobs` | internal/gocli/dismissed_retention.go:177-230 | Ages every scout job, in any order, and counts truly |
| `FindingsStore.WorkState.AgeFinding` | internal/gocli/dismissed_retention.go:177-230 | Marks or purges one finding |
| `FindingsStore.WorkState.MaintainFindings` | internal/gocli/dismissed_retention.go:177-230 | Ages every finding, in any order, and counts truly |
| `FindingsStore.WorkState.Maintain` | internal/gocli/dismissed_retention.go:177-230 | One pass; the counts are the numbers of items marked and purged, and nothing is reported when nothing changed |
| `Retention.MarkedIsKept` | internal/gocli/dismissed_retention.go:177-230 | A pass never purges what it marks |
| `Retention.PassIsIdempotent` | internal/gocli/dismissed_retention.go:177-230 | A second pass at the same instant changes nothing, and what a pass drops it counted as purged |
| `Retention.JobPassIsIdempotent` | internal/gocli/dismissed_retention.go:177-230 | The same for scout jobs |
| `RetentionLaws.JobsAgeExactly` | internal/gocli/dismissed_retention.go:69-230 | The same as `RetentionLaws.AgesExactly`, for scout jobs |
| `RetentionLaws.OthersStay` | internal/gocli/dismissed_retention.go:177-230 | A finding that is neither dismissed nor deleted, or carries no time, outlives every sequence of passes unchanged |
| `RetentionLaws.OtherJobsStay` | internal/gocli/dismissed_retention.go:177-230 | So does such a scout job |
| `Retention.PassesFollowPhases` | internal/gocli/dismissed_retention.go:177-230 | Over every sequence of passes a dismissed finding waits, is marked, and is gone |
| `Retention.PhaseExplains` | internal/gocli/dismissed_retention.go:177-230 | The phase after ordered passes says which passes found the finding due and which found it over |
| `Cleanup.MutualParentsNeverEnd` | internal/gocli/cleanup.go:168-187 | Two processes that are each other's parent keep it going for ever |
| `Cleanup.RootExactly` | internal/gocli/cleanup.go:168-187 | The root is the session that the walk meets, and without one the current process |
| `Cleanup.WalkClimbs` | internal/gocli/cleanup.go:168-187 | Every step leads to a parent, from a process above 1, and never past a session |
| `Cleanup.EntryIsLast` | internal/gocli/cleanup.go:168-187 | Of several entries of a process the last one counts |
| `Cleanup.CommandsAreTold` | internal/gocli/cleanup.go:158-166 | Which paths make a server, with either kind of slash, and which name a session |
| `Cleanup.OthersAreTold` | internal/gocli/cleanup.go:158-166 | Commands without a certain letter are neither |
| `Cleanup.ResolveRoot` | internal/gocli/cleanup.go:168-187 | The loop finds the root of the session: where the walk over the parent links stops |
| `Cleanup.ChildTable` | internal/gocli/cleanup.go:189-195 | The map lists for every parent its children, in table order |
| `Cleanup.ProtectedPids` | internal/gocli/cleanup.go:189-207 | The work list ends with exactly the processes reachable from the root |
| `Cleanup.AncestorsAreProtected` | internal/gocli/cleanup.go:168-207 | The current process and every process up to the root are protected |
| `Cleanup.CollectCandidates` | internal/gocli/cleanup.go:209-224 | The unprotected server processes, sorted |
| `InstallDocs.Parts` | cmd/nana-release-helper/main.go:505-518 | A replacement keeps the text in front of the block and behind it, markers included |
| `InstallDocs.OtherBlockStays` | cmd/nana-release-helper/main.go:466-478 | Replacing one block keeps the text of another one that stands apart, and keeps the two apart |
| `InstallDocs.OtherBlockStaysInSync` | cmd/nana-release-helper/main.go:466-478 | So a block that was in sync stays in sync |
| `InstallDocs.SyncedIsInSync` | cmd/nana-release-helper/main.go:466-481 | A clean file can be synced, and syncing it again changes nothing |
| `InstallDocs.DriftExactly` | cmd/nana-release-helper/main.go:484-503 | A clean file has drifted exactly when one of its blocks does not show its lines |
| `InstallDocs.SyncTargets` | cmd/nana-release-helper/main.go:457-503 | After a sync of clean files every block shows its own lines and all else is as it was; a check lists exactly the clean files in which some block does not; a missing marker stops the run at its file |
| `InstallDocs.SyncThenCheck` | cmd/nana-release-helper/main.go:433-503 | A check right after a sync of clean files finds no drift |
| `ManualNotes.MarkersDoNotOverlap` | internal/gocli/agents_init.go:296-301 | The end of the notes never stands inside the start marker, so the slice between them exists |
| `ManualNotes.NotesAreFound` | internal/gocli/agents_init.go:292-310 | Notes written to a file are read from it again when body and notes hold no marker |
| `ManualNotes.BodyIsRead` | internal/gocli/agents_init.go:292-310 | A body that holds both markers is read instead of the notes |
| `ManualNotes.OpenBodyIsNeverKept` | internal/gocli/agents_init.go:292-310 | Behind a start marker in the body alone the notes are never read as they were written |
| `ManualNotes.SectionIsFree` | internal/gocli/agents_init.go:292-306 | Notes read from a file never hold the end marker |
| `ManualNotes.SectionExactly` | internal/gocli/agents_init.go:292-306 | The notes are what stands between the first start marker and the first end marker, trimmed, unless that is blank |
| `ManualNotes.ForcedWrites` | internal/gocli/agents_init.go:308-310 | The generated text, character by character: marker, body, and the file's own notes or else the run's |
| `ManualNotes.FirstNotesSurvive` | internal/gocli/agents_init.go:292-359 | A file without notes gets those of the first run that writes it, and keeps them |
| `ManualNotes.SameRunTwice` | internal/gocli/agents_init.go:316-359 | The same run again leaves the file unchanged |
| `ManualNotes.UnmanagedStays` | internal/gocli/agents_init.go:312-359 | A file that is not managed is never touched by runs that are not forced |
| `ManualNotes.WrittenIsManaged` | internal/gocli/agents_init.go:308-359 | What a run writes is managed |
| `ManualNotes.ManagedStays` | internal/gocli/agents_init.go:308-359 | A managed file stays managed over every sequence of runs |
| `ReviewRuleLaws.CommandsKeepRules` | internal/gocli/github_defaults.go:1120-1171 | Approving, enabling, disabling and archiving lose no rule, make none and change only times |
| `ReviewRuleLaws.ApprovesExactly` | internal/gocli/github_defaults.go:1120-1155 | Exactly the selected pending rules move behind the approved ones, which stay in front |
| `ReviewRuleLaws.FailsExactly` | internal/gocli/github_defaults.go:1120-1164 | A command fails exactly when it is given no id or selects no rule; an approval looks at pending rules only |
| `ReviewRuleLaws.NamesExactly` | internal/gocli/github_defaults.go:2443-2452 | A rule is selected exactly when some argument, trimmed, is its id or "all" |
| `ReviewRuleLaws.ActionExactly` | internal/gocli/github_defaults.go:2443-2483 | Every rule that a command names stands, stamped, in the bucket of its action and in no other |
| `ReviewRuleLaws.OrderExactly` | internal/gocli/github_defaults.go:2443-2483 | Unnamed rules keep their order, and the named ones follow in theirs |
| `ReviewRuleLaws.ScansExactly` | internal/gocli/github_defaults.go:2358-2399 | A scan proposes exactly the candidates that are not decided, and leaves decided rules alone |
| `ReviewRuleLaws.ProposedTimeExactly` | internal/gocli/github_defaults.go:2358-2399 | A candidate that was pending keeps the time at which it became so |
| `ReviewRuleLaws.StepKeepsSound` | internal/gocli/github_defaults.go:1108-1171 | Every step keeps each rule in one bucket, once |
| `ReviewRuleLaws.RunsAreSound` | internal/gocli/github_defaults.go:1108-1171 | So does every sequence of scans and commands |
| `ReviewRuleLaws.StepKeepsDecided` | internal/gocli/github_defaults.go:1120-1171 | A decided rule stays decided, with the same contents |
| `ReviewRuleCommands.ApprovePending` | internal/gocli/github_defaults.go:1125-1148 | The loop moves the selected pending rules behind the approved ones and counts them |
| `ReviewRuleCommands.RewriteLifecycle` | internal/gocli/github_defaults.go:2443-2483 | Moves them to the target; nothing changes when there are none |
| `ReviewRuleCommands.MergeScan` | internal/gocli/github_defaults.go:2358-2399 | The loops compute the merged document |
| `ReviewRuleCommands.RulesFile.Scan` | internal/gocli/github_defaults.go:1867-1916 | A scan writes the merged document; without a file it starts from an empty one |
| `ReviewRuleCommands.RulesFile.RunCommand` | internal/gocli/github_defaults.go:1095-1171 | A command writes what is specified; one that fails leaves the file as it was |
| `Approval.LatestIsLastWord` | internal/gocli/github_publisher.go:653-667 | What the fold keeps for a reviewer has the highest id of the reviewer's reviews |
| `Approval.StatesExactly` | internal/gocli/github_publisher.go:668-676 | A review approves, or requests changes, exactly when its state is that word, in any case, and never both |
| `Approval.OtherStatesAreSilent` | internal/gocli/github_publisher.go:668-676 | Comments, dismissed and pending reviews do neither |
| `Approval.EligibleExactly` | internal/gocli/github_publisher.go:653-692 | A review counts exactly when an entry of the control plane spells its login, but for case, white space and an @ in front; a blank one and "*" are nobody's |
| `Approval.OrderIsFree` | internal/gocli/github_publisher.go:653-681 | The order of the reviews does not matter where each eligible reviewer has one last word |
| `Approval.DistinctIdsAreFree` | internal/gocli/github_publisher.go:653-681 | Where no two reviews share an id, the order never matters |
| `Approval.SurelyExactly` | internal/gocli/github_publisher.go:653-681 | Every order gives approval exactly when no last word requests changes and some eligible reviewer's last words all approve |
| `Approval.PerhapsExactly` | internal/gocli/github_publisher.go:653-681 | Some order gives approval exactly when some last word approves and no eligible reviewer's last words all request changes |
| `Approval.SharedIdDependsOnOrder` | internal/gocli/github_publisher.go:661-681 | An approval and a change request that share an id give opposite answers in the two orders |
| `Approval.SharedIdsDependOnOrder` | internal/gocli/github_publisher.go:661-667 | Such a pair, with its texts |
| `Approval.EligibleReviewers` | internal/gocli/github_publisher.go:683-692 | The cleaned logins but the blank one and "*", each once |
| `Approval.LatestReviews` | internal/gocli/github_publisher.go:657-667 | The loop keeps for each eligible login the first listed review with the highest id |
| `Approval.Decide` | internal/gocli/github_publisher.go:668-681 | Which of the three answers the loop gives, for every order in which it runs over the latest reviews |
| `Approval.ApprovalSatisfied` | internal/gocli/github_publisher.go:644-681 | Exactly when each of the four answers is given: no reviewers, a change request and whose, no approval, satisfied |

## Left out

- Runtime: crash consistency of the directory; processes run to the end, one after the other, and the fresh engine for a directory that cannot be read is modelled only as far as no promise is made about it.
- Runtime: decoding of command arguments, the `snapshot`, `schema` and `mux-contract` output, and writing a file through a temporary one.
- Runtime: the JSON text of single events, as a parameter that gives object texts and reads them back; the seven other files as the values they encode; times as integers; metadata as one value, where absent and `null` are the same.
- JsonArrayText: the reader accepts more than JSON inside an element, because it compares brackets by depth and not by kind.
- RuntimeProcess.Load: says nothing exact about an engine loaded from the events after a compaction, which drops finished requests by design.
- Balancer: the texts of the last decision and of errors, plan and credits, the file paths; copying credentials is a boolean parameter; failures to write the state or the registry; the first import into an empty registry; HTTP, token refresh and settings clamps.
- Balancer: the order of accounts is modelled by its effect, preferred first and the rest as registered; policies other than the two are read as the default.
- BalancerRuns.SwitchesAreBounded: holds for samples that do not succeed only, because a successful one overwrites the retry time.
- UsageSamples.BuildSnapshot: leaves out the plan and whether credits are available, on which nothing depends.
- BalancerWorld.FilesStaySound: takes the credentials of a removed account as deleted, although `remove` goes on when deleting them fails.
- BalancerStale.StaleRegistryExactly: asks for a positive usage threshold and a freshness that is not negative, as the settings are clamped.
- Account names: letters are ASCII; Unicode case folding is not modelled.
- Findings: normalising of texts, since they are held in the form in which they are stored; the description of planned items; reading scout, investigation and review artifacts. The other two kinds of sources end in the same loop and the same last step.
- Findings: patching a finding, import sessions up to the upsert they end in, and the listing.
- Findings: the scheduler's writes of a copy of the state that it read earlier, which can bring a dropped item back; planned items of scouts, which become scout jobs and are removed; the transitions of items, which may go from any state to any.
- FindingsStore.WorkState.Tick: the clock is the number of looks at it, so that identifiers made from it are fresh; two looks in the same nanosecond, and a clock that is set back, are not modelled.
- Retention: the pickup files of scouts and the work items in SQLite; the pass is the one over the work state.
- Cleanup.ResolveRoot: requires that the walk ends, because otherwise the loop of the repository does not end either; `WalkEndsExactly` says when.
- Cleanup: listing processes, signals, waiting and temporary directories.
- InstallDocs.SyncBothTwice: asks for blocks that stand apart and for lines free of both blocks' markers; nothing is said about blocks inside one another.
- Install docs: reading the version and the change log, rendering of the blocks, failures to read or write a file.
- Manual notes: which directories get a file, backups and the counts in the summary.
- Review rules: finding candidates in reviews, listing and explaining; everything a rule carries besides id and time is one token; a rules file that cannot be read counts as missing.
- Approval: reading the CI state and the reviews from the service; case folding is ASCII.
- Everything that only moves data: help texts, tables, argument parsing, HTTP, git, tmux, editors and release archives.
