# Verified model of the Claudlobby host protocols

Claudlobby composes a fleet's configuration, publishes it over live files, starts and stops the bots, and
records what they did. This project models the parts of it whose correctness does not show in any one function:
protocols that must survive a crash at any step, and arithmetic that must hold across every fleet of a host at
once. `dafny verify dfyconfig.toml` checks all of it.

## What is modelled

**Publication** (`Trees`, `Resolution`, `OwnedTrees`, `ConfigPlan`, `Preparation`, `PublicationRows`,
`PublicationSteps`, `Rehearsal`, `Publication`). The file system is a finite tree of files, links and directories with modes and inode numbers.
`Publication.Publisher` runs the source's own statements over one tree and one journal. Between any two steps
(`Tick`) the process may die, after which only the last saved journal is left, and an outside process may replace
the whole tree. `quiet` says that nothing outside happens; what is promised then is convergence, and what is
promised always is that no rename happens without durable intent and a check that passed.

- `PublicationRows.Progress` is the invariant: earlier rows settled, one row in hand at a known stage, later rows
  untouched. Every crash leaves a saved journal and a tree that satisfy it.
- Each check reads the paths it looks at as `path_state` does, resolving links first, and a loop of links raises.
  `PublicationRows.Legible` says of a row that what its check looks at can be read, and a pending target where it
  was; `PublicationRows.AllRowsCheck` proves that in a recoverable state this alone decides the check.
- `Publication.Publisher.Recover` runs any number of lives that end anywhere and then one that does not. In a
  steady publication that one always converges: everything is published, no workspace that a durable journal ever
  named is still there, and nothing apart from the outputs has changed. Without a crash, exactly a smooth
  publication converges. `Preparation.Publish` is the same from a frozen plan, end to end.
- `Rehearsal.Steady` and `Rehearsal.Smooth` are the conditions, computed on the tree before the publication starts
  by replaying the rows on it. Steady: at every point where the process may die (`Rehearsal.Point`: between rows,
  staged, between the two renames, published) every row is legible. Smooth: the paths that an uninterrupted run
  looks at can be read when it does. Both are exact: `Publication.Publisher.Strand` takes any publication that is
  not steady to a resumable journal that every later life refuses.
- The observer's log (`Looked`, `Renamed`) carries the safety half, for every interleaving of outside changes: each
  rename is of a row whose intent is durable, right after a check of that very row that passed.

**Compaction recording** (`Transcripts`, `Compactions`). Byte cursors over growing transcripts, a batch for each
pass, a plane that may refuse, answer short, raise, or take events and then lose the answer, and a cursor file
that may not be saved. Each followed transcript has an account (`Trace`): which stretches lay before the follow,
were skipped for the cap, dropped up to a first newline, or read. What one turn adds to an account is fixed by
what it read (`TracesAs`); every row of a stretch read is on the plane, and `LineIsAccounted` says what that means
for a line.

**Timers and the boot ladder** (`TimerSchedule`, `BootLadder`). The meaning of the calendar expressions
(systemd.time(7), "Calendar events"), the second every anchored job gets, the rung every bot gets, and the second
loop that computes the rungs' bases again.

**Changelog roll-up** (`Changelog`). The fence automaton (CommonMark 0.31, section 4.5), the splice, and the
checker that has to accept exactly what the assembler writes.

**Smaller protocols**: `Checkin` (one committed decision for each request), `StopDoor` (stop records),
`AutomationLog` (controls and runs of a bot), `Envelope` (the reference-refresh header of a handoff), `Hooks`
(the merged session-loop hooks).

## What does not hold without a condition

Each is stated as a lemma, the condition both ways where one is named.

- A crash can leave a publication that nothing resumes, though nobody else touched anything. A pending target is
  checked by what it resolves to as well as by its node, so when an earlier row replaces a link that a later,
  still pending link passes through, the later row no longer passes. `Rehearsal.RelinkedIsNotSteady` is an ordinary
  input: one link, a link to that link, both to be pointed elsewhere. `Publication.Publisher.Recover` and `Strand`
  give the condition both ways, `Rehearsal.UnpassedIsSteady` a simpler one that suffices: no link is changed, and
  no output resolves by way of another that is.
- Even without a crash a publication can stop half-way for good: when a row makes two links lead to each other, the
  next look at either raises. `Rehearsal.FlippedIsNotSmooth` is an input, the two links of the last point with the
  first one pointed at the second. `Publication.Publisher.Recover` gives the condition both ways (`Rehearsal.Smooth`).
- A compaction cursor can come to lie inside a line: a read that begins inside one (the first read of a long
  transcript, or one moved up to the cap) and completes none leaves it there, and the next pass takes it for a
  line start. `Transcripts.CursorOnLineStart` gives the exact condition, `Transcripts.CursorInsideLine` an input.
- A complete line can be lost without being counted: an unaligned read drops everything up to its first newline
  even where it happens to begin on a line start. `Transcripts.LineReadUnlessFirst` says exactly which line of a
  window is not read, `Transcripts.WholeLineDropped` gives an input.
- Calendar seconds are seconds of a minute for every owner exactly up to 60 slots
  (`TimerSchedule.SecondsAreSeconds`), and distinct within an owner exactly while its band holds all its anchored
  jobs (`TimerSchedule.SecondsDistinct`).
- Staging sorts manifests by the text of their paths, the composer's walk sorts directories by name, and the two
  orders differ as soon as one fleet's name goes on from another's with a character below the slash, such as a
  hyphen (`lab` and `lab-2`). Each order gives a ladder without collisions, but not the same one.
  `BootLadder.OrdersAgree` is the exact condition for fleets side by side, `BootLadder.StagedInOtherOrder` an input.
- A roll-up whose version heading already stands first below Unreleased is refused by the checker
  (`Changelog.RollUpAccepted`). Below an Unreleased heading inside a code fence a roll-up conserves entries exactly
  if the fence hides none of them (`Changelog.FencedHeadingConserves`).
- A foreign hook that shares an entry with an engine hook is dropped with it (`Hooks.CommandSurvives`): entries,
  not commands, survive a merge. An entry is the engine's by the ending of a command alone (`Hooks.EntrySurvives`),
  so a fleet's own command that happens to end so is dropped too (`Hooks.SameEndingIsLost`).
- A stop refused before any effect asks for its record's removal exactly when the unit was installed
  (`StopDoor.Door.StopBot`): with no unit, and no proof that the bot is stopped, the record it wrote stays
  (`StopDoor.Door.StrayRecord`).
- Preparation does not refuse a changed output below a link that leads nowhere: it makes a row for the link, and
  a journal with such a row is never resumed. `Preparation.PreparePublication` gives the condition both ways.
- An envelope printed for a directory whose name goes on over lines need not read back
  (`Envelope.SplitDirectoryIsRefused`).

## Model

| member | source | states |
|---|---|---|
| Trees.LookupSplit | claudlobby/config_plan.py:48-70 | reading below a path is reading the subtree found there, so a recursive fingerprint and a direct look agree |
| Trees.PutNested | claudlobby/config_install.py:296-300 | a change below a path is that change of the subtree at it: no rename or delete reaches outside its own subtree |
| Resolution.WalkAlike | claudlobby/config_plan.py:71-72 | where a walk along a path ends depends on the links in the tree alone |
| Resolution.WalkByAsked | claudlobby/config_plan.py:71-72 | and of those only on the ones it comes to |
| Resolution.ResolvesAbove | claudlobby/config_plan.py:71-72 | a path that resolves has parents that do |
| Resolution.ResolvesToItself | claudlobby/config_plan.py:71-72 | a path with no link on it resolves to itself |
| Resolution.WorkMirrored | claudlobby/config_install.py:248-253 | whether an entry of a workspace can be read does not depend on the name mkdtemp gave it, only on the nodes in it and the links outside |
| OwnedTrees.BuildDirectory | claudlobby/config_install.py:115-128 | the loop over an owned tree's files, in any order, refuses a climbing path and otherwise builds the one lean directory that flattens back to exactly the files, their digests and modes |
| OwnedTrees.InsertOne | claudlobby/config_install.py:123-127 | adding a file that neither covers nor is covered by another never descends into a file and changes no other path |
| OwnedTrees.LeanUnique | claudlobby/config_install.py:115-128 | two such directories that flatten alike are equal, so the iteration order cannot matter |
| OwnedTrees.UnflattenRepresents | claudlobby/config_install.py:115-128 | every prefix-free file map has such a directory |
| ConfigPlan.Builder.Add | claudlobby/config_plan.py:239-252 | an output is accepted exactly when it repeats itself or overlaps none except through an ensured directory; the invariant of the builder stays |
| ConfigPlan.OverlapsAny | claudlobby/config_plan.py:247-251 | the loop finds an overlap exactly when some recorded output has one |
| ConfigPlan.AddedSound | claudlobby/config_plan.py:239-252 | an accepted output keeps every pair of outputs disjoint and every proposed byte retained |
| ConfigPlan.Builder.File | claudlobby/config_plan.py:254-259 | a file needs ordinary permission bits; its bytes are retained under their digest even when the output is refused |
| ConfigPlan.Builder.Symlink | claudlobby/config_plan.py:261-262 | a link is accepted under the overlap rule alone |
| ConfigPlan.Builder.Remove | claudlobby/config_plan.py:286-287 | a removal is accepted under the overlap rule alone |
| ConfigPlan.StageFiles | claudlobby/config_plan.py:264-284 | the loop accepts exactly the file maps with valid relative names, ordinary modes and no file on or under another, and retains their bytes |
| ConfigPlan.Builder.Tree | claudlobby/config_plan.py:264-284 | an owned tree is accepted exactly when its files are stageable and its target overlaps nothing |
| ConfigPlan.Builder.Directory | claudlobby/config_plan.py:289-295 | an existing directory is left alone, anything else there is refused, a missing one becomes an ensured output |
| ConfigPlan.Builder.Freeze | claudlobby/config_plan.py:297-334 | a freeze succeeds exactly while no target's node has changed, every one resolves as it did, and the plan stays out of the state directory; the plan then holds the builder's changes, prefix-free and with all their bytes |
| ConfigPlan.FrozenPlan | claudlobby/config_plan.py:312-315 | listing the changes in any order keeps all a publisher relies on |
| ConfigPlan.AncestorSortsFirst | claudlobby/config_plan.py:312-315 | in sorted order a directory precedes everything below it |
| Preparation.DesiredTells | claudlobby/config_install.py:115-128 | only a removal has no node, and an owned tree's node flattens back to exactly its files |
| Preparation.DesiredIsFaithful | claudlobby/config_install.py:115-128 | two outputs have the same node exactly if they are the same output, an ensured directory and an owned tree without files apart |
| Preparation.Backup | claudlobby/config_install.py:160-171 | backing up the node that is there cannot fail, and afterwards staged and kept bytes hold every file of it, none kept twice |
| Preparation.EnsureParents | claudlobby/config_install.py:193-200 | the parent loop adds an ensured row, as found, for exactly what does not exist above a target, a link to nothing included, and refuses exactly when a file is in the way |
| Preparation.NearestAncestor | claudlobby/config_install.py:193-200 | the first existing ancestor is a directory exactly when no file is in the way |
| Preparation.PrepareRow | claudlobby/config_install.py:180-208 | one change is refused exactly when it touches protected state or ensures what exists; otherwise it adds its row, its missing parents' and its backups |
| Preparation.PrepareRows | claudlobby/config_install.py:174-209 | the rows are exactly those of the changes and of missing parents, and every changed original is backed up |
| Preparation.PreparedRecoverable | claudlobby/config_install.py:174-209 | sorted prepared rows are a journal the publisher can take to its end: parents first, nothing overlapping, everything makeable |
| Preparation.DesiredMakeable | claudlobby/config_install.py:303-312 | every desired node can be materialised from the staged bytes alone |
| Preparation.PreparePublication | claudlobby/config_install.py:441-473 | succeeds exactly on a fresh, unprotected plan, with complete backups and every row resolving as it says; the journal covers the plan exactly when no changed output lies below a link that leads nowhere, and is then recoverable as it stands |
| Preparation.CheckCoverage | claudlobby/config_install.py:421-433 | the check before resuming accepts exactly a journal with one row for each target, every change's nodes, and else only missing parents of outputs |
| Preparation.LinkRowIsRefused | claudlobby/config_install.py:193-200 | a journal prepared for an output below a link that leads nowhere has a row that check refuses |
| Preparation.CoversStays | claudlobby/config_install.py:421-433 | no progress on the rows ever changes whether resuming accepts the journal |
| Preparation.Rebuild | claudlobby/config_install.py:160-171 | a backed-up node rebuilt from retained bytes alone is that node exactly |
| Preparation.SettledIsPublished | claudlobby/config_install.py:421-433 | with all rows settled, every change of the plan is live |
| Preparation.Publish | claudlobby/config_install.py:441-485 | prepare, check, then apply: exactly the publishable plans without a changed output below such a link are begun; a steady one is published after any crashes, every output live and every path apart from them unchanged, and without a crash exactly a smooth one is |
| Preparation.PublishUntilStranded | claudlobby/config_install.py:375-438 | exactly a begun plan that is not steady can be left as a tree and a journal that cover the plan, are resumable and change no path apart from the outputs, and that no later process goes on from |
| PublicationRows.RemainingShrunk | claudlobby/config_install.py:229-235 | a partly deleted tree that the check accepts stays acceptable after any further removals and unlockings |
| PublicationRows.CheckSplits | claudlobby/config_install.py:257-275 | a row passes its check exactly if its nodes are as recorded and every path looked at can be read, a pending target where it was |
| PublicationRows.FinishIsStricter | claudlobby/config_install.py:257-275 | finishing a row never acts on a target that the row check would refuse |
| PublicationRows.InWorkChecks | claudlobby/config_install.py:257-275 | in each disk state that an interrupted swap can leave, the nodes are accepted, so that the check passes and the finish knows where it stands exactly if the paths can be read |
| PublicationRows.AllRowsCheck | claudlobby/config_install.py:257-275 | in every recoverable state a row's check passes exactly if the paths it looks at resolve, a pending target to where it did |
| PublicationRows.RegionMeetsEarlier | claudlobby/config_plan.py:247-251 | work on a row meets an earlier row's target only beneath an ensured directory |
| PublicationRows.RegionMeetsLater | claudlobby/config_plan.py:247-251 | work on a row meets a later row's target only where it is the ensured directory above it |
| PublicationRows.KeepOthers | claudlobby/config_install.py:379-389 | a change in one row's region leaves every other row's node settled or waiting as it was |
| PublicationRows.FramedPut | claudlobby/config_install.py:379-389 | a change in one row's region leaves all paths apart from the outputs, and brings back no workspace that was gone |
| PublicationRows.FramedRow | claudlobby/config_install.py:315-320 | the next journal names no workspace but the one in hand, and forgets only one that is gone |
| PublicationRows.HomeIsThere | claudlobby/config_install.py:193-197 | when a changed row's turn comes, its parent is a directory |
| PublicationRows.Advance | claudlobby/config_install.py:379-389 | a settled row is left behind and the invariant moves to the next |
| PublicationSteps.RenameAway | claudlobby/config_install.py:332-335 | the first rename is possible, and takes the row to the stage with the exact original beside an absent target |
| PublicationSteps.RenameIn | claudlobby/config_install.py:341-344 | the last rename is possible and puts the desired node live, from either stage that leads to it |
| PublicationSteps.RenameFrame | claudlobby/config_install.py:328-344 | a rename between a target and its workspace changes nothing apart from the outputs |
| Rehearsal.RehearsalGoes | claudlobby/config_install.py:375-392 | replaying the rows on the tree goes through the same states as a publication |
| Rehearsal.ShowAlike | claudlobby/config_install.py:257-262 | two trees that show the same outputs in the same surroundings have the same links |
| Rehearsal.AlikeBetween | claudlobby/config_install.py:257-262 | a run with a row's turn to come has the links of the rehearsal |
| Rehearsal.AlikeTorn | claudlobby/config_install.py:332-344 | a run between a row's two renames has those of the rehearsal torn there |
| Rehearsal.LegibleAtPoint | claudlobby/config_install.py:257-275 | wherever a run stands at a point of its plan, a row can be read exactly if it can in the replay at that point |
| Rehearsal.SteadyHolds | claudlobby/config_install.py:257-275 | in every recoverable state of a steady publication every row's paths can be read and every pending target resolves as it did |
| Rehearsal.SteadyIsSmooth | claudlobby/config_install.py:375-392 | what can be taken up again at every point also gets through without a crash |
| Rehearsal.PlanNext | claudlobby/config_install.py:341-342 | between a row's two renames the staged node can be read exactly if it can in the replay |
| Rehearsal.PlanCleans | claudlobby/config_install.py:354-358 | the workspace of a published row can be read for cleaning up exactly if it can in the replay |
| Rehearsal.UnpassedIsSteady | claudlobby/config_install.py:257-275 | a publication is steady when it changes no link and no output resolves by way of another that it changes |
| Rehearsal.RelinkedIsNotSteady | claudlobby/config_install.py:257-262 | a link, and a link to it, both to be pointed elsewhere: a run without a crash gets through, but once the first is replaced the second, untouched and pending, resolves elsewhere |
| Rehearsal.FlippedIsNotSmooth | claudlobby/config_install.py:303-308 | the first of them pointed at the second instead: after its rename both lie on a loop, and the second row's turn is refused without any crash |
| PublicationSteps.PublishedEnds | claudlobby/config_install.py:349-350 | a swapped row may be marked applied |
| PublicationSteps.CleaningShrinks | claudlobby/config_install.py:362-369 | deleting any part of a verified workspace keeps the row publishable and its workspace acceptable |
| PublicationSteps.IntentRecorded | claudlobby/config_install.py:315-320 | recording intent takes a waiting row to the first stage and disturbs no other |
| Publication.Publisher.Materialize | claudlobby/config_install.py:278-293 | what is built has exactly the node's fingerprint; only a missing byte or bad name stops it; a crash leaves changes at its own path alone |
| Publication.Publisher.MakeWorkspace | claudlobby/config_install.py:309-310 | a new private directory beside the target, nothing else changed |
| Publication.Publisher.Begin | claudlobby/config_install.py:303-320 | a changed row is checked and staged, then its intent is durable; a crash before that leaves it waiting; in quiet it is refused only where its target cannot be read, and then so is the replay's |
| Publication.Publisher.RecordIntent | claudlobby/config_install.py:315-320 | the intent is durable before the row counts as begun |
| Publication.Publisher.MoveAway | claudlobby/config_install.py:332-335 | the first rename needs durable intent and the check just made |
| Publication.Publisher.MoveIn | claudlobby/config_install.py:341-344 | the last rename needs them too, with at most the first rename in between; in quiet it is refused exactly if the staged node cannot be read |
| Publication.Publisher.Swap | claudlobby/config_install.py:328-344 | from wherever an earlier life left the row, the renames end with the desired node live, unless the first rename itself put the staged node on a loop of links, exactly as in the replay |
| Publication.Publisher.CheckedSwap | claudlobby/config_install.py:323-344 | a target in a state the row does not permit is never renamed; in quiet a freshly staged row is refused exactly if the replay's swap is |
| Publication.Publisher.Finish | claudlobby/config_install.py:323-351 | swap, mark, clean up: settled with its workspace gone, a crash that can be resumed, or a refusal whose row every later check refuses |
| Publication.Publisher.RemoveAll | claudlobby/config_install.py:362-369 | entry by entry deletion ends with the path absent; a crash leaves a shrunk tree |
| Publication.Publisher.Unlock | claudlobby/config_install.py:366-368 | the walk adds owner bits and changes nothing else |
| Publication.Publisher.BeginCleaning | claudlobby/config_install.py:357-361 | deletion starts only after its intent is durable, and in quiet exactly if the workspace can be read |
| Publication.Publisher.Cleanup | claudlobby/config_install.py:354-372 | a row with a workspace that can be read ends settled with the workspace gone; one without is left alone |
| Publication.Publisher.CheckRows | claudlobby/config_install.py:257-275 | every row is looked at in order until one fails; in a recoverable quiet state none does exactly if every row is legible |
| Publication.Publisher.MarkUnchanged | claudlobby/config_install.py:381-383 | a row that changes nothing is marked applied and the tree stays |
| Publication.Publisher.ApplyRow | claudlobby/config_install.py:379-389 | one turn takes a row from any status to its end, crashes resumably, or is refused with that row stuck; a pending row's turn is refused exactly if the replay's is |
| Publication.Publisher.ApplyRows | claudlobby/config_install.py:379-389 | the loop takes every row to its end; from the start it does so exactly if every row passes in the replay |
| Publication.Publisher.Apply | claudlobby/config_install.py:375-392 | under any interference: no rename before every row was looked at, each rename of a row with durable intent right after a check of that row that passed, a failed check ends the run as a refusal, and a run that reports completion saw every row in its end state last; in quiet it converges, or is refused and leaves a resumable journal that cannot be read, and from the start it converges exactly if the publication is smooth |
| Publication.Publisher.Live | claudlobby/config_install.py:421-438 | a new process on the saved journal refuses at once and changes nothing where a row is not legible; wherever it refuses, it leaves such a journal, so that every later process refuses too; the first one of all gets through exactly if the publication is smooth |
| Publication.Publisher.Recover | claudlobby/config_install.py:375-392 | after any number of crashes anywhere, the next whole run of a steady publication ends with every row settled, the journal complete, no workspace that a durable journal ever named still there, and nothing apart from the outputs changed; without a crash exactly a smooth one does; whatever does not is refused, and for good |
| Publication.Publisher.ReachPoint | claudlobby/config_install.py:303-361 | from a row's turn the source's own statements reach each point of the plan, or are refused and leave a journal that every later life refuses |
| Publication.Publisher.StrandAt | claudlobby/config_install.py:257-275 | such a journal comes of a process that dies at any point of the plan where the replay has a row that is not legible |
| Publication.Publisher.Strand | claudlobby/config_install.py:257-275 | a prepared publication that is not steady can be left as a resumable journal of the same plan, its surroundings unchanged, with a row that is not legible, so that every later life refuses |
| Publication.NothingTorn | claudlobby/config_install.py:303-351 | in every recoverable state a target is its original, its desired node, or absent with the exact original kept beside it; never absent between files and links; untouched while no intent is durable |
| Publication.LookKeepsGuard | claudlobby/config_install.py:328-340 | a further check keeps the run's record of guarded renames |
| Publication.RenameKeepsGuard | claudlobby/config_install.py:328-344 | a rename keeps it exactly when its row's intent is durable and the check of that row was the last event but the swap's own rename |
| Transcripts.Boundaries | claudlobby/compactions.py:70-92 | one read gives the rows of the whole lines it completes and the offset past the last; only a file that shrank is an error |
| Transcripts.CollectRows | claudlobby/compactions.py:85-92 | the loop over the split lines finds the rows of every line |
| Transcripts.PastLastNewline | claudlobby/compactions.py:81-84 | the offset past the last newline, and 0 exactly when there is none |
| Transcripts.RowsSplit | claudlobby/compactions.py:70-92 | two reads that meet at a line start are one read |
| Transcripts.CursorOnLineStart | claudlobby/compactions.py:70-92 | a cursor ends on a line start exactly when the read began on one or completed a line |
| Transcripts.CursorInsideLine | claudlobby/compactions.py:157-161 | a read that begins inside a line and completes none leaves its cursor there |
| Transcripts.LineReadUnlessFirst | claudlobby/compactions.py:70-92 | a complete line in a read window is read, its row in place, exactly unless the read is unaligned and begins on that line's start |
| Transcripts.WholeLineDropped | claudlobby/compactions.py:157-161 | a window moved up to the cap that begins on a line start loses that line's row |
| Transcripts.Follow | claudlobby/compactions.py:143-161 | any sequence of aligned passes over an appended file equals one whole read: each row once, in order, no complete line left behind |
| Compactions.MaterialInjective | claudlobby/compactions.py:56-58 | event IDs of different bots, sessions or keys differ while the fields hold no separator |
| Compactions.ReadWindow | claudlobby/compactions.py:157-165 | bytes over the cap are skipped and counted, the rest read, and the account grows by exactly the stretches skipped, dropped and read |
| Compactions.ReadTranscript | claudlobby/compactions.py:143-165 | which transcripts are left out, kept unread, unreadable or read, from where, with which events, and exactly what this adds to the account |
| Compactions.ReadBot | claudlobby/compactions.py:121-169 | a pass over a bot reads each transcript so and keeps each offset and exactly the account its turn makes, its events and skipped bytes are theirs together, and it keeps the old state whole exactly when it cannot start or a transcript fails |
| Compactions.NothingMissed | claudlobby/compactions.py:143-169 | an account of nothing but reads means that every row of the complete lines is accepted and the cursor lies on a line start |
| Compactions.LineIsAccounted | claudlobby/compactions.py:143-169 | however a transcript was read, a complete line below the cursor has its row accepted, unless some of it lay before the follow, was skipped and counted, or was dropped by an unaligned read |
| Compactions.GentleRead | claudlobby/compactions.py:146-159 | a read that begins where an earlier one ended, or at 0, leaves no gap in the account |
| Compactions.Unique | claudlobby/compactions.py:190-192 | the batch names each ID once and drops none |
| Compactions.Emit | claudlobby/compactions.py:194-201 | the plane stores an ID at most once, and what it reports accepted is stored |
| Compactions.SameIdSameBot | claudlobby/compactions.py:203-212 | an ID belongs to one bot, so holding back by owner holds back the right cursors |
| Compactions.SettleAccounted | claudlobby/compactions.py:203-214 | the cursor that moves leaves no row read and not accepted, refused batches included |
| Compactions.Recorder.Append | claudlobby/compactions.py:70-74 | transcripts that grow keep every account |
| Compactions.Recorder.ReadAll | claudlobby/compactions.py:181-188 | the loop over the bots gathers every event under its own bot, with the states and accounts its readings leave |
| Compactions.Recorder.Record | claudlobby/compactions.py:193-202 | no error means that every event of the batch is on the plane, once |
| Compactions.Recorder.Pass | claudlobby/compactions.py:172-217 | whatever fails: the invariant stays, the ledger only grows, a pass that does not save keeps cursor and accounts, a bot with an event in a refused batch keeps its own, and every other bot with a next state moves to it and to exactly the accounts its readings made, its events on the plane |
| Compactions.Recorder.Take | claudlobby/compactions.py:172-217 | one turn, transcripts grown and then a pass, leaves exactly the cursor, ledger and accounts of that pass, so that the next account says what this one read |
| Compactions.WindowLineRecorded | claudlobby/compactions.py:143-165 | once a bot's events are on the plane, so is the row of every complete line in each window it read, but the one an unaligned read begins on |
| Compactions.Recorder.Run | claudlobby/compactions.py:172-217 | over any run of growing transcripts and failing passes no ID is on the plane twice; from an empty cursor, while no transcript is longer than a first read and a pass may take, every row of every complete line below a saved cursor is there |
| Compactions.Recorder.EveryLineAccounted | claudlobby/compactions.py:172-217 | the same line by line for every saved cursor of every run, whatever was skipped or dropped |
| TimerSchedule.CalendarDenotes | claudlobby/composer.py:4274-4286 | the expression of an anchored interval is due exactly at its position in each cycle |
| TimerSchedule.RankOrders | claudlobby/composer.py:4289-4305 | places are below the job count, rise with the order and are distinct |
| TimerSchedule.PlaceIsTaken | claudlobby/composer.py:4289-4305 | every place is some job's |
| TimerSchedule.SecondInBand | claudlobby/composer.py:4289-4305 | a job's second lies in its owner's band |
| TimerSchedule.SecondsDistinct | claudlobby/composer.py:4289-4305 | an owner's seconds are distinct exactly when its band holds all its jobs |
| TimerSchedule.SecondsAreSeconds | claudlobby/composer.py:4289-4305 | every owner's seconds are below 60 exactly up to 60 slots |
| TimerSchedule.SlotsDistinct | claudlobby/composer.py:4240-4265 | owners with a place on the host have distinct slots below the count |
| TimerSchedule.DueAtItsSecond | claudlobby/composer.py:4318-4359 | an anchored job is due once a cycle and only at its own second of the minute |
| TimerSchedule.NeverTogether | claudlobby/composer.py:4240-4359 | no two anchored units of a host are due in the same second, over all owners, jobs and times |
| BootLadder.IndexInTier | claudlobby/composer.py:4193-4218 | a listed bot's index counts the bots of its tier before it; an unlisted one gets 0 |
| BootLadder.HostBases | claudlobby/composer.py:4131-4190 | the walk gives the managers before this fleet, and all managers plus the workers before it; standalone off the ladder |
| BootLadder.BootDelay | claudlobby/composer.py:4193-4218 | a listed bot's delay is its rung times the stagger |
| BootLadder.RungsInRange | claudlobby/composer.py:4131-4218 | every manager before every worker, all below the host's bot count |
| BootLadder.RungsDistinct | claudlobby/composer.py:4131-4218 | no two bots of the host share a rung |
| BootLadder.RungsFilled | claudlobby/composer.py:4131-4218 | no rung is empty |
| BootLadder.AheadOfLoaded | claudlobby/config.py:963-998 | a fleet that loads has exactly one manager, so the managers of a host are as many as its fleets |
| BootLadder.StagedRungs | claudlobby/config_staging.py:217-229 | the staging loop gives every bot of every fleet its rung of the one ladder, so one bot to a rung |
| BootLadder.StagingAgrees | claudlobby/config_staging.py:217-229 | a staged fleet's rungs are the composer's, when both take the fleets in the same order; directories without a manifest do not count |
| BootLadder.OrdersAgree | claudlobby/config_staging.py:167 | for fleets side by side, the walk's order is staging's exactly when no name goes on from another with a character below the slash |
| BootLadder.StagedInOtherOrder | claudlobby/config_staging.py:167 | otherwise two fleets' managers change rungs between staging and the composer |
| Changelog.Structure | bin/changelog.py:69-84 | the loop computes the visible lines and the open fence of the automaton |
| Changelog.AutomatonComposes | bin/changelog.py:69-84 | running the automaton over two texts is running it over the first and then, from there, the second |
| Changelog.EntriesCompose | bin/changelog.py:87-89 | so entries add up over a join |
| Changelog.FragmentProblems | bin/changelog.py:92-118 | no problem is reported exactly for an acceptable fragment |
| Changelog.RollUpConserves | bin/changelog.py:121-135 | a roll-up has the old entries plus all the fragments', no more and no fewer |
| Changelog.RollUpKeepsTheRest | bin/changelog.py:121-135 | everything around the splice stays line for line, empty lines below the heading apart |
| Changelog.FencedHeadingConserves | bin/changelog.py:121-135 | under a heading inside a fence that the fragments leave as it was, entries are conserved exactly if none of theirs is hidden |
| Changelog.FencedHeadingHidesEntries | bin/changelog.py:121-135 | under a heading inside a fence, fragments without fences of their own add no entry |
| Changelog.HeadingRoundTrip | bin/changelog.py:145-152 | parsing a printed version heading recovers version and date |
| Changelog.ParsedIsPrinted | bin/changelog.py:145-152 | whatever parses is a printed heading |
| Changelog.CutRecovered | bin/changelog.py:145-152 | the version of a roll-up is recovered unless that heading already stood first |
| Changelog.RollUpAccepted | bin/changelog.py:250-255 | the checker accepts the assembler's output exactly when its version heading is new |
| Changelog.OnlyRollUpsAccepted | bin/changelog.py:250-255 | it accepts nothing else as a roll-up |
| Changelog.Assemble | bin/changelog.py:288-314 | refuses exactly on a bad fragment or a missing heading, and otherwise writes the roll-up |
| Checkin.Request.Settle | claudlobby/checkin_operations.py:117-152 | an earlier attempt ends in a proved answer or is proved absent; other content never passes |
| Checkin.Request.Arm | claudlobby/checkin_operations.py:153-178 | only the frozen fact, rebuilt exactly, is ever attempted, and only after the stage is unknown |
| Checkin.Request.EmitAndProve | claudlobby/checkin_operations.py:179-201 | success is returned only when the exact fact is proved committed |
| Checkin.Request.Record | claudlobby/checkin_operations.py:110-201 | the ledger gains at most the frozen fact, other content never emits or succeeds, an undisturbed call succeeds |
| Checkin.Request.Serve | claudlobby/checkin_operations.py:110-201 | over any calls, crashes and retries of one request the ledger holds at most one event under its ID |
| StopDoor.Door.StopBot | claudlobby/bot_operations.py:1138-1184 | the record is written first; a refusal before any effect leaves the unit, and asks for the record's removal exactly when the unit was installed |
| StopDoor.Door.StrayRecord | claudlobby/bot_operations.py:1145-1178 | a stop of a bot without a unit whose proof fails leaves its record, with no removal asked for |
| StopDoor.Door.Remove | claudlobby/bot_operations.py:1149-1175 | a removal after a written record is a meant stop; one that never began keeps the unit |
| StopDoor.Door.ClearOnStart | claudlobby/bot_operations.py:1037-1049 | after a start no record is left, or it is reported as kept |
| StopDoor.Door.StartBot | claudlobby/bot_operations.py:1247-1333 | a verified start has its unit, and no record it does not report |
| StopDoor.Door.RestartBot | claudlobby/bot_operations.py:1186-1333 | a restart needs an installed unit and leaves the record and a missing unit alone |
| StopDoor.Door.Run | claudlobby/bot_operations.py:1138-1333 | over any run of operations, failures and crashes, no look between two steps finds a meant stop without its record, and none forgets that a stop was meant while the unit stays away |
| AutomationLog.Store.Mutate | claudlobby/automation_state.py:166-215 | the state gains exactly the one entry or stays as it is; the answer is new, replay or conflict by the log alone |
| AutomationLog.Store.Commit | claudlobby/automation_state.py:198-213 | one entry joins the row's lists and the row still shows its log |
| AutomationLog.Store.Serve | claudlobby/automation_state.py:166-215 | over any calls histories only grow, uncalled bots keep their rows, and no request commits twice for a bot |
| AutomationLog.Store.Status | claudlobby/automation_state.py:98-115 | pause and run count are the log's, and a bot is eligible exactly when it is configured, stamped and not paused |
| AutomationLog.RowIsFold | claudlobby/automation_state.py:189-211 | request IDs are distinct across controls and runs, each committed entry is in one of them, and the bot is paused exactly when its last control is a pause |
| AutomationLog.LookupIsUnique | claudlobby/automation_state.py:189-197 | the search finds the one entry a request names, exactly if there is one |
| Envelope.RoundTrip | claudlobby/bot_operations.py:212-244 | parsing undoes printing for every one-line directory, valid time, either field, whatever the envelope tells its reader and any following text |
| Envelope.TextRoundTrip | claudlobby/bot_operations.py:212-244 | the same of the text itself, newlines and all: the printed envelope and then any characters give back exactly those |
| Envelope.OwnTextStays | claudlobby/bot_operations.py:227-236 | a text that does not open with a frontmatter and at once the begin line is returned unchanged |
| Envelope.StripsExactlyThePrinted | claudlobby/bot_operations.py:227-244 | any other text is split exactly where the printer's output for this directory ends, or refused |
| Envelope.SplitDirectoryIsRefused | claudlobby/bot_operations.py:212-244 | a directory of several lines can be printed and then refused |
| Hooks.Merge | claudlobby/composer.py:2644-2664 | the loop over the events computes the merged block |
| Hooks.MergedEvent | claudlobby/composer.py:2644-2664 | each loop event holds its foreign entries in order and then exactly one engine entry; other events are untouched |
| Hooks.LastWriterWins | claudlobby/composer.py:2644-2664 | a second merge leaves nothing of the first, so merging twice is merging once |
| Hooks.CommandSurvives | claudlobby/composer.py:2633-2641 | a foreign command survives exactly if some entry runs it without an engine command beside it |
| Hooks.SharedEntryIsLost | claudlobby/composer.py:2633-2641 | one that shares its entry with the engine's does not |
| Hooks.EntrySurvives | claudlobby/composer.py:2633-2664 | an entry survives a merge exactly if none of its commands ends as the engine's for that event |
| Hooks.SameEndingIsLost | claudlobby/composer.py:2633-2641 | a fleet's own command with that ending is dropped |

## Left out

- Resolved paths: a target is the path of its leaf with its parents resolved, so a link that is still on the way leads nowhere. Directories reached through links are not modelled: a target whose parent resolves by way of an earlier changed link is refused in the source even without a crash, since `_matches` compares the recorded parent.
- Preparation.Publish: an output that changes nothing and lies below a link that leads nowhere is excluded; the code accepts and publishes such a plan.
- Resolution.WalkAlike: links nested more than 40 deep are taken for a loop, a loop raises as it does in Python up to 3.12, and no link names a private workspace.
- Ownership, permission failures, fsync and the JSON of the journal: a save is one atomic durable step, and so is writing one new file.
- Inode numbers are never used again for a new directory, and SHA-256 is injective. A workspace that a journal named is gone when no directory with its inode number is at its path.
- Workspace names: the names mkdtemp makes are a kind of their own that no output uses, so a plan naming one is not modelled.
- Orphan workspaces: nothing is said about one left by a crash before its intent was saved.
- Outside changes between a check and the rename that follows it: the source cannot see them either; the model states which check each rename follows.
- Publication.Publisher.RemoveAll: while outside changes happen, the deletion works through the listing taken when the workspace was verified, and what it then leaves is not described.
- The identity checks of `_publication` (update phase, store root, fingerprint, retained blobs), and the native service steps around it.
- Builder inputs (`input`, `input_snapshot`), `read_rendered` and plan fingerprints.
- Reading a session's transcript: the parser of one line is any function, and directory listings, own-session choice and clocks are inputs of a pass.
- Compactions.Recorder.Pass: the counters for recorded and duplicate rows and the time fields of an event are not modelled; a fleet's and a bot's names hold no separator character.
- BootLadder.OrdersAgree: fleets nested under a system directory.
- Timers on macOS, fixed calendar strings and jobs that are not anchored, beyond their phase.
- Changelog.Structure: lines end at newlines only, and space and digits are the ASCII ones; the order of fragments by merge time is an input.
- The rest of the changelog checker: opt-outs, misnamed files and texts of refusals.
- Checkin.Request.Record: an emit takes effect when it is made or never, and the checks of the caller, the request UUID and the decision's content come before the model.
- StopDoor.Door.StopBot: the service manager is an outcome for each step; lifecycle rows, fences and session checks are not modelled.
- AutomationLog.Store.Mutate: the links of a run are already validated, a text's bound counts characters, and rows malformed on disk are not modelled.
- Envelope.RoundTrip: the lines between the markers are any lines, not the program's own; the parser works on a text's lines, and a byte is a character; `Envelope.TextRoundTrip` states the law for the text.
- Hooks.Merge: the vault's address comes quoted, and the order of events in the block is not modelled.
- Permission prose, unit files, Telegram, provenance, conformance, set-up and rendering: text assembly whose properties one reading settles.
