# A model of the hardware bench's logic, and proofs about it

The bench judges a smart-home core from outside. This project models six of its parts in Dafny and
proves what they promise over every input, every run and every schedule of the outside world.

- **The offline grading** (`tools/verify72h/grader.py`, `tools/verify72h/breakdown.py`). An exported event
  log is turned into commands (each row found by exact key, by one hop through a dispatch, or by the oldest
  command still open), the commands are classified, every timeout gets a cause, and eight invariants fold
  into one word. `Commands`, `Attach`, `Destinations`, `Conservation`, `Fifo`, `Causes`, `Blame`, `Pushdown`,
  `Runs`, `Grade`, `Grading`, `Soundness`, `Detectors` and `Fates` hold this part.
- **The live evidence run** (`ScenarioRun` in `tools/runner/engine.py`). A poll loop over a growing log, with
  positives in order, forbidden tokens scoped to anchors, deadlines, gated operator acts and a pinned snapshot
  of the runs. The log, the clocks, the keyboard and the API are arbitrary answers to the run's interactions
  (`EvidenceState.World`). `Scenarios`, `LogWindow`, `EvidenceState`, `Acts`, `NewRuns`, `ApiLines`, `Progress`,
  `Passing`, `Endings`, `Fixtures`, `Lenience` and `Evidence` hold it. The same class runs a scenario against a
  captured log, with or without scripted api responses.
- **The datum and its receipt** (`field_within`, bias, freshness, and attestation A3): `Decimals`, `Bands`,
  `Staleness`, `Verdicts`. Decimal arithmetic rounds to 28 significant digits, ties to even, as Python's default
  context does.
- **Templates** (`substitute`): constants first, operator entries later. `Templates`, `References`.
- **The power harness** (`tools/harness/harness.py`): guards, wait, spend the ledger, switch. `Harness`, `Cycles`.
- **Encodings and clocks** (`ulid_str`, `boot_read`, `iter_log_lines`): `Ulid`, `Clocks`, `Stamps`.

Code that updates objects in place is a class or a method with a loop, proved against a function of its inputs
or of the old state; code that computes is a function. What each such function computes is then stated without naming
it, condition by condition: `Destinations`, `Blame`, `Grading`, `Verdicts`, `References` and `Stamps` hold nothing
else. `Options`, `Events` and `Logs` hold the shared data and list lemmas.

Where the code does not do what its surroundings suggest, the code is modelled and the exact condition proved:

- `boot_read` recovers a true time exactly when each step is at least -12 h, no time is before the first line's
  midnight, and the step is under +12 h *or the time is still on the first day* (`Clocks.BootRecovers`): a gap
  of more than twelve hours inside the first day does no harm (`Clocks.LongFirstDayGap`).
- The two readers of stamps give every stamp the same instant if and only if the first stamp is at most half a day
  before the file's start, and every later one is less than half a day after the one before it or follows a stamp
  still on the first date (`Clocks.ReadersAgreeExactlyWhen`). Either can be the one that is right: on jitter back
  across a later midnight the boot reader is (`Clocks.JitterDivides`), on a long silence the dater
  (`Clocks.SilenceDivides`).
- `field_within` answers within if and only if the quotient, rounded to 28 digits, lies in the band
  (`Bands.WithinExactlyWhen`, for quotients from a tenth up to ten). So a reading on an edge is kept exactly when
  that edge rounds inward (`Bands.UpperEdgeKeptExactlyWhen`, `Bands.LowerEdgeKeptExactlyWhen`), and with both
  edges rounding inward every reading in the band is kept (`Bands.BandIsWithin`). `Bands.LongEdgeIsLost` is a
  reading on an edge of 29 digits that is answered outside, `Bands.LongEdgeCanBeKept` one that is kept.
  Within is true up to 5e-26 percentage points, and the slack is real (`Bands.RoundingAdmits`).
- An anchor's index can move back as well as on when a later line names the same token. A live PASS keeps forbidden
  tokens out past *every* index a satisfied line gave the anchor (`EvidenceState.NeverSeen`), so past the count-th
  match of any such line that extracts nothing (`Passing.PassMeansClear`). A fixture run checks its forbidden lines
  only once, at the end, against the last indices: the log A, bad, A with one positive for an A and one for two
  fails live and passes as a fixture (`Lenience.FixtureIsLenient`). A fixture PASS means what a live one does of
  forbidden lines if and only if nothing forbidden stands between an index its anchor was given and the last one
  (`Fixtures.DryPassExactlyWhen`).
- `eval_new_run_after` resolves its anchor twice, so a linted scenario can still meet its vacuous refusal: with
  `C.b` = "x", a let `v` holding the text "${C.b}" and the anchor "${let.v}", the log line matches "${C.b}" and
  the assert then looks for "x" (`ApiLines.VacuousRefusalExample`). With the earlier lines satisfied, an
  evaluation is so refused if and only if its names are bound, its read came, and, after asserts that all hold,
  an anchor resolves again to a token that was never observed; an anchor whose resolved text holds no reference
  never is (`ApiLines.VacuousExactlyWhen`).
- Resolving constants first and lets later agrees with one pass on every plain template if and only if no constant
  renders blank (`Templates.StagedExactlyWhen`, for constants without dollar signs and some let bound): a blank
  constant beside a let turns the text into the let's native value (`Templates.BlankConstantMisleads`).
- A read of the log that cuts a character in two decodes replacement characters for good
  (`LogWindow.CutCharacter`); whole characters are read as one read of the file would (`LogWindow.WholePieces`).

`dafny verify dfyconfig.toml` checks the whole project.

## Model

| member | source | states |
|---|---|---|
| Commands.TerminalsAre | tools/verify72h/grader.py:431-436 | the terminals are exactly the confirmations, the timeouts and the readable results that are no acknowledgement, each once, and the first one has the lowest position |
| Commands.OutcomesAre | tools/verify72h/grader.py:426-429 | the outcomes a command is classified by are exactly those of its readable results |
| Commands.DispatchedIffSuperseded | tools/verify72h/grader.py:444-460 | a command reads DISPATCHED if and only if every terminal it has is a superseded result |
| Commands.SettledHasTerminal | tools/verify72h/grader.py:444-460 | settled implies a terminal, and no terminal at all means unsettled DISPATCHED |
| Commands.TimeoutArmShape | tools/verify72h/grader.py:887-890 | the timeout arm is exactly: nothing confirmed, a timeout, and no result besides acknowledged and superseded |
| Commands.ClassifyMeans | tools/verify72h/grader.py:444-460 | each of the four words, and settled, by the rows: confirmed; else a readable result outside the three named outcomes fails; else an unconfirmed result or a timeout; else dispatched, settled exactly when the last readable result says superseded |
| Commands.NoTerminalMeans | tools/verify72h/grader.py:431-436 | no terminal means nothing confirmed, nothing timed out and every readable result an acknowledgement |
| Commands.WindowEndMeans | tools/verify72h/grader.py:438-442 | the pending window ends with the ending row of the lowest position, or, without one, 30 s (or the issue's own non-zero timeout) after the issue |
| Attach.OldestIsOldest | tools/verify72h/grader.py:473-488 | the fallback's answer is an open command that no open command was issued before, the first listed on a tie; none exactly when none is open |
| Attach.OpenFallback | tools/verify72h/grader.py:473-488 | the scan over the commands as they stand finds that oldest open command |
| Attach.FindTarget | tools/verify72h/grader.py:495-532 | the exact keys in their order, then the dispatch hop, then the fallback |
| Attach.Command.Attach | tools/verify72h/grader.py:506-534 | a row is appended to the one list its type names, and the other lists stay |
| Attach.EnrollCommands | tools/verify72h/grader.py:466-469 | one command object per issue id, in first-seen order, a repeated id replaced in place |
| Attach.AttachRow | tools/verify72h/grader.py:490-534 | one command changes, by that row; every other command object is as it was |
| Attach.BuildCommands | tools/verify72h/grader.py:463-538 | the loop over mutable commands computes the book the lemmas below are about: commands, unplaced rows, carried-in count |
| Destinations.IssuesListed | tools/verify72h/grader.py:466-469 | the commands are the issued ids, listed by first issue, each with the last issue row of its id |
| Destinations.PayloadKeyDecides | tools/verify72h/grader.py:506-518 | a confirmation or timeout whose command_event_id is an issue's id is held by that command, by that match, whatever its causation |
| Destinations.CausationDecides | tools/verify72h/grader.py:496-530 | any other row whose causation is an issue's id is held by that command, in the list of its type, by that match |
| Destinations.DispatchDecides | tools/verify72h/grader.py:523-524 | a result whose causation is a dispatch row that one command holds by then is held by it, by that match |
| Destinations.ResultFollowsDispatch | tools/verify72h/grader.py:503-524 | a result caused by an earlier dispatch row, the only one of its id: the command that holds the dispatch holds the result |
| Destinations.KeylessGoesToFirst | tools/verify72h/grader.py:473-538 | a row whose keys lead nowhere is held by the earliest issued command it may still close (same correlation, subject and named type, issued by then, no earlier end), the first listed on a tie; without one it is carried in inside the start grace and unplaced after it |
| Conservation.RowsConserved | tools/verify72h/grader.py:463-538 | attached, carried-in and unplaced rows together are the non-issue partition rows, each exactly as often as the log holds it |
| Conservation.EachRowPlacedOnce | tools/verify72h/grader.py:463-538 | with distinct positions every such row is in exactly one place, once |
| Conservation.RowsFiled | tools/verify72h/grader.py:506-538 | each list of a command holds rows of its own type, carried-in rows are inside the start grace and unplaced ones outside it |
| Fifo.FallbackIsFifo | tools/verify72h/grader.py:473-534 | for a pair whose commands and keyless terminal rows come in strictly rising time, the i-th row closes the i-th command and nothing else, whatever other rows lie between |
| Causes.NewestBeforeIsNearest | tools/verify72h/grader.py:931-942 | the row a cause is decided from is the relevant row of highest position before the issue |
| Causes.WalkBack | tools/verify72h/grader.py:931-942 | the backward scan finds the newest readable row and tells whether an opaque one is nearer |
| Causes.WalkForward | tools/verify72h/grader.py:948-971 | on position-ordered rows the forward scan, early break included, finds the first match, the first opaque report, every mismatch and the first late match |
| Causes.Decide | tools/verify72h/grader.py:977-992 | the five ordered steps give the cause of the declarative rule and name the opaque row that blocked it |
| Causes.BenchAndDevice | tools/verify72h/grader.py:910-993 | bench if and only if the newest row is readable and matches; device if and only if it mismatches with a value, a dispatch exists, and the window shows neither a match nor an opaque report |
| Blame.CauseIs | tools/verify72h/grader.py:910-993 | for a command that asks for true (turn_on) or false (turn_off): bench, device and each unattributed reason if and only if its own condition on the subject's newest relevant row, the dispatch rows and the reports of the window holds |
| Blame.RowIsBlamed | tools/verify72h/grader.py:910-993 | the whole row of a timed-out command by the rows of the log: what it copies, its cause, the prior, the opaque row that blocked it, the number of mismatches and the first late match |
| Blame.BookBlames | tools/verify72h/grader.py:882-907 | the block of a log has one row for each issued command that only timed out, in the order of first issue, naming it and blaming what the log shows |
| Causes.SeenNothingAfter | tools/verify72h/grader.py:954-956 | rows from the timeout on add nothing to the window's evidence, so the break loses nothing |
| Causes.TimeoutRow | tools/verify72h/grader.py:910-993 | one timed-out command's row, cause, prior, late match and mismatch count are those of the rule |
| Causes.TimeoutCauses | tools/verify72h/grader.py:849-907 | one row per command on the timeout arm, in book order, and the tables by cause, by reason and by subject and cause that count exactly those rows |
| Causes.TotalsAddUp | tools/verify72h/grader.py:849-907 | bench, device and unattributed rows add up to all rows, and the five reasons to the unattributed ones |
| Pushdown.BookOnPartition | tools/verify72h/breakdown.py:289-296 | the five partition types alone build the same book as the whole window |
| Pushdown.FirstPassSubjects | tools/verify72h/breakdown.py:297-298 | a first classifier pass names exactly the timeout arm's subjects, whatever state rows it saw |
| Pushdown.MergeRestores | tools/verify72h/breakdown.py:304 | partition rows and the arm's reports, sorted by position, are the window restricted to them |
| Pushdown.CausesOnRestriction | tools/verify72h/breakdown.py:304-305 | the classifier gives the same cause block on that restriction as on the whole window |
| Pushdown.SelectByBlob | tools/verify72h/breakdown.py:300-302 | mapping subjects back to blobs selects exactly the rows whose text is asked for |
| Pushdown.Breakdown | tools/verify72h/breakdown.py:280-305 | the two-pass read returns the commands, unplaced rows, carried count, arm subjects and causes of one pass over the whole window |
| Runs.BuildRuns | tools/verify72h/grader.py:543-567 | the loops compute the run book |
| Runs.RunOfId | tools/verify72h/grader.py:543-558 | the run of an id exists exactly when a trigger has that id, is opened by the last one, and holds, in log order, exactly the completions whose run_id and the cancellations whose cancelled_run_id it is |
| Runs.StrayRecord | tools/verify72h/grader.py:555-566 | a terminal record that names no triggered run is carried in inside the grace, and held by the carried run of that name after it |
| Runs.RunRecordsConserved | tools/verify72h/grader.py:543-567 | every terminal run record of any log is in exactly one run, or carried in inside the grace |
| Runs.TriggersConserved | tools/verify72h/grader.py:543-567 | with distinct run ids every trigger opens its own run |
| Grade.TerminalCounts | tools/verify72h/grader.py:634-672 | counting terminals by kind counts the lists they came from |
| Grade.GradePartition | tools/verify72h/grader.py:634-672 | word (i): an opaque result cannot be graded, an open command outside the end grace or a duplicate terminal fails, listed in order |
| Grade.GradeTerminality | tools/verify72h/grader.py:674-700 | word (ii) over the runs, with the open, edge-open and duplicated ones |
| Grade.GradeContradictions | tools/verify72h/grader.py:702-715 | word (iii) and exactly the confirmed commands that also time out or fail |
| Grade.GradeCompleteness | tools/verify72h/grader.py:717-735 | word (iv), the off-catalog and unplaced rows, each kept, in the order in which their ids first appear in the log, and the ambient count |
| Grade.SortByFirstInOrder | tools/verify72h/grader.py:728-729 | the unplaced list does not decrease in the position of the first row that carries its id |
| Grade.UnplacedAreRows | tools/verify72h/grader.py:727-729 | every unplaced row is a row of the log, so the key of the sort always exists |
| Grade.GradeReports | tools/verify72h/grader.py:737-772 | word (v) and exactly the reports inside a window that fail its expectation |
| Grade.GradeEffects | tools/verify72h/grader.py:1304-1376 | word (viii) and the runs that fail or are flagged |
| Grade.GradeWindow | tools/verify72h/grader.py:780-807 | the overall word is the fold of the eight words and the attestations' words |
| Grade.FoldPasses | tools/verify72h/grader.py:798-807 | the fold is PASS exactly when every word passes or does not apply |
| Grading.VerdictIs | tools/verify72h/grader.py:634-807 | CANNOT-GRADE, FAIL, FLAGGED and PASS each if and only if the rows say so: an unreadable result, an off-catalog or an unplaced row; else an unfinished, doubled or contradicted command or run or a run that miscounts; else a misreport or a hollow run; or an attestation |
| Grading.ExpectationMeans | tools/verify72h/grader.py:742-752 | the expectation of a command is what its first confirmation states, else what its type asks |
| Grading.FlagsIs | tools/verify72h/grader.py:737-767 | a report is flagged exactly when it lies between issue and window end, on the expected attribute, and is neither the same text nor the same number |
| Grading.FirstCompletionMeans | tools/verify72h/grader.py:1304-1376 | the completion a run is judged by is the one of the lowest position |
| Grading.IssuedIdsMean | tools/verify72h/grader.py:1304-1376 | the commands counted for a run are those of its trigger's correlation issued from the trigger up to the completion, each once |
| Grading.EffectWordMeans | tools/verify72h/grader.py:1304-1376 | a run fails exactly when its completion lacks a figure or, COMPLETED and triggered here, miscounts its commands; it is flagged exactly when it is COMPLETED with an action and no command |
| Soundness.PassIffSound | tools/verify72h/grader.py:634-807 | overall PASS if and only if the window is sound, command by command, report by report and run by run, and no attestation objects |
| Soundness.WholeLog | tools/verify72h/grader.py:463-567 | with distinct issue and run ids the log is the disjoint sum of issues, attached, sidelined, trigger, run-terminal, ambient and off-catalog rows |
| Soundness.NothingLost | tools/verify72h/grader.py:717-735 | when (iv) passes, nothing is left outside commands, runs, the start grace and the ambient whitelist |
| Detectors.DetectorsCoincide | tools/verify72h/grader.py:737-767 | on a strictly rising clock, a timeout-arm command's reports flagged by (v) number exactly its row's mismatches in the window |
| Detectors.SameReport | tools/verify72h/grader.py:949-971 | report by report, the ingest-time detector and the position detector agree |
| Fates.FateMeans | tools/verify72h/breakdown.py:264-277 | each of the nine fates if and only if the command's own rows, and on the timeout arm its cause, say so |
| Fates.ExclusionMeans | tools/verify72h/grader.py:1178-1192 | each reason to leave a send out, in its order, by the command's type, the block and its rows |
| Fates.ClassTable | tools/verify72h/grader.py:271-275 | which command types make up each class |
| Fates.ExclusionsAreFates | tools/verify72h/grader.py:1178-1192 | outside identify, the three exclusions are exactly the fates bench, superseded and edge-open |
| Fates.BlockHolds | tools/verify72h/grader.py:1170 | a command's row in the block carries its cause, and there is one exactly on the timeout arm |
| Fates.TallyAddsUp | tools/verify72h/grader.py:1174-1200 | issued is eligible plus the four exclusions |
| Fates.Fitness | tools/verify72h/grader.py:1170-1200 | the tallies by class and by subject and class are counts over the commands |
| Fates.FitnessAgreesWithFates | tools/verify72h/grader.py:1147-1202 | in a graded window the readings of a class, over all subjects or of one, are its commands counted by fate |
| Scenarios.Lint | tools/runner/engine.py:462-550 | one pass with the tokens collected so far accepts exactly the scenarios in which every run anchor is a plain token of an earlier line and every after names a token |
| Scenarios.MatchIndicesMean | tools/runner/engine.py:1421-1425 | the matches are exactly the matching lines, each once, in increasing order |
| Scenarios.ContainsMeans | tools/runner/engine.py:1421-1425 | a line contains a token exactly when the token's characters stand in it one after another |
| Scenarios.MatchIndicesGrow | tools/runner/engine.py:1421-1425 | a longer window keeps the matches it had, in place |
| Utf8.DecodeAfterText | tools/runner/engine.py:785 | whole characters decode first, whatever bytes follow |
| LogWindow.JoinSplit | tools/runner/engine.py:785-788 | joining the split pieces gives the text back, and no piece holds a newline |
| LogWindow.SplitResumes | tools/runner/engine.py:785-788 | splitting more text resumes from the unterminated tail |
| LogWindow.Reader.ReadWindow | tools/runner/engine.py:770-788 | a read of any file decodes exactly what lies past the offset, and the kept lines and the partial tail, joined, are what all reads decoded |
| LogWindow.Reader.Flush | tools/runner/engine.py:789-792 | a fixture's unterminated tail becomes a line |
| LogWindow.ReadInPieces | tools/runner/engine.py:770-792 | however the file grew between the reads, they leave the lines of the chunks decoded in turn |
| LogWindow.WholePieces | tools/runner/engine.py:785-788 | chunks of whole characters decode to what the whole file decodes to |
| LogWindow.WholeRead | tools/runner/engine.py:785-788 | where whole characters were appended, a read decodes exactly them |
| LogWindow.CutCharacter | tools/runner/engine.py:785 | a character cut by a read becomes two replacement characters |
| EvidenceState.SatisfiedMeans | tools/runner/engine.py:1416-1446 | a satisfied log line has its count of matches, and its index is one of them |
| EvidenceState.SatisfiedExactlyWhen | tools/runner/engine.py:1416-1446 | satisfied if and only if the references resolve, the count of matches is there and, for an extraction, the search on the last match yields a value whose number is at least the minimum's; the index is that last match, else the count-th |
| EvidenceState.RefusedExactlyWhen | tools/runner/engine.py:1432-1441 | refused over a number if and only if the last match yields a value and the value or the minimum is no number; otherwise it waits or is satisfied |
| EvidenceState.MarkYields | tools/runner/engine.py:1430-1443 | a satisfied extraction has its value for the rest of the run |
| EvidenceState.ResolvesExtends | tools/runner/engine.py:1399-1408 | binding more lets does not change what a forbidden line's tokens resolve to |
| EvidenceState.CheckedMeansNeverSeen | tools/runner/engine.py:1399-1414 | a clear check means no forbidden token past any index that a satisfied line ever gave its anchor |
| EvidenceState.NeverSeenExactlyWhen | tools/runner/engine.py:1399-1414 | with the present index clear, that holds if and only if nothing forbidden stands between an earlier index of the anchor and its present one |
| EvidenceState.MarkKept | tools/runner/engine.py:1416-1457 | a satisfied line means the same for any longer window and any more lets: same index, same tokens, same tokens shown |
| EvidenceState.BaseGrows | tools/runner/engine.py:2038-2049 | reading more log and binding more lets keep what every run keeps |
| EvidenceState.BaseStamped | tools/runner/engine.py:1444-1457 | so does a satisfied line: exactly the tokens of satisfied lines are indexed, each where the last such line put it; exactly the tokens some satisfied line showed are observed, each at an instant after the first line that showed it was judged and before the next one was |
| EvidenceState.GuardedStamped | tools/runner/engine.py:1444-1457 | a line satisfied right after a clear check leaves nothing forbidden between any index of an anchor and its present one |
| EvidenceState.HandledShown | tools/runner/engine.py:2038-2114 | a satisfied line has its count of matches in the window, its tokens indexed and a single token observed, for the rest of the run |
| EvidenceState.StampIsMatch | tools/runner/engine.py:1430-1443 | for a line without an extraction the index is its count-th match in the present window |
| Acts.GatedExtends | tools/runner/engine.py:2016-2027 | which acts a line releases does not depend on lets bound later |
| Acts.ReleasedSplits | tools/runner/engine.py:2016-2027 | every act is released or stays, once |
| Acts.ReleasesExactly | tools/runner/engine.py:2016-2027 | a log line whose references resolve releases an act if and only if the act's token, resolved, is one of its own |
| Acts.ReleasedInOrder | tools/runner/engine.py:2016-2027 | the released acts and the waiting ones each keep their order |
| NewRuns.FirstBoundMeans | tools/runner/engine.py:1950-2008 | the bound run is the earliest new run whose chain qualifies and the last whose chain is read; without one none of those read qualifies |
| NewRuns.RunVerdictMeans | tools/runner/engine.py:1949-2008 | the new runs are those not in the snapshot, in listed order, each chain read in turn up to the first that binds |
| NewRuns.BindExactly | tools/runner/engine.py:1957-2008 | a chain binds if and only if it was read, its matchedAt parses and is no earlier than the anchor's observation, and an action names an outcome; what is banked is that instant, those outcomes and whether triggeredAt falls in the same second |
| NewRuns.BoundIsProved | tools/runner/engine.py:1938-2008 | a bound run is absent from the snapshot, matched no earlier than the anchor was observed, shows an outcome, was listed by the read, and is what its chain, read then, says |
| NewRuns.LintObservesAnchors | tools/runner/engine.py:511-532 | the lint's order makes every anchor of an api line observed once the lines before it are satisfied |
| ApiLines.ApiStepSound | tools/runner/engine.py:1528-1627 | an api line that is ok has a proved run, listed by that read, for every new_run_after; it goes on record only if it says so; and it is refused as vacuous only over an anchor whose resolved text resolves anew to a token that was never observed |
| ApiLines.JudgeMeans | tools/runner/engine.py:1528-1627 | what each judgement of another assert makes of the line: an OUTSIDE fails it unless the line records |
| ApiLines.RunStepMeans | tools/runner/engine.py:1938-2014 | new_run_after is refused if and only if its anchor does not resolve or was never observed, and is else ok if and only if a run binds to that observation |
| ApiLines.AssertsDecide | tools/runner/engine.py:1528-1627 | the first assert that is not ok decides; when all are, the runs they bound are kept in order |
| ApiLines.ApiStepMeans | tools/runner/engine.py:1528-1627 | a line waits for its names, then for its read, then for its asserts |
| ApiLines.ApiStepKept | tools/runner/engine.py:1528-1627 | an evaluation that was not refused is judged the same after more was typed and observed |
| ApiLines.VacuousExactlyWhen | tools/runner/engine.py:1938-1944 | on a linted line with the lines before it satisfied, an evaluation is refused as vacuous if and only if its names are bound, its read came, and after asserts that all hold an anchor resolves again to a token never observed; such an anchor was observed and its text holds a reference |
| ApiLines.VacuousRefusalHappens | tools/runner/engine.py:1938-1944 | the refusal is reached for every let that holds the text of a reference to a constant of another text |
| ApiLines.VacuousRefusalExample | tools/runner/engine.py:1938-1944 | such a scenario, written out |
| Progress.BooksKept | tools/runner/engine.py:2038-2114 | every banked run stays backed by an evaluation that was ok, every line on record by one that put it there, every act by a satisfied line that releases it, however the run goes on |
| Passing.EstablishedStamped | tools/runner/engine.py:2074-2080 | a log line satisfied by what was just read and checked is one more positive behind the run, and nothing established is lost |
| Passing.EstablishedAnswered | tools/runner/engine.py:2062-2066 | so is an api line whose evaluation, made right after a read for it, was ok; its runs are banked |
| Passing.EstablishedRecorded | tools/runner/engine.py:2068-2072 | so is one that its evaluation puts on record |
| Passing.EstablishedDone | tools/runner/engine.py:2016-2027 | an act done now on account of the line just satisfied came after that line and before any read for a later one |
| Passing.PassIsSound | tools/runner/engine.py:2116-2127 | all positives behind, nothing on record and a last clear check: every log line was satisfied by what the log held at a read made for it, every extraction has its value, at least the minimum, every api line was answered ok at an evaluation right after one, every banked run was listed and its chain read, every anchor is satisfied, every act was in time, and nothing forbidden stands past any index of its anchor |
| Passing.PassMeansClear | tools/runner/engine.py:2116-2127 | a sound PASS leaves no forbidden token past the count-th match of a log line that names its anchor and extracts nothing |
| Endings.ApiEndExplained | tools/runner/engine.py:2053-2072 | where an evaluation of the api line in turn ends the run, the ending is that very evaluation, made after the last read for the line with its entries typed |
| Endings.LogEndExplained | tools/runner/engine.py:2073-2080 | where the log line in turn ends the run, the ending is its verdict on the window just read for it |
| Endings.ApiEnds | tools/runner/engine.py:2053-2072 | where each state of an api line leads: on, again, or to the end it names |
| Endings.LogEnds | tools/runner/engine.py:2073-2080 | and each verdict of a log line |
| Endings.ApiRefusalMeans | tools/runner/engine.py:1528-1627 | an evaluation is refused over a reference of its own line that does not resolve, or over an anchor of it that resolves anew to a token never observed |
| Endings.LogRefusalMeans | tools/runner/engine.py:1416-1446 | a log line is refused as unbound if and only if a reference of it does not resolve |
| Fixtures.FailureKept | tools/runner/engine.py:2138-2178 | why a fixture line failed stays true whatever the run observes afterwards |
| Fixtures.ScriptedMeans | tools/runner/engine.py:2213-2246 | the scripted answer is that of the first evaluation that decides, or, when none does, of the last response |
| Fixtures.DryPassIsSound | tools/runner/engine.py:2180-2197 | a fixture PASS says of positives, banked runs, anchors and acts what a live one does, with every line satisfied by the whole window and no forbidden token past an anchor's last index |
| Fixtures.DryPassExactlyWhen | tools/runner/engine.py:2180-2197 | the live promise about forbidden lines holds of it if and only if nothing forbidden stands between an index an anchor was given and its last one |
| Lenience.FixtureIsLenient | tools/runner/engine.py:2129-2197 | a scenario and a log on which the last check of a fixture is clear and the check a live run makes in between is a hit |
| Fixtures.DryObserves | tools/runner/engine.py:2142-2158 | without a failure before it, every anchor of an api line is observed when its turn comes |
| Evidence.ScenarioRun.ReadWindow | tools/runner/engine.py:770-788 | a live read leaves exactly the complete lines of the log as it is now |
| Evidence.ScenarioRun.SnapshotRuns | tools/runner/engine.py:942-966 | a scenario with new_run_after keeps its first attempt, a failed one included; any other re-reads |
| Evidence.ScenarioRun.CheckForbidden | tools/runner/engine.py:1399-1414 | clear exactly when no forbidden token stands in its scope; a hit names the first forbidden line that has one and a line of its scope that holds it; unresolved names the first that does not resolve |
| Evidence.ScenarioRun.StampTokens | tools/runner/engine.py:1444-1456 | every token takes the index; only those a match contains are observed, at an instant taken during the stamping; the earliest observation stays |
| Evidence.ScenarioRun.Observe | tools/runner/engine.py:1453-1457 | a new observation is taken at this very interaction, an earlier one stays |
| Evidence.ScenarioRun.EvalLogLine | tools/runner/engine.py:1416-1457 | the verdict is the declarative one, and only a satisfied line stamps, at this evaluation |
| Evidence.ScenarioRun.ReadChain | tools/runner/engine.py:1953-2008 | one chain is judged by its own matchedAt and outcomes, never by triggeredAt |
| Evidence.ScenarioRun.EvalNewRunAfter | tools/runner/engine.py:1938-2014 | the loop over the new runs binds the first that qualifies, each chain read once and in turn, none after it |
| Evidence.ScenarioRun.EvalApiLine | tools/runner/engine.py:1528-1627 | the asserts are judged in order on one read, the first that is not ok decides, and the bound runs and the interactions used are those of the declarative step |
| Evidence.ScenarioRun.EnsureOperatorLets | tools/runner/engine.py:1059-1077 | live, every needed entry is bound to what was typed during the call, none is rebound, none declared after the last needed one is typed, and it gives up only when the last interaction asked for an unbound entry and got none; dry, nothing is typed |
| Evidence.ScenarioRun.FireAct | tools/runner/engine.py:2016-2027 | one act is done if and only if the line names its token, and only with its entries typed |
| Evidence.ScenarioRun.FireGatedActs | tools/runner/engine.py:2016-2027 | the acts done are exactly those that name a token of the line, in order, with their entries typed; the others stay, in order; if the firing stops, only a prefix of them was done |
| Evidence.ScenarioRun.PollOnce | tools/runner/engine.py:2047-2080 | one read, one check, one evaluation: the poll ends as the declarative verdict on that very window says, keeps everything established, and explains any verdict |
| Evidence.ScenarioRun.PollLine | tools/runner/engine.py:2038-2113 | the positive in turn ends behind the run only satisfied, answered or on record, or else with an explained verdict; every read it makes is for that positive, at least one and at most floor(within / poll) + 2 |
| Acts.NoActIsLeft | tools/runner/engine.py:2016-2027 | once every positive is handled, every gated act of a linted scenario was released |
| Evidence.ScenarioRun.RunEvidence | tools/runner/engine.py:2029-2127 | at every ending all that was established holds: each act done came after its line was satisfied and none twice, each let was given or typed, no positive was polled past its bound, a pinned snapshot stays. PASS is sound for the complete lines of the log as last read, ends with the closing read and did every gated act; any other verdict is explained by the positive, forbidden line or act the run was at |
| Evidence.ScenarioRun.Stimulate | tools/runner/engine.py:2475-2484 | the first marker pins the snapshot before any evidence |
| Evidence.RunScenario | tools/runner/engine.py:2470-2485 | the same from construction on, with the banked runs proved against the read at the first marker |
| Evidence.ScenarioRun.RunEvidenceDry | tools/runner/engine.py:2129-2197 | at every ending all that was established holds; a fixture PASS is sound for all its lines and did every gated act once; any other verdict is explained, a failed line by the first that failed |
| Evidence.RunFixture | tools/runner/engine.py:2470-2485 | the same from construction on, with the banked runs absent from the read at the first marker |
| Evidence.ScenarioRun.EvalScripted | tools/runner/engine.py:2213-2246 | the poll loop over the scripted responses ends with the answer of the declarative step |
| Evidence.ScenarioRun.PollScripted | tools/runner/engine.py:2213-2246 | an api line fails if and only if that answer is wrong, or not enough on a line that records nothing; it banks its runs if and only if the answer is ok |
| Evidence.ScenarioRun.DryApi | tools/runner/engine.py:2142-2168 | without responses an api line is only planned; after a failure it is skipped when its anchor is unobserved; else it fails exactly when its scripted answer does |
| Evidence.ScenarioRun.DryLog | tools/runner/engine.py:2169-2178 | a log line of a fixture fails exactly when the window does not show it, is refused exactly when its verdict is, and otherwise stamps exactly as the verdict says |
| Decimals.RoundMonotone | tools/runner/engine.py:2362-2368 | rounding to 28 digits keeps the order of any two values |
| Decimals.RoundShift | tools/runner/engine.py:2365 | ten times a value rounds to ten times its rounding |
| Decimals.TiesToEven | tools/runner/engine.py:2362-2368 | a value of 28 integer digits rounds to the nearest integer, the even one of two |
| Decimals.RoundNegates | tools/runner/engine.py:2362-2368 | rounding is the same on both sides of zero |
| Decimals.IntegerFits | tools/runner/engine.py:2355-2362 | an integer of at most 28 digits is exact |
| Bands.ExactIsBand | tools/runner/engine.py:2318-2368 | computed exactly, within means 100 * abs(value - reference) <= tolerance * reference on the effective operands |
| Bands.ScaleInvariant | tools/runner/engine.py:2318-2368 | computed exactly, state, ratio and deviation do not depend on the operands' unit |
| Bands.BandIsWithin | tools/runner/engine.py:2318-2368 | with exact operands and edges that round inward, every reading in the band, edge included, is answered within |
| Bands.WithinExactlyWhen | tools/runner/engine.py:2355-2368 | for quotients from a tenth up to ten, within if and only if the rounded quotient lies in the band |
| Bands.UpperEdgeKeptExactlyWhen | tools/runner/engine.py:2364-2368 | a reading on the upper edge is answered within if and only if that edge rounds inward |
| Bands.LowerEdgeKeptExactlyWhen | tools/runner/engine.py:2364-2368 | so is one on the lower edge |
| Bands.WithinIsNearBand | tools/runner/engine.py:2364-2368 | for quotients from a tenth up to ten, within implies a true deviation of at most the tolerance plus 5e-26 |
| Bands.UsualTolerance | tools/runner/engine.py:2339-2343 | every tolerance below 900 % with at most 25 decimals has exact edges, which therefore round inward |
| Bands.RoundingAdmits | tools/runner/engine.py:2364-2368 | at tolerance zero two different readings are answered within |
| Bands.LongEdgeIsLost | tools/runner/engine.py:2364-2368 | a reading exactly on an edge of 29 digits, which rounds outward, is answered outside |
| Bands.LongEdgeCanBeKept | tools/runner/engine.py:2364-2368 | a reading exactly on another edge of 29 digits, which rounds inward, is answered within |
| Verdicts.UndecidedWhen | tools/runner/engine.py:2339-2360 | refused, bad-reference, void, no-datum and decided, each if and only if the operands say so |
| Verdicts.ExactVerdict | tools/runner/engine.py:2318-2368 | computed exactly: within if and only if the value less its offset is within the tolerance of the reference less its tare |
| Verdicts.UnbiasedVerdict | tools/runner/engine.py:1687-1746 | without a bias WITHIN if and only if that holds and the witness is fresh |
| Verdicts.BiasedVerdict | tools/runner/engine.py:1731-1743 | with a bias WITHIN if and only if the value is within the tolerance of the reference raised by that percentage, and the witness is fresh |
| Verdicts.RefusesWhen | tools/runner/engine.py:1687-1746 | an evaluation refuses if and only if the tolerance, the bias or, for a decided datum, the window is no usable number |
| Verdicts.VoidsWhen | tools/runner/engine.py:2371-2408 | an evaluation voids if and only if the reference is not positive, or a decided datum's witness is unknown or older than its window |
| Verdicts.DeadlineMeans | tools/runner/engine.py:1809-1841 | a deadline stamps the last receipt VOID and keeps the rest of it; without one it stamps a receipt that decides nothing |
| Staleness.VerdictIsState | tools/runner/engine.py:1711-1746 | the receipt's verdict is the final state |
| Staleness.FreshnessOnlyVoids | tools/runner/engine.py:2371-2408 | freshness leaves a state or voids a decided one; nothing becomes WITHIN by it |
| Staleness.WithinExactly | tools/runner/engine.py:1704-1746 | WITHIN if and only if the operands and the bias are usable, the judged deviation is in the band, and the witness is proved fresh |
| Staleness.WithinIsTrue | tools/runner/engine.py:1704-1746 | a WITHIN receipt without a bias has a true deviation in the band to 5e-26 percentage points, and its witness was fresh |
| Staleness.NeverStalePass | tools/verify72h/grader.py:1512-1544 | no receipt of an evaluation is filed as a stale pass or a missing witness |
| Staleness.DeadlineNeverStale | tools/runner/engine.py:1809-1841 | neither is one stamped at the deadline |
| Staleness.AttestA3 | tools/verify72h/grader.py:1512-1544 | A3 fails if and only if some receipt with a window was passed or failed with a witness that is missing or, as floats, older; it lists exactly those, and does not apply exactly when no receipt carries a window |
| Staleness.BinMeans | tools/verify72h/grader.py:1512-1544 | which receipts are unchecked, stale passes, missing witnesses and voids on a stale witness |
| Staleness.A3HoldsForTheRunner | tools/verify72h/grader.py:1512-1544 | A3 finds nothing in any list of receipts the runner can bank |
| Templates.ScanUnscan | tools/runner/engine.py:73 | text built from plain characters and references scans back to exactly those pieces |
| Templates.WholeScans | tools/runner/engine.py:228-233 | a string that is one whole reference is that reference among blanks |
| References.LookupWalks | tools/runner/engine.py:215-222 | a dotted reference reads exactly the value its segments lead to, one map entry each |
| References.AloneReads | tools/runner/engine.py:228-234 | a reference alone among blanks becomes what it reads, as it is; a let of the first stage waits |
| References.MixedReads | tools/runner/engine.py:236-240 | any other text is refused if and only if a reference due in this stage reads nothing, and is else its pieces in order, references rendered, lets of the first stage written back |
| References.DepthReads | tools/runner/engine.py:241-246 | lists and maps are refused if and only if a part is, and keep their order and their keys; anything but text stays |
| References.ResolveMeans | tools/runner/engine.py:722-723 | a token resolves exactly when its substitution is text |
| Templates.StagedIsFull | tools/runner/engine.py:2462-2465 | constants first and lets later equals one full substitution, refusals included, through every nested list and map |
| Templates.BlankConstantMisleads | tools/runner/engine.py:225-246 | with a blank between a constant that renders blank and any let, the two stages give the native value and one pass gives text |
| Templates.StagedExactlyWhen | tools/runner/engine.py:2462-2465 | for constants free of dollar signs and some let bound, the two stages agree with one pass on every plain template if and only if no constant renders blank |
| Templates.ResolveExtends | tools/runner/engine.py:722-723 | a token that resolves keeps its value as more lets are bound |
| Templates.ResolveTwice | tools/runner/engine.py:1938-1939 | resolving again changes nothing when the resolved text holds no reference |
| Harness.Ledger.RecordCycle | tools/harness/harness.py:144-150 | exactly one stamp is added to the ledger, under its label, and the stamps of every other label stay |
| Harness.Ledger.RecentStamps | tools/harness/harness.py:167-178 | the stamps of the last span, under any label |
| Harness.Ledger.LastCycleAnywhere | tools/harness/harness.py:157-164 | the latest stamp under any label, none exactly when there is none |
| Harness.EvaluateGuards | tools/harness/harness.py:201-315 | the guard table clears exactly the acts that every rule allows |
| Harness.AllowedMeans | tools/harness/harness.py:201-315 | allowed if and only if the plug is declared and, by its first declaration, fits, the offsets fit its window, its profile's reset dance is kept out of reach, the label has room and no stamp is within the gap |
| Cycles.SpendStaysLawful | tools/harness/harness.py:242-313 | a lawful ledger stays lawful when an allowed act spends it after its wait |
| Cycles.TraceIsSafe | tools/harness/harness.py:581-622 | over every run of acts, at every moment of every act, planned, spent or switched, the ledger is lawful and the offs sent never outnumber the stamps this run has added |
| Cycles.ActEffect | tools/harness/harness.py:581-622 | an act that is not allowed, is dry or has no token changes nothing; any other adds its waking time under its label, and one off |
| Cycles.Station.Cycle | tools/harness/harness.py:581-622 | the exact moments an act adds, planned, then spent, then switched, the ledger it leaves and what it sends to the plug, for every ending, each moment safe |
| Cycles.Station.SwitchOff | tools/harness/harness.py:599-622 | the off is sent only when the ledger holds a stamp added in this run that no earlier off used |
| Cycles.RunActs | tools/harness/harness.py:581-622 | the moments of a run are exactly the trace of its acts, whatever acts are tried under whatever labels |
| Cycles.LawfulHasNoDance | tools/harness/harness.py:167-178 | no closed interval of length min-gap * resetCycles holds more than resetCycles - 2 stamps, and any two are at least min-gap apart |
| Ulid.TextIsUlid | tools/verify72h/export.py:128-141 | 16 bytes become 26 Crockford letters, the first at most '7' |
| Ulid.DecodeOfText | tools/verify72h/export.py:132-141 | a base-32 decoder gives the bytes back |
| Ulid.TextOfDecode | tools/verify72h/export.py:132-141 | every such text is the text of the bytes it decodes to |
| Ulid.TextOrderIsByteOrder | tools/verify72h/export.py:132-141 | text order is byte order |
| Ulid.UlidStrInjective | tools/verify72h/export.py:128-141 | no two ids, of any lengths, share a text |
| Clocks.BootRead | tools/runner/boot_timing.py:24-36 | the loop returns the first stamp and, for every slot, the time of its first stamped line |
| Clocks.BootRecovers | tools/runner/boot_timing.py:24-36 | the true times are recovered if and only if every step is a boot step |
| Stamps.StampIs | tools/runner/boot_timing.py:26-27 | the stamps read are those of the stamped lines, in order |
| Stamps.TimesAre | tools/runner/boot_timing.py:24-36 | each time is its stamp some whole days on, the fewest that leave it no more than half a day behind the time before |
| Stamps.SlotMeans | tools/runner/boot_timing.py:24-36 | a slot reads the time of the first stamped line that matches it, counted from the first stamp |
| Clocks.LongFirstDayGap | tools/runner/boot_timing.py:24-36 | a gap of more than twelve hours on the first day is recovered |
| Clocks.IterLogLines | tools/verify72h/export.py:243-280 | the dater's loop gives every line the instant of the dating rule, unstamped lines riding on the last |
| Stamps.DatesStep | tools/verify72h/export.py:243-280 | the date moves on by a day exactly when a stamp falls more than half a day behind the one before, the first behind the file's start |
| Stamps.LineDated | tools/verify72h/export.py:243-280 | each line is dated by the last stamp up to it, its own if it has one; before any stamp, by the file's own |
| Clocks.ReadersAgreeExactlyWhen | tools/runner/boot_timing.py:24-36 | on any stamps the two readers agree if and only if the first is at most half a day before the start and every later one is less than half a day on or follows one on the first date |
| Clocks.ReadersDisagree | tools/verify72h/export.py:243-280 | where they disagree there is an early first stamp or a long silence after the first date |
| Clocks.DaterRecovers | tools/verify72h/export.py:243-280 | the true dates are recovered if and only if every step is a date step |
| Clocks.ReadersAgree | tools/verify72h/export.py:243-280 | without a step back across midnight and with steps under twelve hours the two readers agree line by line, by that condition |
| Clocks.JitterDivides | tools/runner/boot_timing.py:24-36 | jitter back across a later midnight is recovered by the boot reader and not by the dater |
| Clocks.SilenceDivides | tools/verify72h/export.py:243-280 | a long silence on a later date is recovered by the dater and not by the boot reader |

## Left out

- Files, SQL text, subprocesses, HTTP, JSON, YAML and argument parsing: the model starts from parsed rows and from arbitrary answers of the outside world.
- Reports, tables, evidence strings, operator blocks, captures of raw bodies and bundles: formatting only. Figures a receipt prints with a fixed number of places are kept exact.
- Attestations A1a, A1b and A2, link tables and the vocabulary walk: library-bound or short; their words enter the fold as given.
- The soak numbers of (vii), and the restart, probe and store-growth readings of fitness: counters.
- Values are compared through two readings, the folded text and the number; how Python computes `str`, `strip`, `lower` and `float` is not modelled.
- The post-window capture of a failed command read, `extracted` values and `satisfied_lines`: they decide nothing.
- Causes.TimeoutCauses: does not model `breakdown`'s printed tables, because they are counts of its rows; ages are kept as microsecond differences.
- Runs.RunOfId: says nothing of an id that begins with "carried:", the code's own prefix for the runs it makes up, because a stray record can join such a run; `Runs.RunRecordsConserved` covers it.
- Runs.StrayRecord: likewise.
- Fates.Fitness: does not model the printed ratio, because the counts it divides are there.
- Scenarios.Lint: does not model the refusals of unknown keys, types and shapes in the same span, because the model starts from scenarios of the right shape.
- Cycles.RunActs: does not model the `power` verb, concurrent runs on one ledger, corrupt ledger files or cycles without a profile, which are outside the safety claim.
- Utf8.DecodeAfterText: malformed bytes are replaced one at a time, which can differ from Python's count of replacement characters.
- Evidence.ScenarioRun.ReadWindow: the run's log is appended to by whole characters; a file replaced by a shorter one is modelled in `LogWindow` only.
- Evidence.ScenarioRun.Stimulate: models the snapshots of the markers; the log a bench act replaces and the byte offset of the marker are fixed before the run's window opens.
- Evidence.ScenarioRun.EvalApiLine: takes every assert other than `new_run_after` as an arbitrary judgement of the read; `field_within` is modelled on its own in `Bands` and `Staleness`.
- Evidence.ScenarioRun.EvalLogLine: a token that resolves to a value that is not text counts as unresolved, where the engine stops with a traceback; `min:` is compared as parsed.
- Evidence.ScenarioRun.EnsureOperatorLets: a refused entry that is typed again, and a floor that is no number, are part of the keyboard's answer.
- Evidence.ScenarioRun.RunEvidenceDry: a scripted response list is modelled by how many polls it grants a line, so a path the fixture never scripted is not modelled.
- Bands.BandIsWithin: decimal exponents are unbounded, so overflow and underflow at the context's limits are not modelled.
- Staleness.NeverStalePass: takes the rounded witness age as given, and the grading's floats as any reading that keeps order.
