# Scheduler and configuration logic of Autosubmit, in Dafny

Autosubmit runs workflows of climate experiments: it builds a configuration from many files,
expands it, keeps a graph of jobs, submits the jobs to remote platforms, some of them packed
into wrappers, and follows them until they end. This project models the parts of it that are
hardest to get right and proves what they are relied on for.

The modules, in the order in which they build on each other:

- **Configuration.** `ConfigTree` has the tree of mappings, texts and lists, the merge
  (`deep_update`) and the fill-in of defaults. `Flatten` has the export to dotted names by an
  explicit stack. `Placeholders` cuts texts at their placeholders and says which there are. `Substitution` has what the code
  does to replace them, pass after pass, in variables that are texts or lists of texts;
  `Expansion` is the theory of texts that refer to each other, `Rewriting` what one visit of a
  variable does to the tree, and `FullSubstitution` the main result, for a configuration or for a
  part of it while variables of other parts are registered. Lists of one element, which the code
  treats differently, are in `OneElementLists`, and small cases in `ListCases`. `Digraph` supplies
  paths, cycles and heights. FOR sections are read in `LoopReading`, their lists written as texts
  and taken apart at commas in `ForValues`, and `ListWriting` shows that lists are spliced into texts
  the way they are written there; `ForLoops` says what their expansion means, and
  `LoopExpansion` runs it, with the substitution in every copy. `Loading` loads CUSTOM_CONFIG
  files and folders that may name each other in circles.
- **Wrappers.** `Jobs` has jobs as objects, the platform as a tape of arbitrary answers, and the
  work list that fails descendants. `WrapperSteps` gives every step of a wrapper as a function
  of its state, of the state of the jobs and of the answers; the class in `Wrappers` changes its
  fields and those of the shared jobs in place and is proved to follow those functions;
  `WrapperSafety` proves what all the steps, and whole runs, keep. `WrapperDecisions` and
  `WrapperOutcomes` say what becomes of each job and of the wrapper in statuses and numbered answers,
  without those functions. Nothing is assumed about the answers.
- **Energy.** `Levels` builds the levels of the jobs of a wrapper. `Energy` has the three wrapper
  strategies as methods that set the energies of job records. `Conservation` bounds how far the
  stored energies are from what was measured, `JobEnergies` says what each single job ends with, and `KeptEnergy` says when old energy is kept and
  when energy is lost. Numbers are exact; rounding is to the nearest, half to even.
- **Command line.** `ChunkFormula` parses the formula of dates, members and chunks, `JobFilter`
  selects the jobs, and `Selection` joins the two. `Recovery` has the attempts to recover a run
  after an error.
- **Persistence.** `Identifiers` and `Allocation` have the base-36 identifiers and the search for
  a free one. `Structure` saves a graph of jobs as rows and reads it back.
- `Options`, `Sequences`, `Splitting`, `Decimals` and `JobRecords` are shared.

## Where the code and its promises part

Each of these is proved, with the exact condition under which the promise holds, or a bound on how
far it is missed, and with a case in which it fails.

- The merge is not associative: `MergeAssociativeExactly` has the condition,
  `MergeNotAssociative` a case, and trees that agree on what is a mapping always meet it.
- Substitution expands texts and lists of several texts in every order of visits
  (`SubstitutionIsFullExpansion`). A list of one text becomes a text with its first splice, and from
  the second on its element is spoilt: it ends expanded in every order if and only if at most one of
  its placeholders finds something and that holds no placeholder that does
  (`OneElementListsExactly`). `TwoSplicesSpoil` and `OrderMatters` are cases; nothing else is affected
  (`OtherLeavesExpand`).
- The lists of a FOR section are written as one text and taken apart at commas.
  `ReadListsSurviveExactly` says which lists of texts come back, `ListsSurviveExactly` which do when
  they have not been read before, and a list within a list never does (`NestedListIsTorn`).
- The setter of `energy` in `autosubmit/history/data_classes/job_data.py:188-198` stores only
  positive energies and rounds them. So the straight strategy has an error of rounding to two
  decimals that the strategy itself does not show (`RoundingIsNotConserved`), and a job whose share
  is not positive keeps the energy it had (`KeptEnergyIsNotMeasured`). For each strategy
  `StraightKeepsNothingIff`, `GeneralizedKeepsNothingIff` and `TwoDimKeepsNothingIff` say in
  weights, measured and old energies when nothing is kept, and bound the error then.
- The energy to be shared is lost when no weight is seen in its share of the total
  (`RestIsLostIff`). With fewer than 20000 jobs that means that no job has a weight
  (`FewJobsLoseOnlyWithoutWeight`, `RestIsLost`); with more than 20000 jobs it also happens with equal
  weights (`ManyJobsLoseTheRest`).
- The first pass of the job filter lets "ANY" replace the dates and members that were named
  before it. `FilterIsExactIff` says for which jobs that matters (dates or members that are not
  those of the experiment), `LaterAnyLosesAJob` is one. And of the chunks only the last is asked
  for "ANY": the same chunks in two orders select the same jobs if and only if both end with it or
  neither does (`ChunkOrderMattersExactly`, `ChunkOrderMatters`).
- The levels of a wrapper come to an end exactly when no root leads to a cycle (`LevelsEndIff`).
- A loop on a node without other edges is stored like an isolated node: `SameRowsIff` says which
  graphs cannot be told apart, `RecoveredIff` when the graph is read back.
- `0000` is the one identifier of four characters that is written back differently, as `0`;
  `EncodeDecode` is an equivalence.
- The run is given up when the limit of attempts is reached even if the last attempt succeeds.
- In `update_failed_jobs` the copies that running jobs are looked up among are other objects, so
  no job is ever found, and the list of followed jobs is left empty. In `_check_running_jobs` the
  poll is made once, whatever `retries` says.

## Model

| member | source | states |
|---|---|---|
| ConfigTree.Merge | autosubmit/config/configcommon.py:480-502 | the merge holds the keys of both sides, and keeps the values of keys that the update does not have |
| ConfigTree.DeepUpdate | autosubmit/config/configcommon.py:480-502 | the in-place recursion, with its blank placeholders and its comparison of lists, gives the merge |
| ConfigTree.CoveredExactly | autosubmit/config/configcommon.py:480-502 | updating changes nothing exactly when every entry of the update is already there |
| Flatten.MergeAtPath | autosubmit/config/configcommon.py:480-502 | what a merge holds at any path: the leaf of the update and nothing below it, a mapping with the keys of both where the update has a mapping, and elsewhere what was there |
| ConfigTree.MergeIdempotent | autosubmit/config/configcommon.py:480-502 | applying the same update twice is applying it once |
| ConfigTree.MergeAssociativeExactly | autosubmit/config/configcommon.py:480-502 | merging three trees does not depend on the grouping, if and only if no mapping is uncovered by a leaf in between |
| ConfigTree.ConsistentTreesAssociate | autosubmit/config/configcommon.py:480-502 | on trees that agree on what is a mapping the merge is associative |
| ConfigTree.MergeNotAssociative | autosubmit/config/configcommon.py:480-502 | three small trees whose two groupings differ |
| ConfigTree.AddMissing | autosubmit/config/configcommon.py:2065-2076 | filling in missing defaults raises an error exactly when a leaf of the data stands where the defaults have a non-empty mapping, and otherwise gives the merge of the defaults with the data |
| ConfigTree.ConsistentTreesAreFillable | autosubmit/config/configcommon.py:2065-2076 | consistent trees never fail to be filled in |
| Flatten.DeepParametersExport | autosubmit/config/configcommon.py:2079-2096 | the loop over a stack ends and gives every leaf under its dotted name, as the recursive definition does |
| Flatten.NoTwoLeavesCollide | autosubmit/config/configcommon.py:2079-2096 | with plain keys, two leaves have the same name only if they are the same leaf, and each is found under its name |
| Flatten.DottedGrows | autosubmit/config/configcommon.py:2079-2096 | a dotted name is made of the keys in order with a dot between any two |
| Flatten.MergeOverlaysExactly | autosubmit/config/configcommon.py:480-502 | the leaves of a merge are those of the update over those of the base, if and only if no leaf of the base meets a mapping and no mapping that holds a leaf meets a leaf |
| Flatten.ConsistentTreesOverlay | autosubmit/config/configcommon.py:480-502 | consistent trees overlay cleanly |
| Flatten.ExportCommutesWithMerge | autosubmit/config/configcommon.py:2079-2096 | exporting a merge is exporting both sides and letting the update win |
| LoopReading.ReadForValues | autosubmit/config/configcommon.py:1210-1220 | the values of a FOR are written as texts, and those with placeholders registered; fails exactly on values that cannot be read, such as an empty list |
| LoopReading.ReadLoops | autosubmit/config/configcommon.py:1191-1225 | the recursion fails exactly on unreadable loops, and otherwise records the paths of the FOR sections, registers the texts and lists with placeholders under their paths, and writes the values of the loops |
| LoopReading.RegisteredExactly | autosubmit/config/configcommon.py:1191-1225 | under which names and with which values: outside of FOR the texts and lists with placeholders as they are; of the values of a FOR, unless they start with a mapping, those whose text, without brackets at its ends and without quotes, has a placeholder, as that text |
| LoopReading.RecordedExactly | autosubmit/config/configcommon.py:1191-1225 | the recorded paths are those of the sections with a FOR that are not below another one |
| LoopReading.RecordedAreLoopPaths | autosubmit/config/configcommon.py:1191-1225 | without nested loops, the recorded paths are those the expansion needs |
| LoopReading.ReadKeepsLoops | autosubmit/config/configcommon.py:1191-1225 | writing the values moves no loop |
| LoopReading.CopyIsRead | autosubmit/config/configcommon.py:864-865 | reading a copy without loops leaves it as it is and registers exactly its texts and lists with placeholders |
| ForValues.ReadListsSurviveExactly | autosubmit/config/configcommon.py:1215-1220 | a list of printable texts without quotes and backslashes, written as one text when it is read, is taken apart to what it was if and only if it is not empty nor one empty text, no text has a comma or a space at an end, the first starts with no bracket and the last ends with none |
| ForValues.ListsSurviveExactly | autosubmit/config/configcommon.py:852-856 | such a list that has not been read before survives if and only if it is not empty, and no text has a comma or a space at an end |
| ForValues.MappingsSurvive | autosubmit/config/configcommon.py:852-856 | a list that starts with a mapping stays as it is |
| ForValues.NestedListIsTorn | autosubmit/config/configcommon.py:852-856 | a list within a list is torn apart at its commas |
| LoopExpansion.PutElements | autosubmit/config/configcommon.py:867-883 | the i-th element of every other list is put in; fails exactly when a list is too short |
| LoopExpansion.BuildInstance | autosubmit/config/configcommon.py:862-883 | the copy for one NAME: read, substituted with all the registered variables, and given its elements; what is registered then |
| LoopExpansion.ExpandSection | autosubmit/config/configcommon.py:846-883 | one loop section gives way to the sections it makes, or raises an error; what is registered then |
| LoopExpansion.ExpandLoopAt | autosubmit/config/configcommon.py:842-883 | the same at a recorded path, leaving everything off the path as it was |
| LoopExpansion.ParseDataLoops | autosubmit/config/configcommon.py:835-884 | the loop over the recorded paths, in the order in which they are popped; well-formed loops give the one expanded configuration |
| LoopExpansion.CopyIsExpanded | autosubmit/config/configcommon.py:864-866 | reading and substituting a copy expands its texts and lists fully, whatever else is registered, and registers nothing unexpected |
| LoopExpansion.EveryRunExpandsTheSame | autosubmit/config/configcommon.py:835-884 | every order of the loops, any variables registered before, and any orders of visiting them, each depending on all that went before, give the same expanded configuration |
| ForLoops.OneSectionPerName | autosubmit/config/configcommon.py:857-867 | a loop makes exactly one section for each NAME that is not skipped |
| ForLoops.SectionNamesExactly | autosubmit/config/configcommon.py:857-867 | the keys of the made sections, character by character: the base, an underscore, and the name with a to z replaced by A to Z, for the names without a percent sign |
| ForLoops.SameNameIff | autosubmit/config/configcommon.py:859 | two names make the same key if and only if they differ in case only |
| ForLoops.ExpandedKeysExactly | autosubmit/config/configcommon.py:835-884 | the keys of an expanded mapping are those of its entries that are no loops, and the ones made by its loops |
| ForLoops.InstanceEntries | autosubmit/config/configcommon.py:862-883 | the entries of a made section are the i-th elements of the lists, and the rest of the body with its placeholders expanded |
| ForLoops.NameIsFilledIn | autosubmit/config/configcommon.py:862-866 | `%NAME%` in a text of the body, or in an element of a list, stands for the name |
| ForLoops.GroundStays | autosubmit/config/configcommon.py:862-866 | entries of the body without placeholders are carried over as they are |
| ForLoops.ExpandAtKeepsExpansion | autosubmit/config/configcommon.py:842-883 | expanding any one loop succeeds, leaves the other loops to be expanded, and does not change the final result |
| ForLoops.EveryOrderExpandsTheSame | autosubmit/config/configcommon.py:835-884 | every order of the loops gives the same expanded configuration |
| ForLoops.ExpandedHasNoFor | autosubmit/config/configcommon.py:835-884 | no FOR remains |
| Substitution.Engine.SubstituteMatches | autosubmit/config/configcommon.py:1105-1120 | one text, or one element of a list, is spliced from the right, each placeholder by what the tree holds by then, and written back at once |
| Substitution.Engine.SubstituteKeys | autosubmit/config/configcommon.py:1042-1122 | the keys of a variable that are not default parameters and not empty, in order; a variable with one key becomes a text |
| Substitution.Engine.ProcessDynamicVariables | autosubmit/config/configcommon.py:1001-1040 | one pass over the dynamic variables, in the order of the dictionary |
| Substitution.Engine.RunPasses | autosubmit/config/configcommon.py:960-986 | the passes go on until nothing changes or the cap is reached |
| Substitution.Engine.SubstituteDynamicVariables | autosubmit/config/configcommon.py:910-990 | the whole loop, which fails on lists that hold anything but texts; of the variables only texts with placeholders are kept, alone or in lists |
| FullSubstitution.WhatStaysRegistered | autosubmit/config/configcommon.py:910-943 | what is kept: a variable of the configuration exactly when its fully expanded value has a placeholder, with that value, of a list only the texts that have one; any variable by its value after the passes |
| ListWriting.ListsAreSplicedAsWritten | autosubmit/config/configcommon.py:1158 | a list of plain texts or lists is spliced as Python writes it: its elements between brackets, with a comma and a space between any two; an empty one as nothing |
| ListWriting.TextsAreSplicedAsWritten | autosubmit/config/configcommon.py:1158 | of a list of texts each is spliced between quotes |
| ListCases.CapStopsCircles | autosubmit/config/configcommon.py:958-986 | a text that refers to itself is doubled in every pass, and the cap stops that after 26 passes for one variable |
| Rewriting.SpliceKeyInlines | autosubmit/config/configcommon.py:1104-1158 | splicing one key in place, right to left, inlines every live reference in it once, in the tree, in the value and among the keys |
| Rewriting.VisitOwn | autosubmit/config/configcommon.py:1042-1189 | visiting a text, or a list of several texts, inlines it once and keeps it registered |
| Rewriting.VisitForeign | autosubmit/config/configcommon.py:712-722 | a variable registered elsewhere that leads to nothing, or to a text without placeholders, changes nothing and brings no new placeholders |
| FullSubstitution.VisitKept | autosubmit/config/configcommon.py:1042-1189 | a visit does not change the fully expanded tree |
| FullSubstitution.PassHosted | autosubmit/config/configcommon.py:1001-1040 | a pass over the tree is a pass over the texts of its leaves, and keeps the variables in step with the tree |
| FullSubstitution.RoundsSettle | autosubmit/config/configcommon.py:960-986 | with references ranked, the loop reaches a fixed point before the cap, and that point is the fully expanded tree |
| FullSubstitution.SubstitutionIsFullExpansion | autosubmit/config/configcommon.py:945-1189 | in whatever order the variables are visited, and whatever variables of other parts are registered, every text and every element of a list of several texts ends as its full expansion and everything else as it was, within 25 passes and one per variable; references may lead to texts, to lists or to nothing |
| FullSubstitution.SubstitutionKeeps | autosubmit/config/configcommon.py:910-990 | the variables kept afterwards hold no new placeholders, have no new names, and texts stay texts |
| Expansion.FullExpansionUnfolds | autosubmit/config/configcommon.py:1124-1158 | the full expansion is the recursive one; an empty or missing value leaves the placeholder |
| Expansion.FullExpansionConcat | autosubmit/config/configcommon.py:1072-1122 | a text expands piece by piece |
| OneElementLists.VisitSingle | autosubmit/config/configcommon.py:1104-1120 | what a visit does to a list of one text, by the number of splices: none, one, which leaves it right, or more, which spoil it |
| OneElementLists.OneElementListsExactly | autosubmit/config/configcommon.py:945-1189 | the element of a list of one text ends fully expanded in every order of visits if and only if at most one of its placeholders finds something, and that holds no placeholder that does |
| OneElementLists.OtherLeavesExpand | autosubmit/config/configcommon.py:945-1189 | whatever becomes of lists of one text, all other leaves end fully expanded |
| ListCases.ListIsExpanded | test/unit/config/test_substitute_variables.py:157-167 | the list of the unit test meets the conditions of the main result: in every order each element is expanded, and what leads to nothing stays |
| ListCases.TwoSplicesSpoil | autosubmit/config/configcommon.py:712-722 | with A = "a" and B = "b" the list ["%A%/%B%"] ends as ["a/bAa/b/b"] |
| ListCases.TwoIsCovered | autosubmit/config/configcommon.py:1104-1120 | that list meets the conditions of the equivalence for lists of one, and falls on the side that is spoilt |
| ListCases.OrderMatters | autosubmit/config/configcommon.py:1104-1120 | with A = "%B%" and B = "b" the list ["%A%"] ends as ["b"] if A is visited first, and as ["bBb"] if the list is |
| ListCases.DefaultHidesElement | autosubmit/config/configcommon.py:1070 | an element that has become the name of a default parameter is no longer counted, and the element after it is never expanded |
| Placeholders.WrittenTokenised | autosubmit/config/configcommon.py:1199-1205 | cutting a text at its placeholders loses nothing |
| Placeholders.PlaceholderIff | autosubmit/config/configcommon.py:1199-1205 | a text has a placeholder if and only if between two of its percent signs there are only letters, digits, underscores, dots and dashes |
| Placeholders.TokenisedWritten | autosubmit/config/configcommon.py:1104-1120 | texts and placeholders that alternate are found again in what they are written as, with the keys of each placeholder |
| Loading.Loader.LoadCustomConfig | autosubmit/config/configcommon.py:1686-1751 | the recursion ends, loads no path twice, and with plain names loads exactly what is reachable from the given names through paths not loaded before; each name in turn loads what it reaches before the next one begins |
| Loading.Loader.LoadOne | autosubmit/config/configcommon.py:1708-1747 | one file or folder: the path itself comes first, then what the files named before it reach, then what the files named after it reach |
| Loading.LoadedExactly | autosubmit/config/configcommon.py:1686-1764 | if the roots are loaded, and what loaded paths name, then what is loaded is what is reachable |
| Jobs.Job.UpdateChildrenStatus | autosubmit/job/job.py:1519-1524 | the list that grows while it is walked ends, also on cycles, and fails exactly the jobs reachable through jobs of level 0 in SUBMITTED, RUNNING, QUEUING or UNKNOWN |
| Jobs.Job.CheckCompletion | autosubmit/job/job.py:1526-1545 | COMPLETED if the file is there, else the default; over the wallclock the answer is returned and nothing is set |
| Jobs.Job.UpdateStatus | autosubmit/job/job.py:1450-1517 | the new status, with the second look for COMPLETED and UNKNOWN, and the failure of descendants |
| Jobs.UpdateDecides | autosubmit/job/job.py:1450-1524 | in statuses and answers: one question if the new status is COMPLETED or UNKNOWN, the status that follows from it, the former status, and that others change only to FAILED, when they are reachable from a job that failed without a failure file |
| Jobs.FailuresReach | autosubmit/job/job.py:1519-1524 | exactly the jobs at the end of a path of children through jobs of level 0 in SUBMITTED, RUNNING, QUEUING or UNKNOWN fail |
| Jobs.WorkedOut | autosubmit/job/job.py:1519-1524 | a work list that has been walked to the end has failed all that is reachable |
| Wrappers.WrapperJob.CheckFinishedJob | autosubmit/job/job.py:3226-3248 | the state of the wrapper, of all jobs and of the platform after finishing one job |
| Wrappers.WrapperJob.CheckRunningJobs | autosubmit/job/job.py:3132-3224 | the same after a poll of the jobs that may run |
| Wrappers.WrapperJob.CheckInnerJobsCompleted | autosubmit/job/job.py:3035-3062 | the same after the check of a completed wrapper |
| Wrappers.WrapperJob.UpdateFailedJobs | autosubmit/job/job.py:3250-3268 | the same after looking for failure files; the copies really are other objects |
| Wrappers.WrapperJob.CancelFailedWrapperJob | autosubmit/job/job.py:3270-3290 | the same after a cancellation |
| Wrappers.WrapperJob.CheckInnerJobsQueue | autosubmit/job/job.py:3064-3114 | the same after the check of a waiting wrapper |
| Wrappers.WrapperJob.CheckFailedStatus | autosubmit/job/job.py:3007-3033 | the same after the branch for failed wrappers |
| Wrappers.WrapperJob.CheckStatus | autosubmit/job/job.py:2979-3033 | the same after a whole check, which keeps a safe wrapper safe |
| WrapperSafety.CheckFinishedDecides | autosubmit/job/job.py:3226-3248 | a finished job is COMPLETED exactly when its file is seen twice, and other jobs are only touched when it was seen once and is gone |
| WrapperSafety.CheckRunningPolls | autosubmit/job/job.py:3132-3224 | the followed jobs are the polled ones, and no other job changes except from a failable status to FAILED |
| WrapperDecisions.PolledJobDecides | autosubmit/job/job.py:3189-3218 | a followed job with exactly one line: one field leaves it alone; a start not known yet makes it RUNNING and is recorded; two fields leave it RUNNING, or FAILED when it is late and not vertical; three make it COMPLETED if its file is seen twice and FAILED otherwise, and it is no longer followed |
| WrapperDecisions.UnnamedStays | autosubmit/job/job.py:3189-3218 | a followed job without a line is left alone |
| WrapperDecisions.PollOutcome | autosubmit/job/job.py:3144-3224 | which jobs a poll follows and in which order, that it makes the wrapper FAILED exactly when the last line of two fields was late, and how many questions it asks |
| WrapperDecisions.FollowedExactly | autosubmit/job/job.py:3145-3155 | the followed jobs are those neither COMPLETED nor FAILED all of whose parents are COMPLETED, or the wrapper is |
| WrapperDecisions.LineDecides | autosubmit/job/job.py:3189-3218 | what any single line does to its job, to all others, to what is followed and to the clock |
| WrapperDecisions.FinishDecides | autosubmit/job/job.py:3226-3248 | finishing a job in answers: without a failure file it is COMPLETED exactly when its file is seen twice; the former status, what is followed, the number of looks, and what fails downstream |
| WrapperSafety.PollKeepsSafe | autosubmit/job/job.py:3132-3224 | a poll of a wrapper that is not completed keeps it safe |
| WrapperSafety.UpdateFailedSafe | autosubmit/job/job.py:3250-3268 | updating the failed jobs keeps a wrapper safe |
| WrapperOutcomes.FailuresDecide | autosubmit/job/job.py:3250-3268 | exactly the jobs whose failure files are found twice fail, among the followed ones and, if asked, the READY, SUBMITTED and QUEUING ones; nothing spreads, and no job is followed after that |
| WrapperOutcomes.FoundFailsForGood | autosubmit/job/job.py:3250-3290 | such a job stays FAILED through a cancellation |
| WrapperSafety.CheckQueueSafe | autosubmit/job/job.py:3064-3114 | the check of a waiting wrapper keeps it safe |
| WrapperSafety.WaitingWrapperLeads | autosubmit/job/job.py:3111-3114 | a wrapper whose status changes while it waits, and is not cancelled, gives all its jobs its status |
| WrapperOutcomes.QueueDecides | autosubmit/job/job.py:3064-3114 | a waiting wrapper that is not cancelled: on slurm, one held by the user is released if and only if its hold is "false" and is HELD otherwise, one held by the administrator is WAITING; a release makes all jobs QUEUING, and a changed status is passed on to all |
| WrapperOutcomes.CancelledQueueDecides | autosubmit/job/job.py:3077-3087 | one that is cancelled leaves its jobs COMPLETED, FAILED or WAITING, and those whose failure file is found FAILED |
| WrapperSafety.CancelLeavesFinalOrWaiting | autosubmit/job/job.py:3270-3290 | after a cancellation every inner job is COMPLETED, FAILED or WAITING, finished jobs keep their status, and jobs that could be polled have failed |
| WrapperOutcomes.CancelDecides | autosubmit/job/job.py:3270-3290 | after its poll, a cancellation fails the followed jobs, makes the others that have not finished WAITING, and takes all further trials from vertical jobs that have finished |
| WrapperSafety.CheckCompletedFinishes | autosubmit/job/job.py:3035-3062 | the check of a completed wrapper leaves every inner job COMPLETED or FAILED |
| WrapperDecisions.CompletionDecides | autosubmit/job/job.py:3035-3062 | each job that is not COMPLETED: one named in the completed files ends COMPLETED if its own look finds its file, the others are finished one after the other; all are no longer followed |
| WrapperSafety.CompletedWrapperFinishesJobs | autosubmit/job/job.py:3002-3033 | so does the whole check, also when the poll makes the wrapper fail |
| WrapperOutcomes.RunningDecides | autosubmit/job/job.py:2993-3001 | a RUNNING wrapper that was SUBMITTED makes its jobs QUEUING and follows those without a parent in it; otherwise it polls them as they are |
| WrapperOutcomes.WaitingDecides | autosubmit/job/job.py:2979-2992 | a wrapper found QUEUING or HELD ends in the status for its reason and remembers the one it had |
| WrapperOutcomes.OtherStatusDecides | autosubmit/job/job.py:2985-2989 | in any other status nothing but the two statuses of the wrapper changes |
| WrapperSafety.FailedWrapperSettles | autosubmit/job/job.py:3007-3033 | a failed wrapper leaves no job running or queued, unless it follows jobs whose failure is not confirmed |
| WrapperOutcomes.ConfirmationDecides | autosubmit/job/job.py:3017-3025 | a failure is confirmed exactly when it was known, or the failure file of the wrapper exists and that of a followed job, which are asked for in order up to the first one |
| WrapperOutcomes.FailedQueuedDecides | autosubmit/job/job.py:3009-3033 | a wrapper that failed while it was SUBMITTED or QUEUING is cancelled at once |
| WrapperOutcomes.FailedAgainDecides | autosubmit/job/job.py:3011-3033 | one that had failed before is polled, updated and cancelled |
| WrapperOutcomes.FailedRunningDecides | autosubmit/job/job.py:3014-3033 | one that failed otherwise is cancelled if it follows no job or its failure is confirmed, and else left alone |
| WrapperSafety.CheckFailedSafe | autosubmit/job/job.py:3007-3033 | the branch for failed wrappers keeps a wrapper safe |
| WrapperSafety.CheckStatusSafe | autosubmit/job/job.py:2979-3033 | a check keeps a wrapper safe |
| WrapperSafety.RunIsSafe | autosubmit/job/job.py:2979-3290 | from a wrapper without a running job, after any checks and any answers, a running inner job has all its parents completed, and none of them is followed any more |
| JobRecords.JobData.SetEnergy | autosubmit/history/data_classes/job_data.py:188-198 | only a positive energy is stored, to two decimals, and a change is flagged |
| JobRecords.Round2IsNear | autosubmit/history/data_classes/job_data.py:198 | rounding to two decimals is off by half a hundredth at most, and rounding again changes nothing |
| JobRecords.RoundExactly | autosubmit/history/strategies.py:67 | rounding takes the nearest integer, and of two equally near the even one |
| Levels.GetRoots | autosubmit/history/strategies.py:212-220 | the roots, in the order of the jobs |
| Levels.RootsHaveNoParent | autosubmit/history/strategies.py:212-214 | a job is a root exactly when no job of the wrapper names it as a child |
| Levels.RootsInOrder | autosubmit/history/strategies.py:212-214 | the roots stand in the order of the jobs |
| Levels.GetLevel | autosubmit/history/strategies.py:235-240 | the children inside the wrapper of a level |
| Levels.GetJobsPerLevel | autosubmit/history/strategies.py:200-210 | unless a root leads to a cycle the loop ends, with all the levels and no more of them than jobs; names need not be unique |
| Levels.LevelsEndIff | autosubmit/history/strategies.py:200-210 | some level is empty, so that the loop ends, if and only if no root leads to a cycle |
| Levels.LevelOfPath | autosubmit/history/strategies.py:200-240 | every path from a root's child leads to a job in the level of its length |
| Levels.LevelsFit | autosubmit/history/strategies.py:200-210 | no level stands beyond the number of jobs |
| Levels.LevelListsEnds | autosubmit/history/strategies.py:200-210 | a level lists where the walks of its length end, in order |
| Levels.WalksAreRootPaths | autosubmit/history/strategies.py:200-210 | the walks are exactly the paths from the roots |
| Levels.LevelCountsPaths | autosubmit/history/strategies.py:200-240 | a job stands in level k exactly as many times as there are paths of k edges to it from roots |
| Levels.EveryJobHasALevel | autosubmit/history/strategies.py:200-240 | every job stands in some level |
| Levels.OnePlaceEach | autosubmit/history/strategies.py:200-240 | when no job has two parents, no job stands in two places |
| Levels.ForestLevelsPartition | autosubmit/history/strategies.py:200-240 | then the levels hold every job exactly once |
| Energy.CalculatedWeights | autosubmit/history/strategies.py:62-67 | the shares of the total weight, by name |
| Energy.StraightDistribution | autosubmit/history/strategies.py:107-127 | all energies after the strategy, its result and status, also for a wrong number of steps or a missing entry |
| Energy.GeneralizedDistribution | autosubmit/history/strategies.py:144-156 | the same for one total |
| Energy.GroupWeights | autosubmit/history/strategies.py:222-224 | the shares inside a level; fails exactly on jobs without weight |
| Energy.EnergyPerLevel | autosubmit/history/strategies.py:178-181 | the energies of the levels; fails exactly without weight or without the entry to share |
| Energy.TwoDimDistribution | autosubmit/history/strategies.py:172-191 | the same for steps per level; a level without weight fails the job after the levels before it have got their energies |
| JobEnergies.StraightJobEnergy | autosubmit/history/strategies.py:107-127 | each job ends with its step and its share of the rest by weight, within 0.005 and a 20000th of that rest, if that is positive, and keeps its energy otherwise |
| JobEnergies.GeneralizedJobEnergy | autosubmit/history/strategies.py:144-156 | each job ends with its share of the total, within 0.005 and a 20000th of it |
| JobEnergies.TwoDimJobEnergy | autosubmit/history/strategies.py:172-191 | on a forest with weight in every level, each job ends with its share by weight of the energy of its level, within 0.005 and a 20000th of that |
| JobEnergies.LevelEnergyIs | autosubmit/history/strategies.py:178-181 | the energy of a level is that of its step and its share by weight of the rest, within a 20000th of that rest |
| JobEnergies.RecordFollows | autosubmit/history/strategies.py:120-121 | the record that is processed takes the energy of the job of its name if that is positive, and is left alone if no job has its name |
| JobEnergies.TotalEnergyIs | autosubmit/history/platform_monitor/slurm_monitor.py:35-36 | the total is the larger of the header and of the sum of steps and rest |
| JobEnergies.LeadingExactly | autosubmit/history/strategies.py:182-187 | energies are given up to the first level that has jobs and no weight |
| Conservation.StoredNearGiven | autosubmit/history/data_classes/job_data.py:188-198 | the stored energies add up to the given and the kept ones, within the rounding, and exactly when two decimals are given |
| Conservation.SharesNearPart | autosubmit/history/strategies.py:62-67 | rounded shares of an energy add up to the part they stand for within 0.00005 of it per job |
| Conservation.StraightConserves | autosubmit/history/strategies.py:107-127 | the energies given add up to what was measured within 0.00005 times n times the shared energy, and the stored ones with the kept ones within 0.005 n more |
| Conservation.GeneralizedConserves | autosubmit/history/strategies.py:144-156 | the stored energies add up to the total and the kept ones within 0.00005 n total + 0.005 n; they are the given ones if and only if nothing is kept |
| Conservation.TwoDimConserves | autosubmit/history/strategies.py:172-191 | on a forest with weight in every level, the stored energies add up to what was measured and the kept ones within 0.005 n + 0.00005 (sum of m_i times the energy of level i) + 0.00005 L times the shared energy |
| Conservation.KeptEnergyIsNotMeasured | autosubmit/history/data_classes/job_data.py:188-198 | a job that is given nothing, out of nothing measured, still has its old energy |
| KeptEnergy.StraightKeepsNothingIff | autosubmit/history/strategies.py:107-127 | nothing is kept if and only if every job has no old energy, or a step of its own, or more than a 20000th of the weight of an energy to share; then the stored energies add up to what was measured within the bounds |
| KeptEnergy.GeneralizedKeepsNothingIff | autosubmit/history/strategies.py:144-156 | nothing is kept if and only if every job has no old energy or a share above 0.005; then the stored energies add up to the total within the bounds |
| KeptEnergy.TwoDimKeepsNothingIff | autosubmit/history/strategies.py:172-191 | nothing is kept if and only if, in every level, every job has no old energy or a share above 0.005; then the stored energies add up to what was measured within the bounds |
| KeptEnergy.ShareIsPositive | autosubmit/history/strategies.py:62-67 | a rounded share is positive if and only if the weight is more than a 20000th of the total |
| KeptEnergy.RestIsLostIff | autosubmit/history/strategies.py:107-127 | all of the energy to share is lost if and only if there is none, or no weight is more than a 20000th of the total |
| KeptEnergy.FewJobsLoseOnlyWithoutWeight | autosubmit/history/strategies.py:62-67 | with fewer than 20000 jobs, that is so if and only if there is no weight at all |
| KeptEnergy.ManyJobsLoseTheRest | autosubmit/history/strategies.py:107-127 | with more than 20000 jobs of weight one, all of it is lost |
| KeptEnergy.RestIsLost | autosubmit/history/strategies.py:107-127 | a job without weight gets its step and nothing of the rest |
| KeptEnergy.RoundingIsNotConserved | autosubmit/history/data_classes/job_data.py:188-198 | an energy given by the straight strategy is rounded away although nothing is kept |
| JobFilter.SectionMatch | autosubmit/autosubmit.py:4931-4933 | the test on texts says that the job is of the section and its split is named or in a named range |
| JobFilter.FilterSectionsSplits | autosubmit/autosubmit.py:4936-4980 | the result is the set of jobs in some section entry; stopping early loses nothing |
| JobFilter.Prune | autosubmit/autosubmit.py:5001-5020 | the first pass keeps the jobs whose date and member have been gathered |
| JobFilter.GatheredExactly | autosubmit/autosubmit.py:5003-5016 | a name is gathered if and only if it is listed and "ANY" occurs, or no "ANY" follows its own entry |
| JobFilter.FilterChunks | autosubmit/autosubmit.py:4983-5038 | both passes; fails exactly when a member has no chunks |
| JobFilter.FilterJobsByChunksSplits | autosubmit/autosubmit.py:5041-5063 | for jobs with dates and members of the experiment the result is exactly the set of jobs that match some section entry and some date, member and chunk entry |
| JobFilter.ListedIsUnpruned | autosubmit/autosubmit.py:5001-5020 | the first pass loses no matching job whose date and member are listed |
| JobFilter.FilterIsExactIff | autosubmit/autosubmit.py:4983-5038 | for any jobs, the result is the simple meaning of the filter if and only if the names of the matching jobs survive the first pass |
| JobFilter.LaterAnyLosesAJob | autosubmit/autosubmit.py:5001-5020 | a job that matches its own entry and is lost because "ANY" follows; in the other order it is found |
| JobFilter.OrderDoesNotMatter | autosubmit/autosubmit.py:4983-5063 | on jobs with listed dates and members, reordering or repeating entries, or members inside a date, does not change the result |
| JobFilter.ChunkOrderMattersExactly | autosubmit/autosubmit.py:5033 | the same chunks in two orders select the same jobs, of any jobs and any experiment, if and only if both lists end with "ANY" or neither does |
| JobFilter.ChunkOrderMatters | autosubmit/autosubmit.py:5033 | the same chunks in another order select differently, as only the last is asked for "ANY" |
| Selection.FilterJobs | autosubmit/autosubmit.py:5041-5063 | the filter from the words of the formula; fails on formulas that do not parse, on members that are no words and on members without chunks |
| Selection.SpecSelects | autosubmit/autosubmit.py:4983-5038 | the entries of a specification select a job if and only if it matches a date, a member and a chunk or range of it |
| Selection.WrittenSpecSelects | autosubmit/autosubmit.py:4983-5063 | filtering by a specification as it is written selects exactly the jobs that match it, in dates, members and chunks, and its sections, in names and splits |
| ChunkFormula.GetChunks | autosubmit/autosubmit.py:5355-5372 | the chunks of a list, ranges replaced; fails on nested lists and on ranges without numbers |
| ChunkFormula.GetMembers | autosubmit/autosubmit.py:5332-5352 | members and lists alternate; an odd one out fails |
| ChunkFormula.CreateJson | autosubmit/autosubmit.py:5380-5433 | the whole formula, from the tokens |
| ChunkFormula.BracketsRoundTrip | autosubmit/autosubmit.py:5417 | any nesting of brackets is read back as it was written |
| ChunkFormula.DatesParse | autosubmit/autosubmit.py:5417-5433 | a formula parses if and only if dates, members and chunks alternate as they should and the ranges have numbers |
| ChunkFormula.DashesMean | autosubmit/autosubmit.py:5366-5369 | of a word with dashes the first two parts count, which must be numerals; it stands for the numbers from one to the other |
| ChunkFormula.LettersAreChunks | autosubmit/autosubmit.py:5365-5372 | a word in place of a list of chunks stands for its letters |
| ChunkFormula.HasRangeExactly | autosubmit/autosubmit.py:5396-5399 | a date has a range if both parentheses are in it and it starts with neither |
| ChunkFormula.FormulaRoundTrip | autosubmit/autosubmit.py:5331-5433 | printing any specification and parsing it gives it back with every range replaced by its numbers, both ends included, in order |
| Decimals.RangeExactly | autosubmit/autosubmit.py:4962-4963 | the numeral of n is among those of a range exactly when n lies in the range |
| Decimals.RangeAt | autosubmit/autosubmit.py:4962-4963 | the numbers of a range count up from its start to its end |
| Decimals.NumeralGrows | autosubmit/autosubmit.py:4933 | a numeral has its digits in order, with a sign in front of a negative one |
| Recovery.Run.Prepare | autosubmit/autosubmit.py:2213-2243 | how many attempts are made, all that are needed or up to a positive limit, and how long they sleep |
| Recovery.Run.Restore | autosubmit/autosubmit.py:2245-2277 | the same for the connection; the n-th attempt that asks for a mail is attempt 1 + 20 (2^(n-1) - 1), and no other attempt asks |
| Recovery.Run.Recover | autosubmit/autosubmit.py:2204-2280 | an episode uses what it needs, up to a positive limit, and gives up if and only if that is reached |
| Recovery.Run.RecoverAll | autosubmit/autosubmit.py:2131-2280 | over a whole run the attempts are the smaller of a positive limit and the demand, the sleep is at most 120 seconds times that limit, and the run is given up exactly when the demand reaches it; without a positive limit all the demand is met |
| Recovery.PrepareSleepClosed | autosubmit/autosubmit.py:2224 | the growing delays add up to a closed form, at most 120 seconds each |
| Recovery.DemandAdds | autosubmit/autosubmit.py:2204-2277 | every episode needs one attempt more than it fails to prepare, and one more than it fails to connect |
| Recovery.NextMail | autosubmit/autosubmit.py:2252-2275 | the first attempt asks for a mail, then every 20th, 40th, 80th and so on after the one before |
| Identifiers.Base36Encode | autosubmit/experiment/experiment_common.py:337-367 | the loop gives the numeral, padded to four digits except for zero |
| Identifiers.DecodeEncode | autosubmit/experiment/experiment_common.py:337-379 | every integer, also a negative one, is read back |
| Identifiers.NumeralsAre | autosubmit/experiment/experiment_common.py:337-367 | zero is one digit, numbers below 36^4 are their four digits, and beyond that 36 times a number has one digit more on the right |
| Identifiers.DigitsOfAlphabet | autosubmit/experiment/experiment_common.py:337-379 | the digits are 0 to 9 and a to z, and capitals are read like small letters |
| Identifiers.EncodeDecode | autosubmit/experiment/experiment_common.py:337-379 | a valid lowercase identifier is written back as it was if and only if it has four characters and is not 0000, or is longer and has no leading zero |
| Identifiers.NextExperimentId | autosubmit/experiment/experiment_common.py:306-319 | an error exactly on invalid identifiers, else the identifier of the next number, never the empty text |
| Identifiers.Rollover | autosubmit/experiment/experiment_common.py:306-319 | after zzzz comes 10000 |
| Allocation.CandidateValue | autosubmit/experiment/experiment_common.py:87-90 | the k-th identifier tried is valid and has the k-th number from the start |
| Allocation.Registry.FindFree | autosubmit/experiment/experiment_common.py:87-90 | the loop ends within one test more than there are identifiers, at the first free one |
| Allocation.FirstFreeIsLeast | autosubmit/experiment/experiment_common.py:87-90 | no unused identifier with a larger number than the start has a smaller one than the identifier found; for canonical starts and 0000, none from the start on |
| Allocation.Registry.NewExperiment | autosubmit/experiment/experiment_common.py:59-97 | name, empty text or error, in all cases of the last name used, the first identifier of each kind, and what is registered |
| Allocation.Registry.NewExperiments | autosubmit/experiment/experiment_common.py:49-97 | any sequence of requests gives identifiers that differ from each other and from all used before |
| Structure.Table.SaveStructure | autosubmit/database/db_structure.py:87-107 | the rows are those of the graph, whatever was in the table |
| Structure.GetStructure | autosubmit/database/db_structure.py:72-78 | the dictionary built from the rows |
| Structure.FromRowsExactly | autosubmit/database/db_structure.py:72-78 | exactly the nodes in rows are keys, each leading to its targets without repeats |
| Structure.TargetsInOrder | autosubmit/database/db_structure.py:72-78 | the targets of a node stand in the order of the rows |
| Structure.StructureRoundTrip | autosubmit/database/db_structure.py:72-107 | in any order of the rows, the nodes are the keys, isolated ones lead to themselves only, the others to their successors without repeats |
| Structure.RecoveredIff | autosubmit/database/db_structure.py:72-107 | the graph is read back if and only if it has no loop on a node without other edges |
| Structure.SameRowsIff | autosubmit/database/db_structure.py:95-107 | two graphs have the same rows if and only if they differ at most in loops on nodes without other edges |
| Structure.LoopsAreLost | autosubmit/database/db_structure.py:95-107 | the smallest two graphs that are not told apart |

## Left out

- Configuration dictionaries are values here: that `deep_update` and the substitution write into shared dictionaries in place, and so may change a caller's data, is not captured.
- Placeholders that lead to mappings or below a leaf, `%^...%` placeholders, stray percent signs that pair up when texts are joined, and the long key mode.
- FullSubstitution.SubstitutionIsFullExpansion: asks that lists with placeholders hold at least two texts, none empty, and that no element becomes the name of a default parameter; such elements, and empty ones, are not counted, so that others are taken for them. `ListCases.DefaultHidesElement` shows this; which lists come out right all the same is not said. That a placeholder leads to a list is covered where texts are written in lists as they are: printable, without quotes and backslashes. With others the original writes the list with other quotes or escapes, before or after their splicing, as the order has it.
- FullSubstitution.WhatStaysRegistered: variables registered elsewhere are kept by their value after the passes, whatever that is.
- JobEnergies.TwoDimJobEnergy: asks for weight in every level; without it `LeadingExactly` says where the levels stop, and the levels before are given as with it.
- OneElementLists.OneElementListsExactly: asks that no placeholder leads to a list of one text with placeholders, and that all variables are those of the configuration itself.
- Where a variable registered elsewhere leads to a list, a list shorter than the variable raises an IndexError in the original; the model leaves the tree as it is. No such variable occurs in the results.
- Scalars other than texts are texts here; next to placeholders in a list they raise a TypeError in the original, as lists and mappings do there and here.
- FOR sections inside FOR sections.
- Letters outside ASCII, which `upper` changes too and a few of which the pattern of placeholders takes for letters.
- LoopExpansion.EveryRunExpandsTheSame: asks that the loops run, that the names made do not collide, that lists with placeholders hold several texts, and that variables and placeholders lead to leaves of each copy or to nothing; where names collide the last section written wins, and the order does matter.
- Loading.Loader.LoadCustomConfig: which paths are loaded, not the data they hold; what a file names is a fixed function of its path, as it is read once. That exactly the reachable paths are loaded is said for names that, when spelled like an existing path, stand for that path: the original skips names by their spelling.
- YAML, normalization of keys, checks of single keys, and reloading on changes of files.
- SSH, Slurm and local commands, log retrieval, statistics, mail and metrics: they are answers of the platform, or a counted sleep.
- Wrappers.WrapperJob.CheckRunningJobs: lines of a poll that name no polled job are skipped, where the original raises a KeyError; no other exception is modelled in the wrapper either.
- WrapperDecisions.PolledJobDecides: asks that no other followed job has the name, that jobs know their parents, and that the wrapper is not COMPLETED: in a completed one the line of a parent may fail a job before its own line comes. What any line does to its job, in any wrapper, is `LineDecides`.
- Wrappers.WrapperJob.CheckInnerJobsCompleted: jobs not found completed are finished in the order of the list, where the original takes the order of a set.
- A wrapper is not itself a `Job` here; only its own fields that the checks read or set are kept.
- Wrappers.WrapperJob.UpdateFailedJobs: copies the listed jobs only, where a deep copy also copies the jobs they are linked to; none of the copies is used again.
- `JobList.update_list`, how jobs are packed into wrappers, and the platform classes.
- `SingleAssociationStrategy`, the memory figures and the texts of platform outputs in the history.
- Levels.GetJobsPerLevel: asks that no root leads to a cycle; with one the original does not end.
- Levels.LevelCountsPaths: asks that no job names a child twice; `LevelListsEnds` has no such condition.
- Conservation.TwoDimConserves: asks that no job has two parents; with two, a job is given an energy in each place and keeps the last one.
- Energies are exact numbers; the rounding of binary floating point is left out.
- KeptEnergy.ShareIsPositive: at a weight of exactly a 20000th of the total the quotient is a tie, which rounds to zero here; the double next to 0.00005 is above it and rounds up in the original.
- KeptEnergy.RestIsLostIff: takes the same tie the same way; weights below a 20000th are lost in both.
- JobFilter.FilterJobsByChunksSplits: starts from entries in upper case; the words of splits are already numbers, ranges of numbers or texts. `Selection.FilterJobs` starts from the words and brackets of the formula.
- ChunkFormula.CreateJson: dates with a range in parentheses fail, as the format of the original is not valid for integers; an empty range, for which the original selects no date, is not told apart.
- Numerals with signs, spaces, underscores or digits outside ASCII, which `int` also reads.
- Failures that never end, with which a run without a positive limit tries forever.
- Identifiers with letters or digits outside ASCII, and experiment folders without a row in the database, which count as identifiers in use.
- Copying and deleting experiments, archiving, provenance, plotting, migration, and the database managers.
- `NaturalSort`, status counts, and the remaining filters of the command line, which are single tests.
