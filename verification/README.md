# Caffeine-in: a Dafny model of the tracker and history logic

Caffeine-in is an Android app that logs caffeine doses and shows an estimate of the
caffeine still in the body. Under its Compose UI sit three small pieces of sequential
logic, and this project models and proves properties of each:

- **History store** (`DataRepository`): the ordered list of named caffeine sources
  `(name, amount)`. New names are prepended or inserted at an index. Removal deletes every
  name match. An update renames and re-amounts an entry, with a collision check. Names are
  unique ignoring case. The preference store is a record of optional keys. An absent key
  reads back as its default: 0 mg, time 0, the empty list.
- **Decay tracker** (`CaffeineTrackerViewModel`): the collapsed state
  `(initialMg, lastIngestionTime, displayedMg)`. A dose is folded into the decayed
  remainder. One tick of the decay loop shows the floored level and clears the state once
  it falls under 1 mg. A reset zeroes everything, and launch adopts the stored state only
  when it is valid. The add/update guards for sources live here too.
- **Analysis histogram** (`AnalysisViewModel`): the decayed sum of the logged intakes at a
  time, floored at 1 mg, sampled at twelve points two hours apart and returned oldest first.

The decay factor `0.5^(elapsed / 5h)` is a parameter `decay: nat -> real`. The model
assumes only what that formula guarantees for non-negative elapsed time:
`decay(0) == 1` and `0 < decay(e) <= 1` (predicate `Decay.IsDecay`). Clocks
(`System.currentTimeMillis()`) are parameters `now`. The hour-label formatter is a
parameter `hourLabel`, and the intake log is an input sequence.

Files: `wrappers.dfy` (Option), `text.dfy` (case-insensitive equality, blankness),
`data_repository.dfy` and `history_properties.dfy`, `decay.dfy`, `caffeine_tracker.dfy`
and `tracker_properties.dfy`, `analysis.dfy` and `analysis_properties.dfy`.

Where the code is more specific than a plain description of the app, the model follows
the code:
- The update's collision check excludes entries whose name equals the old name
  *exactly*, not "the same entry". So a case-only rename of an entry is allowed.
- `addCaffeine` drops a remainder under 0.5 mg before folding in the new dose.
- The repository itself does not check that amounts are positive. Only the view-model
  guards do.

## Model

| member | source | states |
|---|---|---|
| DataRepository.IndexOfFirst | Caffeine-in/app/src/main/java/com/example/caffeine_in/data/DataRepository.kt:152 | the result is -1 exactly when no entry has the name (case-sensitive); otherwise it is the first position holding that exact name |
| DataRepository.AddToList | Caffeine-in/app/src/main/java/com/example/caffeine_in/data/DataRepository.kt:105-107 | a name already present ignoring case leaves the list unchanged, whatever the amounts; otherwise the new source comes first and every old entry shifts one place in order; afterwards the name is always present |
| DataRepository.InsertIntoList | Caffeine-in/app/src/main/java/com/example/caffeine_in/data/DataRepository.kt:117-124 | a duplicate name or an index outside 0..size leaves the list unchanged; otherwise the source sits at `index`, the prefix before it and the suffix after it are the old ones |
| DataRepository.RemoveFromList | Caffeine-in/app/src/main/java/com/example/caffeine_in/data/DataRepository.kt:132 | no entry matching the name ignoring case survives, whatever its amount; every non-matching entry survives; nothing new appears |
| DataRepository.UpdateInList | Caffeine-in/app/src/main/java/com/example/caffeine_in/data/DataRepository.kt:143-159 | succeeds exactly when newName does not match, ignoring case, an entry with a different exact name, and some entry has the old name exactly; then only the first such entry is replaced by (newName, newAmount), length and other positions kept; on failure the list is unchanged |
| DataRepository.HistoryList | Caffeine-in/app/src/main/java/com/example/caffeine_in/data/DataRepository.kt:69-71 | an absent history key reads as the empty list |
| DataRepository.CaffeineState | Caffeine-in/app/src/main/java/com/example/caffeine_in/data/DataRepository.kt:40-44 | absent caffeine keys read as 0 mg and time 0 |
| DataRepository.SaveCaffeineState | Caffeine-in/app/src/main/java/com/example/caffeine_in/data/DataRepository.kt:87-92 | the saved pair reads back as written; the history key is untouched |
| DataRepository.ClearCaffeineState | Caffeine-in/app/src/main/java/com/example/caffeine_in/data/DataRepository.kt:94-99 | after removing the keys the state reads back as (0, 0); the history key is untouched |
| DataRepository.AddHistoryItem | Caffeine-in/app/src/main/java/com/example/caffeine_in/data/DataRepository.kt:101-111 | the stored list, read with the empty default, becomes the list add of the old one; on an absent key it becomes exactly [source]; the caffeine keys are untouched |
| DataRepository.InsertHistoryItem | Caffeine-in/app/src/main/java/com/example/caffeine_in/data/DataRepository.kt:113-126 | the stored list becomes the list insert of the old one, reading an absent key as empty; the caffeine keys are untouched |
| DataRepository.RemoveHistoryItem | Caffeine-in/app/src/main/java/com/example/caffeine_in/data/DataRepository.kt:128-135 | the filtered list is always written back, also on an absent key (as empty); the caffeine keys are untouched |
| DataRepository.UpdateHistoryItem | Caffeine-in/app/src/main/java/com/example/caffeine_in/data/DataRepository.kt:137-163 | returns the list update's verdict; on false nothing is written; an absent key can never be updated |
| HistoryProperties.AddPreservesUnique | Caffeine-in/app/src/main/java/com/example/caffeine_in/data/DataRepository.kt:106-107 | prepend-if-new keeps names unique ignoring case |
| HistoryProperties.InsertPreservesUnique | Caffeine-in/app/src/main/java/com/example/caffeine_in/data/DataRepository.kt:118-121 | insert-if-new keeps names unique ignoring case |
| HistoryProperties.RemovePreservesUnique | Caffeine-in/app/src/main/java/com/example/caffeine_in/data/DataRepository.kt:132 | removal keeps names unique ignoring case |
| HistoryProperties.UpdatePreservesUnique | Caffeine-in/app/src/main/java/com/example/caffeine_in/data/DataRepository.kt:144-156 | the collision check suffices to keep names unique ignoring case after a rename |
| HistoryProperties.RemoveConcat | Caffeine-in/app/src/main/java/com/example/caffeine_in/data/DataRepository.kt:132 | removal distributes over concatenation; with the one-entry case (`RemoveSingle`) this determines the result exactly: the kept entries, in their original order and multiplicity |
| HistoryProperties.RemoveSingle | Caffeine-in/app/src/main/java/com/example/caffeine_in/data/DataRepository.kt:132 | a one-entry list loses its entry exactly when the names match ignoring case, whatever the amounts |
| HistoryProperties.RemoveAbsent | Caffeine-in/app/src/main/java/com/example/caffeine_in/data/DataRepository.kt:132 | with no matching name, removal changes nothing |
| HistoryProperties.RemoveIdempotent | Caffeine-in/app/src/main/java/com/example/caffeine_in/data/DataRepository.kt:132 | removing twice is the same as removing once |
| HistoryProperties.RemoveAfterAdd | Caffeine-in/app/src/main/java/com/example/caffeine_in/data/DataRepository.kt:105-107 | removing a freshly added source restores the list |
| HistoryProperties.RemoveAfterInsert | Caffeine-in/app/src/main/java/com/example/caffeine_in/data/DataRepository.kt:118-121 | removing a freshly inserted source restores the list |
| HistoryProperties.UpdateCaseOnlyRename | Caffeine-in/app/src/main/java/com/example/caffeine_in/data/DataRepository.kt:144-146 | in a duplicate-free list, renaming an entry to a case variant of its own name always succeeds |
| HistoryProperties.UpdateRoundTrip | Caffeine-in/app/src/main/java/com/example/caffeine_in/data/DataRepository.kt:143-156 | a successful update is undone by updating back to the replaced entry's name and amount |
| HistoryProperties.ExampleAddDuplicate | Caffeine-in/app/src/main/java/com/example/caffeine_in/data/DataRepository.kt:106 | adding ("Coffee", 95) then ("coffee", 50) leaves the single entry ("Coffee", 95) |
| HistoryProperties.ExampleUpdateCollision | Caffeine-in/app/src/main/java/com/example/caffeine_in/data/DataRepository.kt:144-149 | in [Tea, Coffee], renaming Tea to Coffee fails and leaves both entries unchanged |
| Decay.FloorLevel | Caffeine-in/app/src/main/java/com/example/caffeine_in/ui/caffeinetracker/CaffeineTrackerViewModel.kt:118 | the shown level is 0 exactly when the computed level is under 1 mg, and the level itself otherwise |
| Decay.ClampElapsed | Caffeine-in/app/src/main/java/com/example/caffeine_in/ui/caffeinetracker/CaffeineTrackerViewModel.kt:108-113 | a last-ingestion time in the future counts as no time elapsed |
| CaffeineTracker.Load | Caffeine-in/app/src/main/java/com/example/caffeine_in/ui/caffeinetracker/CaffeineTrackerViewModel.kt:75-86 | the saved pair is adopted exactly when both the mg and the time are positive; otherwise all three fields are zeroed |
| CaffeineTracker.Start | Caffeine-in/app/src/main/java/com/example/caffeine_in/ui/caffeinetracker/CaffeineTrackerViewModel.kt:94-97 | with a zero amount or zero time the display becomes 0 and the stored state is cleared; otherwise nothing changes |
| CaffeineTracker.Launch | Caffeine-in/app/src/main/java/com/example/caffeine_in/ui/caffeinetracker/CaffeineTrackerViewModel.kt:72-88 | from any stored preferences, launch yields a consistent tracker whose stored state matches memory; it adopts a valid saved state and is cleared otherwise |
| CaffeineTracker.Tick | Caffeine-in/app/src/main/java/com/example/caffeine_in/ui/caffeinetracker/CaffeineTrackerViewModel.kt:101-125 | a zero amount shows 0 and clears the store; otherwise the display is the floored decayed level, undecayed when the time lies in the future, never above the amount, 0 or at least 1; a 0 display zeroes amount and time together and clears the store; a nonzero display changes nothing else |
| CaffeineTracker.Remainder | Caffeine-in/app/src/main/java/com/example/caffeine_in/ui/caffeinetracker/CaffeineTrackerViewModel.kt:136-149 | the prior remainder counts only when both amount and time are positive; when time has passed it is the decayed amount `initialMg * decay(elapsed)`, dropped to 0 exactly when that is under 0.5; when no time has passed it is the undecayed amount under the same 0.5 cut; it is 0 or at least 0.5, and never more than the amount |
| CaffeineTracker.AddCaffeine | Caffeine-in/app/src/main/java/com/example/caffeine_in/ui/caffeinetracker/CaffeineTrackerViewModel.kt:131-159 | a non-positive dose changes nothing; otherwise amount and display both become remainder plus dose (so at least the dose), the time becomes now, and the same pair is stored |
| CaffeineTracker.Reset | Caffeine-in/app/src/main/java/com/example/caffeine_in/ui/caffeinetracker/CaffeineTrackerViewModel.kt:164-171 | all three fields become zero and the stored state is cleared; the history is untouched |
| CaffeineTracker.AddCaffeineSource | Caffeine-in/app/src/main/java/com/example/caffeine_in/ui/caffeinetracker/CaffeineTrackerViewModel.kt:174-181 | a blank name or non-positive amount changes nothing; otherwise the source is offered to the history and the dose is always taken, also when the name was a duplicate |
| CaffeineTracker.UpdateCaffeineSource | Caffeine-in/app/src/main/java/com/example/caffeine_in/ui/caffeinetracker/CaffeineTrackerViewModel.kt:183-186 | a blank name or non-positive amount returns false without touching anything; otherwise the history update's verdict and list; the tracker is never touched |
| CaffeineTracker.RemoveCaffeineSource | Caffeine-in/app/src/main/java/com/example/caffeine_in/ui/caffeinetracker/CaffeineTrackerViewModel.kt:188-192 | the history loses every entry matching the name ignoring case; the tracker is untouched |
| TrackerProperties.TickPreservesInvariant | Caffeine-in/app/src/main/java/com/example/caffeine_in/ui/caffeinetracker/CaffeineTrackerViewModel.kt:101-125 | a tick keeps amount and time zero together, and keeps the store in step with memory |
| TrackerProperties.AddCaffeinePreservesInvariant | Caffeine-in/app/src/main/java/com/example/caffeine_in/ui/caffeinetracker/CaffeineTrackerViewModel.kt:131-159 | with a positive clock, a dose keeps amount and time zero together, and keeps the store in step |
| TrackerProperties.StepPreservesInvariant | Caffeine-in/app/src/main/java/com/example/caffeine_in/ui/caffeinetracker/CaffeineTrackerViewModel.kt:131-192 | every view-model call keeps the tracker invariant, the store in step, and the history duplicate-free |
| TrackerProperties.RunPreservesInvariant | Caffeine-in/app/src/main/java/com/example/caffeine_in/ui/caffeinetracker/CaffeineTrackerViewModel.kt:77-192 | any sequence of calls with a positive clock keeps the invariant |
| TrackerProperties.SessionKeepsZeroTogether | Caffeine-in/app/src/main/java/com/example/caffeine_in/ui/caffeinetracker/CaffeineTrackerViewModel.kt:77-86 | from launch over a duplicate-free stored history, after any calls with a positive clock: `initialMg == 0` exactly when `lastTime == 0`, the stored caffeine state reads back as the in-memory pair, and the history is still duplicate-free (the last part is why the stored history must start duplicate-free) |
| TrackerProperties.AddCaffeineAdditive | Caffeine-in/app/src/main/java/com/example/caffeine_in/ui/caffeinetracker/CaffeineTrackerViewModel.kt:139-156 | two doses at the same instant give the same state as one dose of their sum |
| TrackerProperties.RestartAfterAddCaffeine | Caffeine-in/app/src/main/java/com/example/caffeine_in/ui/caffeinetracker/CaffeineTrackerViewModel.kt:94-98 | the restart after a dose leaves the state as the dose set it |
| Analysis.LevelAt | Caffeine-in/app/src/main/java/com/example/caffeine_in/ui/analysis/AnalysisViewModel.kt:62-73 | the level is 0 or at least 1 mg, and 0 for an empty log |
| Analysis.CalculateLevelAtTime | Caffeine-in/app/src/main/java/com/example/caffeine_in/ui/analysis/AnalysisViewModel.kt:60-74 | the front-to-back accumulation loop computes the floored decayed total |
| Analysis.BucketTime | Caffeine-in/app/src/main/java/com/example/caffeine_in/ui/analysis/AnalysisViewModel.kt:43 | the last bucket is evaluated at now; each bucket lies two hours after the one before it, so they run oldest first; all twelve lie within the past 22 hours |
| Analysis.Reversed | Caffeine-in/app/src/main/java/com/example/caffeine_in/ui/analysis/AnalysisViewModel.kt:57 | the reversal keeps the length and mirrors every position |
| Analysis.GetHistogramData | Caffeine-in/app/src/main/java/com/example/caffeine_in/ui/analysis/AnalysisViewModel.kt:36-58 | exactly twelve bars, oldest first; bar i holds the label and level at now - (11 - i) * 2h, so the last bar is now; an empty log gives all zero levels |
| AnalysisProperties.TotalConcat | Caffeine-in/app/src/main/java/com/example/caffeine_in/ui/analysis/AnalysisViewModel.kt:65-71 | the total over two logs laid end to end is the sum of their totals |
| AnalysisProperties.TotalSwap | Caffeine-in/app/src/main/java/com/example/caffeine_in/ui/analysis/AnalysisViewModel.kt:65-71 | the level does not depend on the order of the log |
| AnalysisProperties.LaterIntakeIgnored | Caffeine-in/app/src/main/java/com/example/caffeine_in/ui/analysis/AnalysisViewModel.kt:66 | an intake logged strictly after the target time contributes nothing |
| AnalysisProperties.IntakeAtTargetCountsFully | Caffeine-in/app/src/main/java/com/example/caffeine_in/ui/analysis/AnalysisViewModel.kt:66-69 | an intake logged exactly at the target time contributes its full amount |
| AnalysisProperties.TotalWithinAmounts | Caffeine-in/app/src/main/java/com/example/caffeine_in/ui/analysis/AnalysisViewModel.kt:65-71 | with non-negative amounts the total lies between 0 and the undecayed sum of the intakes at or before the target |

## Left out

- JSON encoding and decoding of the history list: the stored value is the decoded list itself.
- DataStore mechanics: the `data` flows, `edit` transactions and the `IOException` fallback
  to empty preferences are library plumbing. Each edit is one atomic function on `Prefs`.
- First-launch seeding (`hasBeenLaunchedBeforeFlow`, `setHasBeenLaunchedBefore`,
  `setHistoryList` and the five showcase sources). It is ordered I/O with no invariant beyond
  the ones the edits keep.
- Concurrency: the `while (true)` loop with `delay(2000)` and the cancellation and restart
  of its job are not modelled, nor are the `viewModelScope` launches and `onCleared`. Each
  coroutine body is one atomic step, and one loop iteration is `Tick`. The view model's
  `historyList` StateFlow just mirrors the stored list.
- Floating point: `Float`/`Double` conversions and rounding are not modelled, and neither is
  the value of `0.5.pow(elapsed / halfLife)`. Amounts are reals, and the decay factor is an
  uninterpreted parameter, so half-life identities (50 mg after five hours) are not stated.
- Long overflow of millisecond timestamps: times are unbounded integers.
- Calendar/Locale hour labels: `hourLabel` is a parameter.
- `intakeListFlow`: the intake log is an input sequence.
- Text.EqIgnoreCase: does not model Unicode case folding, only ASCII `A`-`Z`. Kotlin's
  `equals(ignoreCase = true)` folds all of Unicode. The two agree on ASCII names.
- Text.IsBlank: lists the JVM whitespace code points explicitly, rather than calling
  `Char.isWhitespace`.
- The Compose screens and dialogs. The dialogs' input filters only repeat the view-model
  guards.
