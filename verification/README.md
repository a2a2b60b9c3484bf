# Verified model of the self-healing core

The streaming application watches its own load and network, decides by rules when to lower or
restore quality, and hands the decisions to an actuator, in co-pilot mode only after the user has
approved them. This project models that core and the numeric, timing and concurrent parts around it,
and proves what they promise over all inputs, runs and interleavings.

| module | what it covers |
|---|---|
| `Basics` | optional values, fixed-width integers, saturating rounding |
| `RuleText` | trimming, searching, splitting, reading a signed 32-bit literal |
| `RuleCondition` | evaluation of rule conditions, their meaning, and the second pass that explains a fired rule |
| `RuleTrigger` | which alternative made a rule fire, and whether the explanation shows it |
| `RuleConflicts` | removal of opposed actions and the stable priority sort |
| `RuleFiring` | mode, cooldown, hysteresis and calibrated thresholds in one evaluation and over runs |
| `RuleDecision` | when an evaluation makes an action, guard by guard |
| `RuleReload` | decoding, validation and the reload keyed by modification time |
| `RuleEngine` | the engine object, updated in place, and the swap of engines on reload |
| `ActionIds` | the wrapping identifier counter |
| `PendingActions` | the life of an action between rule, user and actuator as a state machine |
| `ApprovalRuns` | what approvals let through over runs, and that a full queue loses none |
| `HealingLoop` | rule engine and pending actions together: a reject silences its rule |
| `DirectActions` | that actions needing no approval reach the actuator or are counted as refused |
| `UserNotifications` | what the user interface is told about held actions |
| `FfiState` | the object behind the exported calls, tied call by call to that machine |
| `Calibration` | online mean and variance, the threshold policy, the calibrator object |
| `FramePacer` | absolute frame deadlines with resync |
| `ShaderHash` | the FNV-1a keys of the shader cache |
| `AudioRing` | the single-producer single-consumer ring, interleaved access by access, and its object |
| `HealingLog` | producers, writer thread and shutdown flush of the decision log |
| `GpuHandshake` | copies, timeline and GL semaphores, fences and layouts of the preview pool |
| `HealingMonitor` | event handlers and the periodic tick with cooldowns and adaptive thresholds |
| `MonitorDecisions` | what each event and tick of that monitor does, limits written out |
| `DropWindow` | the rolling share of dropped frames |

Where a component changes state in place there is a class whose method contracts equate the new state
with a function, and the lemmas are about that function: what one call decides, written out without its
helpers, invariants of every step, then theorems over whole runs. Concurrent parts are state machines
whose steps are single accesses or calls, in any order. A journal or history records what happened; no
step reads it. Clock readings, driver and file-system answers, the decoded content of a rule file and
the square root in the calibration enter as parameters.

`dafny verify dfyconfig.toml` checks the whole project.

## Where the code and its description differ

Each of these is proved of the model, with the exact condition under which the description is met.

- The explanation is described as the metric, value and threshold that triggered the action
  (src/orchestrator/src/rules.rs:119-120). It is always the first comparison of the condition. It
  belongs to the alternative that made the rule fire if and only if the first alternative holds
  (`RuleTrigger.ExplanationShowsTheTriggerExactlyWhen`). Otherwise the shown comparison may be untrue
  (`RuleCondition.ExplanationMayShowAnUntrueComparison`), or true and without effect
  (`RuleTrigger.TemperatureShownMemoryTriggered`).
- A new engine is said to be always loaded from its file (src/orchestrator/src/rules.rs:341-343). On a
  file system without modification times it reports success and has no rules (`RuleReload.NewEngineLoads`).
- A reload skipped as unchanged holds the current rules exactly as long as every edit of the file
  brings a modification time other than the stored one, or rules that are in memory already
  (`RuleReload.ReloadIsACacheExactlyWhen`, `RuleReload.EditBehindTheStoredTime`).
- A shutdown of the log is said to return after the last records are written
  (src/orchestrator/src/healing_log.rs:166-170). With successful insertions that is so exactly when the
  call finds the handle and the database could be opened, or nothing is in hand or queued
  (`HealingLog.ShutdownFlushesExactlyWhen`); a failed insertion loses its batch
  (`HealingLog.RowsAreCompleteExactlyWhen`). The handle is not there between the making of the queue
  and the keeping of the handle (`HealingLog.EarlyShutdownDoesNotFlush`), and it is taken while another
  shutdown is still joining (`HealingLog.SecondShutdownDoesNotFlush`); without a database the call
  waits in vain (`HealingLog.ShutdownWithoutDatabase`).
- After the call pushes are said to be dropped and counted (same lines). When the writer has exited or
  could never be made, those that still fit the queue are accepted, never written and not counted
  (`HealingLog.LatePushesAreCountedExactlyWhen`, `HealingLog.LatePushIsLostUncounted`,
  `HealingLog.PushWithoutThreadIsLostUncounted`). After a call that returned early they are neither
  dropped nor counted while there is room, but may still be written
  (`HealingLog.PushesAreCountedExactlyWhen`). Before the start they are dropped uncounted, also against
  the description (`HealingLog.LossesAreCountedExceptEarlyOnes`).
- The drop percentage is described as lying in [0, 100] (src/pipeline/include/metrics_collector.h:15).
  A poll between a frame and its drop can push it above, exactly when drops exceed frames and there
  are between 1 and 100 frames in the window (`DropWindow.PublishedPct`, `DropWindow.PctAbove100`).
- Image layouts are said to be tracked per slot (src/pipeline/copy_optimizer.cpp:273-278). A resize
  replaces the images and not the records, which are then wrong for every slot used before
  (`GpuHandshake.ResizeLeavesUsedLayoutsStale`, `GpuHandshake.StaleLayoutIsReached`).
- The wait for a GL semaphore covers the last copy into the image only if that copy was signalled and
  the image's semaphore can be waited for. A second copy, skipped because the flag was still set, can be
  overtaken by a repaint (`GpuHandshake.DrawIsOrderedExactlyWhen`,
  `GpuHandshake.DrawMayOvertakeSecondCopy`); a draw in the frame of its own copy never is
  (`GpuHandshake.DrawAfterOwnCopyIsOrdered`).
- The protection of sampled images depends on entry points that are looked up at run time
  (`GpuHandshake.NoOverwriteExactlyWhen`).

## Model

| member | source | states |
|---|---|---|
| RuleText.TrimParts | src/orchestrator/src/rules.rs:164-190 | trimming removes exactly the white space at both ends: the text is blank + result + blank, and the result has no blank end |
| RuleText.JoinSplit | src/orchestrator/src/rules.rs:170-187 | joining the pieces of a split with the separator rebuilds the text, for every text and separator |
| RuleText.SplitFree | src/orchestrator/src/rules.rs:170-187 | no piece of a split contains the separator, so the evaluator never meets a connective twice |
| RuleText.SplitJoin | src/orchestrator/src/rules.rs:170-187 | pieces without the separator's character come back from a join exactly as they went in |
| RuleText.ParsePrint | src/orchestrator/src/rules.rs:278-281 | every signed 32-bit literal, printed, reads back as itself, the most negative one included |
| RuleCondition.EvalIsOrOfAnds | src/orchestrator/src/rules.rs:164-190 | for every string, well formed or not, the recursive evaluation is the "or" over the alternatives of the "and" over their conjuncts, each a trimmed leaf |
| RuleCondition.LeafMeaning | src/orchestrator/src/rules.rs:270-303 | a printed comparison over any of the 8 metrics and 5 operators, with any spacing and any spelling of its literal, evaluates without error to what its operator says of the metric's reading, less 2^32 where it does not fit 32 signed bits, and the threshold in force, which is the table's for a calibrated metric |
| RuleCondition.LeafDecides | src/orchestrator/src/rules.rs:283-300 | written out: for a reading v that fits 32 signed bits and the threshold t in force, the comparison evaluates to v > t, v < t, v >= t, v <= t or v == t, as its operator says |
| RuleCondition.FormulaMeaning | src/orchestrator/src/rules.rs:164-190 | evaluating the text of any "or" of "and"s of comparisons gives the logical meaning of the formula |
| RuleCondition.TraceAgrees | src/orchestrator/src/rules.rs:164-190 | the evaluator that also lists the leaves it visits gives the evaluator's answer, for every string |
| RuleCondition.FirstLeafIsVisitedFirst | src/orchestrator/src/rules.rs:229-238 | for every string the leaf chosen for the explanation is the first one the evaluator visits |
| RuleCondition.FirstLeafIsFirstPiece | src/orchestrator/src/rules.rs:229-238 | and it is the first conjunct of the first alternative, trimmed |
| RuleCondition.LeafParsersAgree | src/orchestrator/src/rules.rs:214-224 | for every string the explaining parser yields a known metric exactly when the evaluating one does not err, and then both see the same comparison |
| RuleCondition.ExplanationAgrees | src/orchestrator/src/rules.rs:252-268 | no explanation exactly when the first leaf visited errs; otherwise value and threshold are the two sides of the comparison made there, and the calibrated mark is set exactly when the table has that metric |
| RuleCondition.ExplanationOfConjunctionIsTrue | src/orchestrator/src/rules.rs:252-268 | a condition with one alternative only that holds is explained by a comparison that is true |
| RuleCondition.ExplanationMayShowAnUntrueComparison | src/orchestrator/src/rules.rs:119-121 | a concrete rule "a or b" that fires on b while its explanation shows the untrue a |
| RuleCondition.ExplanationOfFormula | src/orchestrator/src/rules.rs:252-268 | for every written formula the explanation carries the number from 0 to 7 of the metric of its first comparison, that metric's reading and the threshold in force |
| RuleTrigger.VisitsAreTheTrace | src/orchestrator/src/rules.rs:164-190 | for every string, listing the comparisons with their places (alternative, conjunct), each alternative up to its first false comparison and the alternatives up to the first that holds, gives the comparisons the recursive evaluator evaluates, in order |
| RuleTrigger.DecidedIsTheFirstThatHolds | src/orchestrator/src/rules.rs:171-178 | for every condition that holds, the evaluator stopped at the first alternative that holds |
| RuleTrigger.ExplanationShowsTheTriggerExactlyWhen | src/orchestrator/src/rules.rs:119-121 | for every condition that holds, the explained comparison belongs to the alternative that made it fire if and only if the first alternative holds; the comparison is then true and explained |
| RuleTrigger.ExplanationOfFormulaShowsTheTriggerExactlyWhen | src/orchestrator/src/rules.rs:252-268 | the same for every written formula, by the meaning of its first clause |
| RuleTrigger.ShownComparisonNeedNotTrigger | src/orchestrator/src/rules.rs:229-238 | every rule "a and c, or b" with a and b true and c false fires by b while the explanation shows a, which is true and has triggered nothing |
| RuleTrigger.TemperatureShownMemoryTriggered | src/orchestrator/src/rules.rs:252-268 | a concrete such rule with concrete metrics |
| RuleConflicts.ResolveSpec | src/orchestrator/src/rules.rs:643-668 | the result is sorted by priority, and per action type it is the input's actions in input order: all of them, or none exactly for a recovery whose opposite is present |
| RuleConflicts.ResolvedInOrder | src/orchestrator/src/rules.rs:626-668 | written out: the result is the bitrate reductions, frame rate caps, lower resolutions, then of the recoveries of bitrate, frame rate and resolution those without their opposite, then what only logs, each in input order |
| RuleConflicts.SortedListIsUnique | src/orchestrator/src/rules.rs:657-667 | those two facts determine the list, so the sort is the stable one |
| RuleConflicts.NoOpposingPair | src/orchestrator/src/rules.rs:636-642 | no recovery is left beside its opposite |
| RuleConflicts.ResolveIdempotent | src/orchestrator/src/rules.rs:643-668 | resolving an already resolved list changes nothing |
| RuleFiring.CreatedAction | src/orchestrator/src/rules.rs:549-611 | the action a rule creates: integer parameters by their low 32 bits and unchanged where they fit, scale factors in thousandths to the nearest, critical exactly for lowering bitrate or resolution, approval asked exactly for the others, with the rule's id, the moment and the explanation of its condition |
| RuleFiring.ActionsByName | src/orchestrator/src/rules.rs:617-628 | each of the seven action names gives its own type of action, and no other name gives any |
| RuleFiring.SilentRuleIsIsolated | src/orchestrator/src/rules.rs:503-518 | a rule that does not fire, also one whose action cannot be created, leaves the rest of the evaluation as if it were not in the list |
| RuleFiring.DistinctRulesFireIndependently | src/orchestrator/src/rules.rs:461-520 | with distinct rule ids the actions are those of the rules that fire in the state before the evaluation, in rule order, and exactly their ids are stamped |
| RuleDecision.EvaluationMakesExactlyTheDue | src/orchestrator/src/rules.rs:461-520 | with distinct ids an evaluation makes an action of a rule exactly when its mode is among the rule's modes, no cooldown ends after now, the hysteresis is zero or was reached or the id is unstamped, the GPU temperature is not zero or occurs nowhere in the condition, the condition holds and the action name is one of the seven; one action each in rule order, and the stamps of exactly those ids become now |
| RuleDecision.EveryActionHasItsRule | src/orchestrator/src/rules.rs:461-520 | over every run each action was made by an evaluation, at its moment, from a rule then in force with the action's id that meets all those conditions but the hysteresis, its mode among the rule's modes included |
| RuleFiring.FiringSpacing | src/orchestrator/src/rules.rs:480-489 | over every run of evaluations, rejects, calibrations and reloads two actions created for one rule id are at least the smallest hysteresis in force apart, repeated ids included |
| RuleFiring.RejectSilencesRule | src/orchestrator/src/ffi.rs:1293-1299 | a reject sets the cooldown of its rule to end 120 s later, and no action of that rule is created before that, whatever else happens in the run |
| RuleReload.MemoryComesFromTheFile | src/orchestrator/src/rules.rs:389-444 | over every run of edits and reloads, whatever the modification times, memory is what it was before or the parse of a content that the file held during the run, edits amid a reload included |
| RuleReload.RulesStayComplete | src/orchestrator/src/rules.rs:733-751 | hence no run brings a rule without id, condition or known action into memory |
| RuleReload.ParseDecides | src/orchestrator/src/rules.rs:711-753 | a content is accepted exactly when it can be decoded and every rule has an id, a condition and one of the seven action names, and then as it was decoded; a byte-order mark before it makes no difference |
| RuleReload.ReloadDecides | src/orchestrator/src/rules.rs:389-444 | a reload case by case: less than 1 s after the last attempt nothing is done; else the attempt is noted, and a file that cannot be inspected, has the stored time, cannot be read or cannot be parsed leaves the rules alone, each with its own answer; any other file replaces them and the stored time |
| RuleReload.SkipsAreRightExactlyWhen | src/orchestrator/src/rules.rs:416-421 | every skip as unchanged is right exactly when memory and file agree whenever their modification times do |
| RuleReload.AgreementIsKeptExactlyWhen | src/orchestrator/src/rules.rs:416-437 | from agreement an edit or a reload leads to agreement exactly when its edit brings a modification time other than the stored one, or rules that are in memory already; a reload that loads is always in order |
| RuleReload.ReloadIsACacheExactlyWhen | src/orchestrator/src/rules.rs:389-444 | over every run from agreement, skips are right at every moment exactly when every edit of the run does so |
| RuleReload.NewEngineAgreesExactlyWhen | src/orchestrator/src/rules.rs:344-361 | a new engine begins in agreement exactly when the file has a modification time or holds no rules and no hysteresis |
| RuleReload.NewEngineLoads | src/orchestrator/src/rules.rs:341-361 | a new engine reports success with parsed rules if and only if the file system gave a modification time; otherwise it is left without rules and without an error |
| RuleReload.BrokenFileKeepsFailing | src/orchestrator/src/rules.rs:402-434 | a failed reload changes nothing but the throttle, so the same broken file fails again with the same error on the next attempt past it |
| RuleReload.EditBehindTheStoredTime | src/orchestrator/src/rules.rs:416-421 | a concrete run: a file is loaded and edited without a new time, and the next reload reports it unchanged with the old rules in memory |
| RuleEngine.RuleEngine.constructor | src/orchestrator/src/rules.rs:344-358 | a new engine has no rules, no triggers, no cooldowns, an empty calibration table and a throttle two seconds in the past |
| RuleEngine.RuleEngine.AdoptCalibration | src/orchestrator/src/rules.rs:368-370 | the engine holds the other one's own table afterwards and changes in nothing else |
| RuleEngine.RuleEngine.SetCalibratedThreshold | src/orchestrator/src/rules.rs:375-380 | the step of the run model that sets one threshold |
| RuleEngine.RuleEngine.ApplyCooldown | src/orchestrator/src/rules.rs:529-535 | the step of the run model that starts a reject cooldown |
| RuleEngine.RuleEngine.HotReload | src/orchestrator/src/rules.rs:389-444 | new state and outcome are those of the reload function; it is throttled exactly within 1 s of the last attempt, and rules and hysteresis change only when it reloads |
| RuleEngine.RuleEngine.Evaluate | src/orchestrator/src/rules.rs:447-523 | new state and actions are those of one evaluation step of the run model, followed by conflict resolution; with distinct ids the actions before that are one for each rule that is due, and those ids are stamped |
| RuleEngine.ReloadRules | src/orchestrator/src/ffi.rs:1489-1517 | the current engine is replaced only by one that loaded; that one starts without triggers and cooldowns and shares the old calibration table |
| ActionIds.IdsDistinct | src/orchestrator/src/ffi.rs:305-318 | identifiers are never zero, and any 2^32 - 1 consecutive ones are pairwise distinct, also across the wrap |
| ActionIds.IdsRepeat | src/orchestrator/src/ffi.rs:305-318 | the bound is exact: the next identifier repeats the first |
| PendingActions.StepKeeps | src/orchestrator/src/ffi.rs:970-1338 | every exported call keeps the ledger of held actions, the gate before the actuator, the queue's history and the notification ring |
| PendingActions.Conservation | src/orchestrator/src/ffi.rs:970-983 | over every run the actions ever held are those pending, approved, rejected, expired, cleared by a mode change or overwritten by an identifier come round again, the last of which cannot happen within 2^32 - 1 allocations; actions sent without approval are in the queue's history or counted as dropped; the queue is first in, first out |
| DirectActions.EveryActionIsAccountedFor | src/orchestrator/src/healing.rs:610-639 | over every run the identifiers handed out are those of the actions on their way, ever held, or sent without approval; those sent are exactly the ones announced as new without approval, in order, and each was queued at its place among the pushes or refused and counted |
| PendingActions.RouteDecides | src/orchestrator/src/healing.rs:610-639 | an action is held, with its rule and the moment, and announced for approval, exactly when its tick saw co-pilot mode and its category is not automatic, log-only actions always being so; otherwise it is announced without approval and queued, or counted as dropped if 64 actions wait |
| PendingActions.CollectDecides | src/orchestrator/src/healing.rs:559-593 | a rule action is given an identifier exactly when the mode is not manual, a recovery finds 0 < current < original bitrate, and in assist mode it is critical |
| PendingActions.NotificationRing | src/orchestrator/src/ffi.rs:1113-1128 | over every run the ring is the newest at most 64 events, and popped + dropped + waiting is everything pushed |
| PendingActions.ExactlyOneOutcome | src/orchestrator/src/ffi.rs:1236-1318 | every action ever held is waiting, or has left with exactly one outcome |
| PendingActions.OnlyApprovalsReachTheActuator | src/orchestrator/src/ffi.rs:1236-1275 | a held action is pushed to the actuator only if its one outcome is an approval, and only once, so never after a reject or an invalidation |
| PendingActions.DirectPushesWereAllowed | src/orchestrator/src/healing.rs:610-639 | what reached the actuator without approval was allowed to: never in manual mode, in co-pilot mode only with its category automatic, in assist mode only if critical |
| PendingActions.SettledIdsStaySettled | src/orchestrator/src/ffi.rs:1242-1246 | approving or rejecting an action that has an outcome does nothing and returns 0, until the identifiers have gone round |
| PendingActions.SweepRemovesTheOld | src/orchestrator/src/ffi.rs:1181-1202 | a sweep removes exactly the entries of 30 000 000 000 ns and older |
| PendingActions.ModeChangeRemovesAll | src/orchestrator/src/ffi.rs:1207-1222 | a change to another valid mode removes every entry; any other call changes nothing |
| PendingActions.NothingHeldOutsideCoPilot | src/orchestrator/src/ffi.rs:1323-1338 | in a run whose ticks send actions on by the mode still in force, nothing is pending outside co-pilot mode |
| ApprovalRuns.PushedExactlyBySuccessfulApprovals | src/orchestrator/src/ffi.rs:1236-1275 | over every run the held actions pushed to the actuator are exactly those of the approvals that returned 1, in their order |
| ApprovalRuns.FullQueueApprovalSurvives | src/orchestrator/src/ffi.rs:1253-1268 | an approval that meets a full queue returns 0, and in every run that follows for 30 s the action stays pending, with its time stamp refreshed, until it is approved or rejected again or the mode changes |
| UserNotifications.TheUserIsToldEverything | src/orchestrator/src/ffi.rs:1151-1222 | over every run the approval requests put to the user interface are exactly the held actions, and the withdrawals exactly the held actions that expired or fell to a mode change, each in order |
| HealingLoop.RunTies | src/orchestrator/src/healing.rs:515-593 | over every run of rule engine and pending actions together, each action on its way or pending can be traced by its identifier's allocation to the one action of that rule that was made for it |
| HealingLoop.TickCollects | src/orchestrator/src/healing.rs:515-593 | a tick evaluates the rules under the text of its mode, auto-pilot, co-pilot or assist, resolves conflicts and puts what the mode lets pass behind the actions collected before, in order; in manual mode it does nothing |
| HealingLoop.RejectOwesItsRule | src/orchestrator/src/ffi.rs:1290-1299 | a reject that returns 1 notes for cooling the rule of the very action it took out |
| HealingLoop.RejectedRuleStaysAway | src/orchestrator/src/ffi.rs:1284-1318 | once that rule's cooldown is applied, over every further run of both, each action of the rule that is on its way or pending was identified before that moment or made 120 s after it or later |
| HealingLoop.EarlierActionIsStillHeld | src/orchestrator/src/ffi.rs:1284-1318 | the first of these cases: a second action already on its way at the reject is held afterwards |
| FfiState.FfiState.NextActionId | src/orchestrator/src/ffi.rs:310-318 | one allocation of the identifier model |
| FfiState.FfiState.EnqueueAction | src/orchestrator/src/ffi.rs:970-983 | pushes while fewer than 64 wait, otherwise refuses the newest and counts it |
| FfiState.FfiState.EnqueueUiEvent | src/orchestrator/src/ffi.rs:1113-1128 | a full ring gives up its oldest event, counted |
| FfiState.FfiState.EnqueuePending | src/orchestrator/src/ffi.rs:1151-1176 | stores the action under its identifier and notifies |
| FfiState.FfiState.CollectAction | src/orchestrator/src/healing.rs:515-593 | one rule action of a tick: withheld in manual mode, without a reduced bitrate to recover, or uncritical in assist mode, and otherwise given the next identifier and put behind the others |
| FfiState.FfiState.RouteNext | src/orchestrator/src/healing.rs:610-639 | the next collected action, as the run model's routing step: held exactly when its tick saw co-pilot mode and its category is not automatic, otherwise behind the actuator's queue, or counted as dropped where 64 actions wait; other calls may come between any two |
| PendingActions.RunNumbers | src/orchestrator/src/healing.rs:574-586 | over every run identifiers come in order, collected actions after all held ones, and within one round of the counter no held action loses its place |
| FfiState.FfiState.ActionApprove | src/orchestrator/src/ffi.rs:1236-1275 | new state and code are those of the approval step |
| FfiState.FfiState.ActionReject | src/orchestrator/src/ffi.rs:1284-1318 | new state and code are those of the reject step; the rule to cool down is the one stored with the action |
| FfiState.FfiState.SweepExpiredPending | src/orchestrator/src/ffi.rs:1181-1202 | the sweep step, in whatever order the map yields its entries |
| FfiState.FfiState.SetHealingMode | src/orchestrator/src/ffi.rs:1323-1338 | the mode step: refused above 3, and pending actions are invalidated only by a real change |
| FfiState.FfiState.ActionDequeue | src/orchestrator/src/ffi.rs:844-862 | takes the oldest waiting action |
| FfiState.FfiState.ActionEventDequeue | src/orchestrator/src/ffi.rs:874-892 | takes the oldest waiting event |
| Calibration.Moments | src/orchestrator/src/calibration.rs:80-90 | after any samples mean * n is their sum and m2 is the sum of squares less n * mean^2, by one algebraic step per sample |
| Calibration.WelfordIsBatch | src/orchestrator/src/calibration.rs:80-90 | the online mean is the average and the online m2 is the sum of squared deviations from it |
| Calibration.WelfordIgnoresOrder | src/orchestrator/src/calibration.rs:80-90 | two sample sequences that are permutations of each other give the same statistics |
| Calibration.SpreadIsZeroIffConstant | src/orchestrator/src/calibration.rs:113-119 | m2 is never negative, and it is zero exactly when max = min, which is exactly when no two samples differ |
| Calibration.VarianceBound | src/orchestrator/src/calibration.rs:102-107 | the variance is at most (max - mean) * (mean - min) |
| Calibration.FewSamplesAbove | src/orchestrator/src/calibration.rs:120-121 | at most one sample in nine lies strictly above mean + 3 sigma |
| Calibration.StdDevUnique | src/orchestrator/src/calibration.rs:102-107 | the standard deviation entering as a parameter is determined by its defining property |
| Calibration.StdDevOfSamples | src/orchestrator/src/calibration.rs:102-107 | its square is the mean of the squared deviations of all samples from their mean |
| Calibration.CalibratesExactlyWhen | src/orchestrator/src/calibration.rs:113-119 | a threshold results exactly from 60 or more samples of which two differ, and too few samples are the reason given exactly below 60 |
| Calibration.ThresholdGuarantee | src/orchestrator/src/calibration.rs:113-123 | the threshold is the mean of the samples plus 3.0 times their standard deviation, within 0.5, where that lies in [50, 95], is 50 below that range and 95 above it, and unless cut down to 95 is exceeded by at most a ninth of the samples |
| Calibration.BaselineCalibrator.Observe | src/orchestrator/src/calibration.rs:80-90 | the fields, updated in place, are the statistics of all samples so far |
| Calibration.BaselineCalibrator.Finalize | src/orchestrator/src/calibration.rs:113-123 | the outcome is the policy applied to the samples: a threshold exactly from 60 samples of which two differ, and then mean plus 3.0 sigma within 0.5, cut to [50, 95] |
| FramePacer.DeadlinesSpread | src/pipeline/frame_pacer.cpp:39-48 | each call moves the deadline by one frame at least |
| FramePacer.RateBound | src/pipeline/frame_pacer.cpp:39-56 | k - j calls take at least k - j - 4 frame lengths, whatever the clock does in between |
| FramePacer.BurstBound | src/pipeline/frame_pacer.cpp:39-56 | at most w / f + 5 calls fit between two clock readings w ticks apart |
| FramePacer.RateBoundIsSharp | src/pipeline/frame_pacer.cpp:44-45 | for every number of calls from 5 on there is a run that reaches the bound |
| FramePacer.NoDrift | src/pipeline/frame_pacer.cpp:39-46 | the deadline is the start plus the number of frames exactly in runs without a resync; otherwise it is later |
| FramePacer.ReturnsAfterDeadline | src/pipeline/frame_pacer.cpp:44-55 | a call that does not resync returns no earlier than its deadline; one that does leaves one frame to the next |
| FramePacer.MicrosAreExact | src/pipeline/frame_pacer.cpp:20-22 | a presentation time is the elapsed time to the microsecond, and later frames never have earlier ones |
| FramePacer.FramePacer.Init | src/pipeline/frame_pacer.cpp:26-35 | succeeds exactly for a non-zero rate and frequency; frame length, origin and first deadline; a refusal changes nothing |
| FramePacer.FramePacer.Pace | src/pipeline/frame_pacer.cpp:39-56 | the call appended to the run, with the readings it used: it waits exactly when early and not resyncing, and stops at the first reading past the deadline |
| ShaderHash.Hash | src/ui/shader_cache.h:14-30 | the loop computes the fold of the step over the bytes |
| ShaderHash.TestVectors | src/ui/shader_cache.h:14-21 | the published 64-bit FNV-1a hashes of the empty input and of the letter a |
| ShaderHash.XorTwice | src/ui/shader_cache.h:17-18 | exclusive or with the same word twice is the identity, for words of any length |
| ShaderHash.PrimeCancels | src/ui/shader_cache.h:11-19 | multiplication by the prime modulo 2^64 is undone by an inverse, on both sides |
| ShaderHash.StepIsBijective | src/ui/shader_cache.h:16-19 | for a fixed byte a step is a bijection on 64-bit states |
| ShaderHash.StepSeparatesBytes | src/ui/shader_cache.h:16-19 | for a fixed state different bytes lead to different states |
| ShaderHash.FoldConcat | src/ui/shader_cache.h:14-21 | hashing a concatenation continues from the hash of the first part |
| ShaderHash.FoldIsBijective | src/ui/shader_cache.h:14-21 | for fixed data the fold is a bijection on states |
| ShaderHash.OnlyTheMiddleCounts | src/ui/shader_cache.h:14-21 | whether two inputs with a common beginning and end collide depends on their middles alone, in both directions |
| ShaderHash.OneByteNeverCollides | src/ui/shader_cache.h:14-21 | inputs of one length that differ in a single byte have different hashes |
| AudioRing.StepKeepsInv | src/pipeline/audio/audio_ring.h:35-72 | every atomic step of either thread keeps the ring's invariant, with stale loads of the other index |
| AudioRing.FifoUnderInterleaving | src/pipeline/audio/audio_ring.h:35-72 | after any interleaving 0 to 16 chunks are stored, and those consumed followed by those stored are those accepted, in order and unaltered |
| AudioRing.ConsumedChunksAreWhole | src/pipeline/audio/audio_ring.h:35-72 | over every interleaving each chunk handed out is the header and exactly the first frames * channels samples of one call of the producer, different calls for different chunks, in the order of the calls |
| AudioRing.WriterAndReaderApart | src/pipeline/audio/audio_ring.h:48-71 | while both threads are at work on slots they are different slots, and no producer step changes the slot being read |
| AudioRing.EveryPushIsCounted | src/pipeline/audio/audio_ring.h:37-47 | every finished push is accepted, dropped for fullness or rejected as invalid, each counted apart modulo 2^32 |
| AudioRing.FreshLoadsDecideExactly | src/pipeline/audio/audio_ring.h:42-47 | with a current index a chunk is dropped if and only if the ring is full and a consumer leaves if and only if it is empty; a full ring always drops and an empty one always turns away |
| AudioRing.PushAloneIsReached | src/pipeline/audio/audio_ring.h:35-57 | a whole push without interference is a path of atomic steps to the stated result |
| AudioRing.PushAloneAppends | src/pipeline/audio/audio_ring.h:35-57 | and that result appends the chunk of an acceptable call while there is room, or leaves the contents alone |
| AudioRing.PushAloneDecides | src/pipeline/audio/audio_ring.h:35-57 | written out: the pointer is not null, 0 < frames * channels <= 8192 and fewer than 16 chunks wait if and only if a chunk is appended, which is the header and the first frames * channels samples given |
| AudioRing.ConsumeAloneIsReached | src/pipeline/audio/audio_ring.h:62-72 | a whole consumption without interference is a path of atomic steps |
| AudioRing.ConsumeAloneTakesOldest | src/pipeline/audio/audio_ring.h:62-72 | and it hands out exactly the oldest chunk and removes it |
| AudioRing.AudioRing.Push | src/pipeline/audio/audio_ring.h:35-57 | true exactly when the pointer is not null, 0 < frames * channels <= 8192 and fewer than 16 chunks wait; then the first frames * channels samples are appended with their header, otherwise the contents stay |
| AudioRing.AudioRing.Consume | src/pipeline/audio/audio_ring.h:62-72 | hands out the oldest chunk, or nothing exactly when there is none |
| HealingLog.StepKeepsInv | src/orchestrator/src/healing_log.rs:143-263 | every step of the producers, the writer and the shutdown keeps order and conservation and what the stop flag obliges the writer to |
| HealingLog.AcceptedStayInOrder | src/orchestrator/src/healing_log.rs:198-263 | over every run the finished batches, the batch in hand and the queue are the accepted records in order |
| HealingLog.ShutdownFlushes | src/orchestrator/src/healing_log.rs:171-176 | a shutdown that returns has flushed: with the database open and every insertion successful all records accepted before it began are rows, in order, whatever was pushed meanwhile |
| HealingLog.ShutdownHandsOverExactlyWhen | src/orchestrator/src/healing_log.rs:166-176 | over every run, insertions failing or not: when a shutdown returns, the records accepted before it have all been passed to the database in order exactly when the call found the handle and the database could be opened, or nothing was in hand or queued |
| HealingLog.ShutdownFlushesExactlyWhen | src/orchestrator/src/healing_log.rs:166-176 | with successful insertions those records are rows when the shutdown returns exactly under that condition; the handle is there exactly when the start is complete with a thread and no shutdown came before |
| HealingLog.RowsAreCompleteExactlyWhen | src/orchestrator/src/healing_log.rs:239-245 | what was passed to the database is on disk exactly when no insertion failed |
| HealingLog.ShutdownTerminates | src/orchestrator/src/healing_log.rs:217-251 | after the stop flag each writer step brings the end nearer, no other step moves it away, and the writer always has a step |
| HealingLog.LossesAreCountedExceptEarlyOnes | src/orchestrator/src/healing_log.rs:143-148 | over every run each push is accepted or turned away, and those turned away are counted, except those that came before the start |
| HealingLog.NothingWrittenAfterExit | src/orchestrator/src/healing_log.rs:143-176 | after the writer's exit nothing is written; records pushed fill the queue up and only then are counted |
| HealingLog.LatePushesAreCountedExactlyWhen | src/orchestrator/src/healing_log.rs:166-170 | the records pushed when the writer has exited, or could never be made, are all counted exactly when the queue was left full or there are none |
| HealingLog.PushesAreCountedExactlyWhen | src/orchestrator/src/healing_log.rs:143-148 | from the start on, also while the writer is still at work behind a shutdown that has returned, pushes are all counted exactly when each finds the queue full |
| HealingLog.LatePushIsLostUncounted | src/orchestrator/src/healing_log.rs:166-170 | a run in which a push after a regular shutdown is accepted, not counted, and never written however the run goes on |
| HealingLog.PushWithoutThreadIsLostUncounted | src/orchestrator/src/healing_log.rs:179-196 | a run in which the thread could not be made: a push after the shutdown is accepted, uncounted and never written |
| HealingLog.EarlyShutdownDoesNotFlush | src/orchestrator/src/healing_log.rs:149-176 | a run in which a shutdown between queue and handle returns at once with an accepted record unwritten |
| HealingLog.SecondShutdownDoesNotFlush | src/orchestrator/src/healing_log.rs:171-176 | a run in which a second shutdown, the first still joining, returns at once with an accepted record unwritten |
| HealingLog.ShutdownWithoutDatabase | src/orchestrator/src/healing_log.rs:203-212 | a run in which a shutdown waits for a writer that cannot open its database and returns with an accepted record unwritten |
| HealingLog.TurnIsReached | src/orchestrator/src/healing_log.rs:218-245 | one undisturbed turn of the writer's loop is a path of steps that takes the whole queue as one batch |
| HealingLog.HealingLog.LogHealing | src/orchestrator/src/healing_log.rs:143-148 | the push step |
| HealingLog.HealingLog.StartWriter | src/orchestrator/src/healing_log.rs:149-165 | the start as its three steps; a second start changes nothing |
| HealingLog.HealingLog.WriterTurn | src/orchestrator/src/healing_log.rs:218-251 | the drain loop and its insertion leave the state of that undisturbed turn |
| HealingLog.HealingLog.Shutdown | src/orchestrator/src/healing_log.rs:122-136 | the first call raises the flag and waits, later ones find no handle |
| GpuHandshake.StepKeepsInv | src/pipeline/copy_optimizer.cpp:213-460 | every step of a painted frame and of the devices keeps the handshake's invariant |
| GpuHandshake.TimelineHasNoGaps | src/pipeline/copy_optimizer.cpp:361-436 | the values signalled are 1, 2, 3, ... despite failed submissions, and at most one copy is unfinished |
| GpuHandshake.NoResetBeforeCompletion | src/pipeline/copy_optimizer.cpp:213-243 | when a command buffer is reset every earlier copy is finished |
| GpuHandshake.SignalsMatchWaits | src/pipeline/copy_optimizer.cpp:367-379 | per image, semaphore signals minus waits is 1 if its flag is set and 0 otherwise |
| GpuHandshake.NoOverwriteWhileSampled | src/ui/preview_widget.cpp:542-557 | with both fence entry points present no copy overwrites an image that an unfinished draw samples |
| GpuHandshake.NoOverwriteExactlyWhen | src/ui/preview_widget.cpp:542-557 | no run does so exactly when both are present; a run that does is given for each case without one |
| GpuHandshake.DrawIsOrderedExactlyWhen | src/ui/preview_widget.cpp:651-659 | a draw from the pool is ordered after the last copy into its image exactly when that copy carried a signal and the wait for it is available, or when it is finished |
| GpuHandshake.DrawAfterOwnCopyIsOrdered | src/ui/preview_widget.cpp:558-571 | the draw that follows a copy in one frame is always ordered, and the copy goes to another image |
| GpuHandshake.DrawMayOvertakeSecondCopy | src/ui/preview_widget.cpp:651-659 | a run in which a second copy carries no signal and a repaint samples its image before it is finished |
| GpuHandshake.LayoutIsRightExactlyWhen | src/pipeline/copy_optimizer.cpp:273-289 | the recorded layout is the image's real one exactly when the slot was never used or has been used since the last resize |
| GpuHandshake.LayoutIsRightWithoutResize | src/pipeline/copy_optimizer.cpp:273-289 | it is always right in a run without a resize |
| GpuHandshake.ResizeLeavesUsedLayoutsStale | src/ui/preview_widget.cpp:463-492 | a resize leaves the recorded layout wrong for exactly the slots used before |
| GpuHandshake.StaleLayoutIsReached | src/ui/preview_widget.cpp:463-492 | a run that is about to submit a copy with a wrong old layout |
| GpuHandshake.CopyOptimizer.ExecuteCopy | src/pipeline/copy_optimizer.cpp:159-466 | succeeds exactly under the listed checks and driver answers; a failure, rolled back or early, changes no field; a success advances counter, layout and flag |
| GpuHandshake.CopyOptimizer.ClearGlSignal | src/pipeline/copy_optimizer.h:67-69 | clears one flag, or nothing for an index outside the pool |
| HealingMonitor.StepKeepsRate | src/orchestrator/src/healing.rs:194-213 | every event and tick keeps the emissions of a layer spaced and the tracker in step with them |
| HealingMonitor.EmissionsAreSpaced | src/orchestrator/src/healing.rs:145-213 | over every run two sends on one layer, by whichever handlers, are at least 20, 60 or 120 s apart, whenever between its two clock readings each happened |
| HealingMonitor.HeldBackExactlyWhen | src/orchestrator/src/healing.rs:195-204 | a layer is held back exactly while an earlier emission of it is too recent |
| HealingMonitor.ManualRunIsSilent | src/orchestrator/src/healing.rs:326-380 | in manual mode nothing changes and nothing is emitted |
| HealingMonitor.EveryEmissionHasItsCause | src/orchestrator/src/healing.rs:326-425 | over every run each emission stems from an input outside manual mode that asks for just that event on just that layer, between that input's own clock readings |
| MonitorDecisions.EventsAreSentExactlyWhen | src/orchestrator/src/healing.rs:326-425 | after every run an event sends exactly what is listed for it (at or past 0.92 of the CPU, 0.98 of the GPU, 0.96 of memory, 8 drops, or always) if and only if the mode is not manual and every emission so far on its layer, by whichever handler or tick, lies 20, 60 or 120 s back |
| MonitorDecisions.SystemEventsSetTheirMetric | src/orchestrator/src/healing.rs:326-377 | a system event changes the metric it reports and no other: loads as the percentage rounded down within 32 bits, round trips cut to 16 bits, losses to [0, 100] and rounded down |
| MonitorDecisions.MediaEventsCount | src/orchestrator/src/healing.rs:379-425 | a media event changes at most the share of dropped frames, cut to 100, and the number of recent drops, which saturates at 2^32 - 1 |
| MonitorDecisions.LoadReadingsMakeTheTrend | src/orchestrator/src/healing.rs:331-347 | a load reading below the critical one starts a trend, lets it go on or ends it, as it is high or not; a critical one leaves it alone |
| MonitorDecisions.TicksDecide | src/orchestrator/src/healing.rs:648-695 | what a tick sends, in order: the codec lightened exactly after a trend of 4 s with the layer ready, the bitrate lowered to 3500 exactly at the drop limit with the layer still ready, the adaptation announced exactly where the load threshold falls with its layer ready; and the trend, the drop count and the threshold it leaves |
| MonitorDecisions.AdaptiveDecides | src/orchestrator/src/healing.rs:676-695 | in auto-pilot and assist mode the load threshold becomes 0.97 of the last reading, though not below 0.55, where that is lower, and the bitrate threshold then rises by 0.01 up to 0.25, announced or not |
| MonitorDecisions.TicksCollectSamples | src/orchestrator/src/healing.rs:447-458 | until the calibration is settled each tick outside manual mode collects the memory load unless it is zero, and it is settled by the first one 180 s after the start or later |
| HealingMonitor.TrendIsSustained | src/orchestrator/src/healing.rs:641-646 | a load trend under way began with a reading at the threshold or above it, and no reading since was below |
| HealingMonitor.PredictiveLightenNeedsSustainedLoad | src/orchestrator/src/healing.rs:648-660 | a tick lightens the codec only after such a load of 4 s or more |
| HealingMonitor.ThresholdsStayInRange | src/orchestrator/src/healing.rs:145-155 | over every run the high-CPU threshold only falls, within [0.55, 0.75] and below the critical one, and the bitrate threshold only rises, within [0.18, 0.25] |
| HealingMonitor.CalibrationSettlesOnce | src/orchestrator/src/healing.rs:447-458 | the calibration is settled exactly from the first tick outside manual mode after 180 s on, for good, by 60 or more non-zero samples of which two differ, as mean plus 3.0 sigma to the nearest integer from 50 to 95, or else without a threshold |
| HealingMonitor.MetricsStayInRange | src/orchestrator/src/healing.rs:371-416 | frame drop and network loss percentages stay at most 100 |
| HealingMonitor.HealingMonitor.OnSystem | src/orchestrator/src/healing.rs:326-378 | new state is that of the system event function |
| HealingMonitor.HealingMonitor.OnMedia | src/orchestrator/src/healing.rs:379-425 | new state is that of the media event function |
| HealingMonitor.HealingMonitor.OnPeriodic | src/orchestrator/src/healing.rs:430-441 | new state is that of the tick: calibration, trends, adaptation, in that order |
| DropWindow.SumIsRange | src/pipeline/metrics_collector.cpp:178-188 | all ring slots in use, in whatever order they lie, add up to the newest differences |
| DropWindow.SumIsDifference | src/pipeline/metrics_collector.cpp:172-188 | and these to the total now less the total a window of polls ago, modulo 2^32 |
| DropWindow.DropsSincePoll | src/pipeline/pipeline.cpp:414-425 | with polls anywhere between a frame and its drop, drops since any poll exceed frames by one at most, and by none while a frame is unanswered |
| DropWindow.PctInRangeExactlyWhen | src/pipeline/metrics_collector.cpp:189 | the number is a percentage exactly when drops do not exceed frames, or there are more than 100 frames, or none |
| DropWindow.PctIsShare | src/pipeline/metrics_collector.cpp:189 | where the product fits 32 bits the number is the share of drops among frames in per cent, rounded down |
| DropWindow.PublishedPct | src/pipeline/metrics_collector.cpp:172-191 | the same for the window of every history of packets and polls, however long; for windows whose own frames exceed 32 bits the wrapped sums decide |
| DropWindow.PctAbove100 | src/pipeline/include/metrics_collector.h:15 | for every window length a history that publishes 200 |
| DropWindow.MetricsCollector.CalculateFrameDropPct | src/pipeline/metrics_collector.cpp:172-192 | publishes the quotient of drops and frames since a window of polls ago, from rings updated in place |

## Left out

- User interface, windows, settings, capture and encoding, and all GL, Vulkan, Direct3D and audio device calls: only their counters, flags, indices and results appear.
- JSON and TOML decoding: a given partial function from text to rules; text errors are one kind of failure.
- SQLite: the database is the sequence of inserted batches; removal of rows older than 30 days is not modelled.
- The WebSocket server, its authentication and its copies of events; healing-log rows written by the pending-action calls.
- The command ring and the bitrate arithmetic of the actuator, whose headers are not part of this model.
- Floating-point rounding: floats are real numbers, so NaN and infinities do not occur.
- Counters of 64 bits and clock ticks do not overflow; the 32-bit counters wrap as in the code, except those of dropped queue entries and events, which are plain numbers.
- Memory ordering beyond stale index loads: data written before a published index is visible to whoever loads that index. The ring's size read from a third thread.
- PendingActions.StepKeeps: each exported call is one atomic step, and so is each action a tick identifies or sends on; the calls hold the pending lock throughout, but the notifications that follow its release are part of the step here.
- PendingActions.NothingHeldOutsideCoPilot: stated for ticks whose mode is still in force when they send an action on; one overtaken by a mode change may still hold an action by the old mode, until its 30 s have passed.
- FfiState.FfiState.SetActionAutoApprove: categories are the three valid ones; other numbers and null pointers, refused at the boundary, do not occur.
- RuleFiring.FiringSpacing: for one engine, since an engine built by a reload begins without triggers and cooldowns; times are the reading of the clock at the start of an evaluation, which is what hysteresis compares, not the time stamp put on the action a moment later.
- HealingLoop.RejectedRuleStaysAway: for one engine, as above; a direct push to the actuator is covered while its action is on its way, since the queue does not keep the rule.
- HealingMonitor.CalibrationSettlesOnce: the threshold's way into the engine's table is the calibration event of the rule engine's runs.
- GpuHandshake.StepKeepsInv: one lifetime from initialisation to shutdown, and a painting thread as a state machine on values, since devices make progress between any two of its calls; of the copy only the optimizer is an object. The keyed mutex, the staging image and the CPU fallback texture's contents are not modelled.
- AudioRing.AudioRing.Push: the object's calls run while the other thread rests; interleavings are the state machine's, and each call is shown to be a path of it. A slot's samples are a value replaced in place.
- HealingLog.HealingLog.WriterTurn: likewise one turn of the writer without interference.
- ShaderHash.Hash: strings are their bytes; the cache around the keys is not modelled.
- FramePacer.FramePacer.Pace: sleeping and spinning are readings of the clock; the build for other systems, which refuses to start, is left out.
- Device recovery, exception filters, ABI size checks, build and benchmark scripts.
