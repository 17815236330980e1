# Zscaler cloud node cleanup: the per-VM cleanup decision procedure

The tool lists every Edge Connector group and its VMs from the Zscaler
Cloud Connector API. It prints a report line for each group and VM. It then
offers each INACTIVE VM that is not already tagged DELETING for deletion.

In dry-run mode (the default) an offered VM only gets a log of the API path
that would be deleted. In live mode the answer `fmt.Scanln` stores (the first
word the operator types) must be "y" or "yes" once trimmed and lower-cased.
A confirmed delete call is always followed by a 30-second cooldown. The first
delete error ends the whole scan. The raw JSON of the listing is written once,
to a file whose name comes from the clock reading at the first INACTIVE VM,
whether or not that VM is already tagged DELETING.

The model is functional. `Scan.Run(env, groups, responses)` produces the
sequence of actions one run performs (`Trace.Action`): report lines, the
queued notice, the raw JSON write, prompts, operator answers, dry-run logs,
cancellations, confirmations, delete calls, cooldowns and the three ways a
run ends early. Everything outside the procedure is an oracle in `Scan.Env`:
- the dry-run flag;
- the working directory;
- the one clock reading;
- whether the file write fails;
- which delete paths the API rejects;
- the local rendering of a non-zero timestamp.

The operator's answers are the sequence of strings the successive
`fmt.Scanln` calls would store. Once they run out, the answer is the empty
string, which cancels.

The run-level properties are stated on views of the trace (`Trace.Digest`):
- the delete calls;
- the dry-run logs;
- both together, in order (the "intents");
- the operator-facing actions;
- the report lines;
- the file writes;
- the file names mentioned.

Modules follow the program's structure:
- `Types`: the decoded `EcGroup`/`ECVMs` records.
- `Text` and `Decimal`: the `strings` and `%d` behaviour used.
- `Report`: glyph, node suffix, upgrade label.
- `Paths`: the delete path.
- `DebugOutput`: `getJsonOutputPath`.
- `Guard`: classification and `EcVMDelete`.
- `Scan`: the loop in `setupClient`.
- `RunProperties` and `RunIntents`: whole-run theorems.

A VM without network instances makes the code panic when it reads the first
instance's IP (main.go:146). The model keeps that panic as the `IndexPanic`
action, which ends the run, rather than showing a placeholder IP.

## Model

| member | source | states |
|---|---|---|
| Report.PlatformIcon | main.go:36-45 | the AWS glyph exactly when the platform spells "AWS" in any case, the GCP glyph exactly when it spells "GCP", the generic cloud glyph for every other platform |
| Report.PlatformIconIgnoresCase | main.go:37 | lower- or upper-casing the platform name never changes its glyph |
| Text.LastIndexSpec | main.go:145 | the index found holds the hyphen and no hyphen follows it; -1 means there is none |
| Report.Header | main.go:128-136 | the group header line; its contract is carried by `RunProperties.RunVisits` |
| Report.Line | main.go:146-165 | the VM report line, reading the first network instance; its contract is carried by `RunProperties.RunVisits` |
| Report.NodeSuffix | main.go:145 | the node suffix of a VM name; its contract is carried by `Report.NodeSuffixShape`, `Report.NodeSuffixWithoutHyphen` and `Report.NodeSuffixExample` |
| Report.NodeSuffixShape | main.go:145 | the suffix ends the name, contains no hyphen, and is either the whole name or preceded by a hyphen |
| Report.NodeSuffixWithoutHyphen | main.go:145 | a name without a hyphen is its own suffix |
| Report.NodeSuffixExample | main.go:145 | "grp-aws-07" shows "07" and "standalone" shows itself |
| Report.UpgradeLabel | main.go:150-155 | the last-upgrade column; its contract is carried by `Report.UpgradeLabelUnambiguous` |
| Report.UpgradeLabelUnambiguous | main.go:150-155 | with a renderer that keeps to the "02-01-2006 15:04:05" layout, "None" is shown exactly for a VM never upgraded |
| Guard.HasDeletingTag | main.go:167-172 | the loop over the status tags finds "DELETING" exactly when it is among them |
| Guard.Classify | main.go:174-186 | a VM is left alone exactly when it is not INACTIVE, only logged exactly when it is INACTIVE and tagged DELETING, and offered for deletion exactly when it is INACTIVE and not tagged |
| Guard.NextResponse | main.go:201-202 | the answer `fmt.Scanln` stores, or "" once input runs out; its contract is carried by `Guard.ConfirmDeleteResult` and `RunIntents.ExpectedIntentsUnconfirmed` |
| Text.TrimSpaceSpec | main.go:205 | the trimmed answer neither starts nor ends with white space, and only white space was removed around it |
| Text.TrimSpaceOfPadded | main.go:205 | trimming a word padded by white space gives the word back |
| Guard.Affirmative | main.go:204-206 | the trimmed, lower-cased answer test; its contract is carried by `Guard.AffirmativeIff` |
| Guard.AffirmativeIff | main.go:204-209 | an answer confirms deletion exactly when it is "y" or "yes" in some mix of cases, with optional white space around it |
| Decimal.IntDecimal | main.go:198 | the `%d` rendering of an identifier is non-empty, made of digits, with a leading minus exactly for a negative number |
| Decimal.IntDecimalRoundTrip | main.go:198 | reading the rendering back gives the identifier |
| Decimal.IntDecimalInjective | main.go:198 | different identifiers render differently |
| Paths.DeletePath | main.go:198 | the path logged in dry-run mode and deleted in live mode (main.go:213); its contract is carried by `Paths.DeletePathRoundTrip` and `Paths.DeletePathInjective` |
| Paths.DeletePathRoundTrip | main.go:198 | both identifiers can be read back from "/ecgroup/{groupId}/vm/{vmId}" |
| Paths.DeletePathInjective | main.go:212-213 | different VMs are never sent to the same delete path |
| Guard.ConfirmDelete | main.go:193-221 | `EcVMDelete`; its contract is carried by `Guard.ConfirmDeleteOutcome`, `Guard.ConfirmDeleteResult` and `Guard.ConfirmDeleteGuarded` |
| Guard.ConfirmDeleteOutcome | main.go:193-221 | after the prompt: dry-run logs the path; live mode reads one answer and either cancels, or confirms, deletes that path and sleeps 30 seconds |
| Guard.ConfirmDeleteResult | main.go:197-220 | dry-run reads no answer and never fails; live mode reads exactly one answer and fails exactly when a confirmed delete of the path is rejected |
| Guard.ConfirmDeleteGuarded | main.go:206-218 | within one call, every delete comes right after an affirmative answer and its confirmation and is followed by the cooldown |
| Guard.LiveProtocolGuarded | main.go:206-218 | any sequence of cancelled or confirmed attempts has every delete confirmed by an affirmative answer and cooled down, and every cooldown after a delete |
| DebugOutput.OutputFile | main.go:250 | the raw JSON file name; its uniqueness within a run is carried by `RunProperties.RunWritesOnce` |
| DebugOutput.JsonOutputPath | main.go:247-259 | the first call fixes the path from the clock and writes once; a later call returns the remembered path and changes nothing |
| DebugOutput.JsonOutputPathIdempotent | main.go:248-258 | a second call, whatever the clock then reads, returns the same path without writing |
| DebugOutput.CallManyWritesOnce | main.go:247-259 | any series of calls writes at most once, and every call returns the path named by the first call's clock reading |
| Scan.Run | main.go:117-190 | one whole run; its contracts are carried by the `RunProperties` and `RunIntents` lemmas below |
| Scan.VisitGroups | main.go:126-141 | the group loop, with its skip of groups without VMs; its contract is carried by `RunProperties.RunVisits` and `RunIntents.RunIntends` |
| Scan.VisitVms | main.go:143-189 | the VM loop of one group and the blank line after it; its contract is carried by `RunProperties.RunVisits`, `RunProperties.RunEnds` and `RunIntents.RunIntends` |
| Scan.VisitVm | main.go:145-187 | one VM; its contract is carried by `Scan.VisitVmStops`, `Scan.VisitVmNext`, `Scan.VisitVmEnds` and `Scan.VisitVmDigest` |
| Scan.VisitCandidate | main.go:174-186 | an INACTIVE VM: the queued notice, the raw JSON file with its fatal write failure, then the DELETING log or the `EcVMDelete` call and the return on its error; its contract is carried by `Scan.VisitVmStops`, `Scan.VisitVmNext` and `Scan.VisitVmDigest` |
| Scan.VisitVmStops | main.go:145-186 | a VM ends the run exactly when: it has no network instance; or it is INACTIVE and the first raw JSON write fails; or it reaches the guard in live mode, is confirmed, and its delete call is rejected |
| Scan.VisitVmNext | main.go:174-209 | a VM that does not end the run consumes an answer exactly when it reaches the guard in live mode, and moves the debug output on exactly when it is INACTIVE |
| Scan.VisitVmEnds | main.go:179-183 | a VM step that carries on has no ending action; one that stops ends with its single ending action |
| Scan.VisitVmDigest | main.go:143-187 | one VM shows its report line unless it panics; when INACTIVE, it also shows the raw JSON file (written on first use) and, if eligible, the guard's actions |
| RunIntents.VmDigestIntents | main.go:174-186 | a VM names its delete path exactly when it reaches the guard and is either in dry-run mode or confirmed by the operator |
| RunIntents.VmIntents | main.go:174-187 | one VM step names what the expected step for its listing entry names and leaves the same answers, or stops with a prefix of it |
| RunProperties.RunModeViews | main.go:197-218 | in dry-run mode a run reads no answer and makes no delete call or cooldown, and every path it names is a dry-run log; in live mode every path it names is a delete call |
| RunProperties.RunLiveProtocol | main.go:201-218 | across the whole run, every answer read is followed by its cancellation, or by its confirmation, one delete and the 30-second cooldown; so every delete is confirmed and cooled down |
| RunProperties.RunEnds | main.go:179-183 | a panic, a failed file write or a failed delete is the run's last action |
| RunProperties.RunCompletes | main.go:126-190 | with every VM reportable, the file writable and, in live mode, every delete accepted, the run never ends early |
| RunProperties.RunVisits | main.go:126-165 | the report lines follow the listing: each group's header then its VMs, in API order, cut short where the run stops and complete when it does not |
| RunProperties.RunReportsAll | main.go:126-165 | without a stop condition the run reports every group and every VM |
| RunProperties.RunWritesOnce | main.go:247-259 | a run writes the raw JSON file at most once, and every write and file notice concerns the one file named by the first clock reading |
| RunIntents.RunIntends | main.go:126-190 | the paths a run names are, in order, the eligible VMs of the listing that are in dry-run mode or confirmed in turn, cut short at the stop and complete without one |
| RunIntents.RunIntendsAll | main.go:126-190 | when every VM is reportable and the file can be written, the paths a run names are exactly the reference ones, including the path of a rejected delete call that ends the run |
| RunIntents.RunDeletesOnlyEligible | main.go:174-187 | every path a run deletes or logs is the path of a listed VM that is INACTIVE and not tagged DELETING, under its own group |
| RunIntents.ExpectedIntentsDryRun | main.go:197-199 | in dry-run mode the expected paths are those of all eligible VMs, whatever the operator would have answered |
| RunIntents.RunDryRun | main.go:197-199 | a dry run logs the eligible VMs' paths in API order, makes no delete call and reads no answer, and logs all of them when nothing stops it |
| RunIntents.RunLiveDeletes | main.go:201-220 | a live run deletes a prefix of the confirmed eligible VMs in API order and logs no dry-run line; when every VM is reportable and the file can be written, it deletes all of them, up to and including the first rejected call |
| RunIntents.ExpectedIntentsUnconfirmed | main.go:206-209 | with no affirmative answer available, live mode expects no path |
| RunIntents.RunUnconfirmedDeletesNothing | main.go:204-209 | a live run whose answers are all non-affirmative calls delete on nothing |

## Left out

- Reading `DRY_RUN` from the environment and `strconv.ParseBool` (main.go:49-54) are library behaviour. The flag is an input of `Scan.Env`; its default when unset is true (main.go:26).
- Credentials, the embedded assets, SDK configuration and client construction (main.go:77-113) are I/O and a foreign SDK.
- Paging through `/ecgroup` and the JSON marshal/unmarshal round trip (main.go:223-245) are foreign code. The model starts from the decoded groups. A listing error is fatal before any VM is seen (main.go:119-121). When strict decoding fails, the raw bytes are still returned (main.go:241); this is not modelled.
- Creating the output folder (main.go:66-72) is filesystem I/O. `DebugOutput.JsonPathPrefix` only builds its path.
- Time is an oracle:
  - the local-time rendering of a non-zero upgrade time (main.go:154) is `Env.formatTime`;
  - the clock read by `getJsonOutputPath` (main.go:249) is `Env.clock`;
  - the clock read for the queued notice (main.go:175) only affects console text and is dropped.
- `fmt.Scanln` tokenisation (main.go:202) is abstracted. Each response is the string one call would store, which is the first word typed; its "expected newline" error is ignored by the code. How a typed line splits into stored answers (a line "y no" confirms with "y"; what the rest of that line does to the next prompt) is not modelled.
- Real sleeping, real file writes and the real delete call (main.go:212-218, 252) are trace actions. Their outcomes come from oracles.
- Console text and glyphs are not modelled as text, except the glyph choice. This includes the mismatched `Printf` arguments of the delete-error message (main.go:181): the model records only which VM failed.
- Text.ToLower: maps only ASCII letters. No other rune lowercases to 'y', 'e' or 's', so `Guard.Affirmative` is exact.
- Text.ToUpper: maps only the runes whose upper case is an ASCII letter (ASCII lower case, U+017F and U+0131). Other runes keep their value, which is exact for comparing against "AWS" and "GCP".
- Strings are sequences of Unicode scalar values. Go slices `ecVM.Name` at a byte offset (main.go:145); for a hyphen, the byte and rune positions give the same suffix. Invalid UTF-8 is not represented.
- Scan.Env: the delete outcome is a function of the path (`deleteFails`). A listing that holds the same VM twice under one group therefore gets the same outcome for both delete calls; the real API could answer them differently.
- Go's `int` is 64 bits wide. Identifiers and timestamps are unbounded integers here, because the code only formats them.
- Reading the service network of the first instance (main.go:146) is taken to succeed whenever an instance exists. The SDK package that defines `ECInstances` is not part of this model.
