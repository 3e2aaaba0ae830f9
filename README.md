# auto-encoder: a verified model of the batch encoder's decision logic

The auto-encoder is a small Go program (`src/main.go`). It lists a watched
input directory and picks each entry that is a finished recording: not a
directory, the configured input extension, and not modified for at least the
configured number of seconds. For each such entry it builds the destination
path and applies the overwrite policy. It then runs ffmpeg to encode the file,
checks that the destination exists, and runs ffmpeg again with a
silence-detection filter. If everything passed, it may delete the source.

This project models the deterministic logic around those external calls and
proves what it guarantees:

- `gostrings.dfy` (module `GoStrings`): Go's `strings.Split` with a
  one-character separator, the inverse `strings.Join`, and `strings.Index`,
  with the round trips and the first-occurrence contract.
- `filepath.dfy` (module `FilePath`): Go's `filepath.Ext` with Windows path
  separators (`/` and `\`), the platform whose `\` the program hard-codes.
- `encoder.dfy` (module `Encoder`): the configuration record, the eligibility
  filter `isTarget`, the destination builder `getOutputFileName`, the argument
  lists of `runEncode` and `checkSilent` (built step by step, as the source
  appends to its slice), and the silence verdict.
- `driver.dfy` (module `Driver`): the loop of `main`. The filesystem is a set of
  existing paths. `os.Remove` and `os.Stat` are functions on that set, and
  each can also fail with an error fault supplied per entry. The two ffmpeg
  runs are per-entry oracle outcomes. The loop is a `for` loop over the listing.
  One iteration is split into two methods: the filter and overwrite policy,
  and the part from the encode on. Each `continue` of the source is a `return`
  in them. The loop is proved equal to the specification function `Runs`,
  which records, for every entry, where it stopped, the external operations it
  performed, and the filesystem it left.
- `gating.dfy` (module `Gating`): the properties of the loop. The operations
  always form a prefix of one fixed pipeline. Each failing check stops the
  entry. The source is removed only after every check passed. Each entry is
  processed from the state the previous one left, whatever its outcome.
- `wrappers.dfy` (module `Wrappers`): `Option`, where `None` is Go's `nil` error.

Points where the code behaves in a way a reader might not expect, modelled as
the code is written:

- Threshold boundary: the code skips an entry only when the elapsed time is
  strictly less than `TargetThresholdSec` (`src/main.go:53`), so an entry whose
  elapsed time equals the threshold IS eligible
  (`Encoder.ThresholdBoundaryEligible`).
- Clock reading per entry: `isTarget` reads the current time afresh for every
  entry (`src/main.go:53`, called at `src/main.go:131`), after the encodes of
  the entries before it have finished. An entry too young when the loop starts
  can therefore be processed in the same pass (`Gating.LateEntryAgesIntoProcessing`).
- Existing destination without overwrite: the code skips whenever `os.Stat`
  returns anything other than a "does not exist" error (`src/main.go:149-153`).
  That includes a failing `Stat` on an absent file, not only an existing file
  (`Gating.NoOverwriteSkipsExisting`).
- Removal error with overwrite: the code skips only when the removal error is
  classified as "exists" (`src/main.go:143`). Every other removal error lets
  the encode go ahead, including permission errors
  (`Gating.OverwriteSkipsOnlyOnExistError`). This looks inverted, but the
  intent is unclear, so it is modelled as written.
- Destination equal to source: with `Overwrite` set, if the destination path is
  the same string as the source path, the removal at
  `src/main.go:142` deletes the source before the encode runs. This happens
  even when the encode then fails (`Gating.OverwriteOfSourceLosesIt`). So the
  gating theorem `Gating.SourceLeavesOnlyWhenGated` has this case as its second
  disjunct.

## Model

| member | source | states |
|---|---|---|
| GoStrings.Count | src/main.go:63 | the number of separators is at most the length, and is zero exactly when the separator does not occur |
| GoStrings.Split | src/main.go:90 | `strings.Split` yields one more field than there are separators, and no field contains the separator |
| GoStrings.JoinSplit | src/main.go:90 | joining the fields with single separators gives back the template: splitting loses nothing |
| GoStrings.SplitSeparatorFree | src/main.go:63 | a template without a separator is a single token |
| GoStrings.SplitAtFirst | src/main.go:63 | the text before the first separator is the first token, and the rest is split independently |
| GoStrings.SplitJoin | src/main.go:63 | a non-empty list of separator-free tokens is exactly what its join splits into: split and join are mutually inverse |
| GoStrings.IndexFrom | src/main.go:79 | the search returns -1 only when the pattern occurs nowhere from the start position, and otherwise the first position where it occurs |
| GoStrings.Index | src/main.go:79 | `strings.Index(s, p) != -1` exactly when `p` is a substring of `s`, and a non-negative result is the first occurrence |
| GoStrings.OccursInContext | src/main.go:79 | a substring stays a substring when text is added before or after it |
| FilePath.ExtFrom | src/main.go:37 | the backwards scan of `filepath.Ext` returns a suffix that is empty or a dot followed by dot- and separator-free text; it is empty only when every scanned dot has a separator after it |
| FilePath.Ext | src/main.go:37 | `filepath.Ext` returns a suffix of the path that is "" or a well-formed extension; it returns "" only when every dot is followed by a separator |
| FilePath.ExtEmptyIffNoDot | src/main.go:37 | for a directory-entry name, the extension is empty exactly when the name has no dot |
| FilePath.ExtOfSuffix | src/main.go:37 | a path ending in a well-formed extension has exactly that extension |
| FilePath.ExtStartsAtLastDot | src/main.go:37 | for a name with a dot, the extension starts at its last dot |
| Encoder.IsTarget | src/main.go:41-58 | the eligibility filter with the three early returns of `isTarget` (directory, extension, age); its meaning is stated by `Encoder.EligibleExactly` |
| Encoder.OutputFileName | src/main.go:36-39 | `getOutputFileName`: output directory, the literal `\`, the stem and the output extension; its shape is stated by `Encoder.OutputFileNameShape` |
| Encoder.SourcePath | src/main.go:156 | the source path `InputPath + "\" + name` given to the encode and, at `src/main.go:176`, removed |
| Encoder.EncodeArgs | src/main.go:87-93 | the encode argument list; its shape is stated by `Encoder.EncodeArgsShape` |
| Encoder.SilenceArgs | src/main.go:62-63 | the silence-check argument list; its shape is stated by `Encoder.SilenceArgsShape` |
| Encoder.Stem | src/main.go:38 | the stem followed by the extension is the name (`fileName[:len(fileName)-len(ext)]`) |
| Encoder.IsSilent | src/main.go:69-82 | a failed run is silent; a successful run is silent exactly when stderr contains both `silencedetect` and `silence_start:` |
| Encoder.RunEncode | src/main.go:85-112 | the params built step by step are exactly `-i`, the input, the encode template's tokens and the output path, and the result is the run's success |
| Encoder.CheckSilent | src/main.go:60-83 | the params are `-i`, the file and the silence template's tokens, and the verdict equals the silence verdict of the run |
| Encoder.EligibleExactly | src/main.go:41-58 | an entry is eligible exactly when it is not a directory, `Ext(name)` equals `InputExt` (exact, case-sensitive), and `now - modTime >= TargetThresholdSec` |
| Encoder.ThresholdBoundaryEligible | src/main.go:53 | an elapsed time equal to the threshold does not hold an entry back |
| Encoder.EligibleNameEndsWithInputExt | src/main.go:48 | an eligible name is its stem followed by `InputExt`, and `InputExt` is then empty or a well-formed extension |
| Encoder.DotlessInputExtMatchesNothing | src/main.go:48 | an `InputExt` that is non-empty and does not start with a dot makes no entry eligible |
| Encoder.EmptyInputExtMatchesDotlessNames | src/main.go:48 | with an empty `InputExt`, exactly the dot-free names pass the extension check |
| Encoder.OutputFileNameShape | src/main.go:36-39 | the destination is `OutputPath + "\\" + stem + OutputExt`, where `stem + Ext(name) == name`; the stem is the whole name when there is no dot, and otherwise everything before the last dot |
| Encoder.OutputFileNameHasOutputExt | src/main.go:38 | with a well-formed `OutputExt`, the destination's extension is exactly `OutputExt` |
| Encoder.OutputFileNameOfClip | src/main.go:36-39 | with `OutputExt` `.mp4`, `clip.ts` becomes `OutputPath\clip.mp4` |
| Encoder.OutputFileNameOfDoubleExt | src/main.go:36-39 | `a.b.ts` keeps the stem `a.b`: only the last extension is replaced |
| Encoder.EncodeArgsShape | src/main.go:87-93 | the encode list has (spaces in the template + 4) elements: `-i`, the input, the space-free template tokens in order (whose join is the template), then the output path last |
| Encoder.SilenceArgsShape | src/main.go:62-63 | the silence list has (spaces + 3) elements: `-i`, the file, then the space-free template tokens, whose join is the template; there is no output path |
| Encoder.EncodeArgsFromTokens | src/main.go:90 | a template that is the join of given space-free tokens yields exactly those tokens between the input and the output |
| Encoder.FailedRunIsSilent | src/main.go:70-77 | a failed silence-check run is reported silent, whatever its stderr |
| Encoder.MarkersInEitherOrder | src/main.go:79 | a successful run whose stderr holds both markers is silent, in either order and with anything between them |
| Encoder.NoStartMarkerNotSilent | src/main.go:79-82 | a successful run without `silence_start:` is not silent |
| Driver.IsExist | src/main.go:143 | `os.IsExist`: true only for an error classified "exists", false for a nil error |
| Driver.IsNotExist | src/main.go:150 | `os.IsNotExist`, as used at `src/main.go:150` and `src/main.go:162`: true only for a "does not exist" error, false for a nil error |
| Driver.Remove | src/main.go:142 | `os.Remove` succeeds exactly when no fault is raised and the path exists, and then removes only that path; a failure leaves the filesystem unchanged; an absent path gives a "does not exist" error |
| Driver.Stat | src/main.go:149 | `os.Stat` reports "does not exist" exactly when no fault is raised and the path is absent, and succeeds exactly when no fault is raised and the path exists |
| Driver.OverwritePolicy | src/main.go:140-154 | the overwrite policy either lets the entry through or ends it as "removal failed" or "already exists" |
| Driver.EncodeStage | src/main.go:156-183 | the specification of the loop body from the encode on; its properties are stated by `Gating.EncodeStageFollowsPipeline` and `Gating.EncodeStageFrame` |
| Driver.Step | src/main.go:130-183 | the specification of one loop iteration; its properties are stated by the `Gating` lemmas on `Step` |
| Driver.Runs | src/main.go:129-184 | the loop yields exactly one step record per listed entry, each judged against that entry's own clock reading |
| Driver.RunsExtend | src/main.go:129-184 | the loop over one more entry is the loop so far followed by that entry's step, from the filesystem the loop left |
| Driver.EncodeEntry | src/main.go:156-183 | the imperative encode / existence check / silence check / source removal sequence, with early exits, equals the encode stage of the specification |
| Driver.ProcessEntry | src/main.go:130-183 | one iteration of the loop, with every `continue`, equals the specification step |
| Driver.ProcessDirectory | src/main.go:129-184 | the loop over the listing produces exactly the specified step records and final filesystem |
| Gating.StepFollowsPipeline | src/main.go:129-184 | one entry's operations are a prefix of the fixed pipeline (overwrite check, encode, existence check, silence check, source removal), cut where the entry stopped |
| Gating.EncodeStageFollowsPipeline | src/main.go:156-183 | from the encode on, the operations are the rest of the pipeline, cut where the entry stopped |
| Gating.NoOverwriteSkipsExisting | src/main.go:147-153 | with `Overwrite` false and the destination present (or its `Stat` failing), the entry is skipped, the encode is never invoked and nothing changes |
| Gating.NoOverwriteEncodesAbsent | src/main.go:147-156 | conversely, with `Overwrite` false, an absent destination whose `Stat` does not fail lets the entry through, and the encode is invoked with the built arguments |
| Gating.OverwriteSkipsOnlyOnExistError | src/main.go:140-146 | with `Overwrite` true, the entry is skipped exactly when the removal error is classified "exists"; otherwise the encode is invoked with the built arguments |
| Gating.OverwriteRemovesBeforeEncode | src/main.go:140-146 | with `Overwrite` true, an existing destination and a removal that raises no fault, the destination is removed, and then the encode stage runs on the filesystem without it |
| Gating.OverwriteFaultKeepsDestination | src/main.go:140-146 | with `Overwrite` true and a removal failing with an error not classified "exists", the destination stays where it was and the encode stage still runs |
| Gating.FailedEncodeStops | src/main.go:156-158 | a failed encode means no silence check, no source removal, and no success outcome |
| Gating.MissingOutputStops | src/main.go:160-165 | a destination that is absent before the encode (never there, or removed by the overwrite policy), not written, and reported absent afterwards means no silence check, no source removal, and no success outcome |
| Gating.SilentKeepsSource | src/main.go:167-171 | a silent verdict means no source removal and no success outcome, even with `RemoveIfSuccess` |
| Gating.SourceRemovalNeedsAllChecks | src/main.go:129-184 | a source removal happens only for this entry's own source, when every check held: eligible, overwrite policy passed, encode succeeded, output possibly present, not silent, `RemoveIfSuccess` |
| Gating.SourceRemovedOnSuccess | src/main.go:160-183 | conversely, when the entry is eligible, passes the overwrite policy, the encode succeeds, the destination is not reported absent afterwards (it was written, or its `Stat` failed otherwise), the result is not silent and `RemoveIfSuccess` is set, the source removal is attempted; with no fault and the source present, the source is deleted and leaves the filesystem, except when it was itself the overwritten destination and the encode did not write it back |
| Gating.EncodeStageFrame | src/main.go:156-183 | from the encode on, the filesystem changes at the destination and the source only |
| Gating.StepFrame | src/main.go:129-184 | one entry changes the filesystem at its destination and its source and nowhere else |
| Gating.SourceLeavesOnlyWhenGated | src/main.go:129-184 | a source that disappears was removed by its own gated removal, or overwriting targeted a destination equal to the source |
| Gating.OverwriteOfSourceLosesIt | src/main.go:140-146 | with `Overwrite` and a destination equal to the source, the source is gone even though the entry never reached success |
| Gating.RunsAt | src/main.go:129-184 | entry `i` is processed by one step, at its own clock reading, from the filesystem the previous entry left, whatever that entry's outcome: skips never stop the loop, and the order is the listing order |
| Gating.IneligibleEntryUntouched | src/main.go:131-133 | a filtered-out entry causes no operation and leaves the filesystem unchanged |
| Gating.SourceRemovalGatedInRun | src/main.go:129-184 | across the whole loop, a source removal happens only for an entry that was eligible at its own clock reading, passed the overwrite policy on the filesystem the earlier entries left, whose encode succeeded with a destination that could be present afterwards, whose output was not silent, and with `RemoveIfSuccess` set |
| Gating.ScenarioFilter | src/main.go:41-58 | with `.ts` and a 5 s threshold: `a.ts` passes exactly when 5 s have passed since it was modified, so does `b.ts`, and `c.wav` never does |
| Gating.OnlyOldMatchingEntryProcessed | src/main.go:129-184 | in that listing, when `b.ts` is still under 5 s old at its own clock reading, only `a.ts` leads to operations |
| Gating.LateEntryAgesIntoProcessing | src/main.go:129-184 | in that listing, when `b.ts` has reached 5 s at its own clock reading (the encode of `a.ts` took long enough), `b.ts` is processed too |

## Left out

- Loading `config.toml` (`loadConfig`, TOML decoding) is a foreign library call. The configuration is an immutable `Config` value passed to every operation, instead of the global.
- `ioutil.ReadDir` and its error path are real filesystem I/O. The listing is a parameter. The early exits when the configuration or the directory cannot be read happen before the loop and are not modelled.
- Real process execution (`exec.Command`, output buffers, exit codes) is external. Each run is an abstract outcome: success or failure, whether it wrote the destination, and the stderr text.
- `os.Remove` and `os.Stat` are abstract operations on a set of paths. Any error other than absence comes from a per-entry fault oracle. Directories, permissions and races are not modelled.
- `time.Now()`, `ModTime()` and the `float64` threshold are a clock read and floating point. The times are `real` seconds given as parameters. The saturation of `time.Duration` and `float64` rounding are not modelled.
- Console messages (`fmt.Print*`) are output only and do not affect control flow. The logged parameter lists appear only as the arguments of the recorded operations.
- Go strings are bytes and Dafny strings are characters. The space separator, the dot, the path separators and the two markers are ASCII, so `Split` and `Ext` give the same pieces. `GoStrings.Index` counts its position in characters, while Go's `strings.Index` counts bytes, so the two positions differ when non-ASCII text (a file name in the transcoder's log, say) comes before the match. The program only compares the result with -1 (`src/main.go:79`), and that containment test is the same in both.
- Path separators: `filepath.Ext` is modelled with the Windows separator set (`/` and `\`), the platform the hard-coded `\` separator implies. On other systems only `/` stops the scan, and a name such as `a.b\c` has the extension `.b\c` there, while the model gives `""`.
- Side effects of the transcoder: the encode run is assumed to write nothing but the destination, and the silence run nothing at all. Both command lines come from the configuration, and ffmpeg can be told to write other files. `Gating.EncodeStageFrame`, `Gating.StepFrame` and `Gating.SourceLeavesOnlyWhenGated` rest on this assumption.
- Gating.SourceLeavesOnlyWhenGated: paths are compared as exact strings, and every file is assumed to have a single spelling. On Windows, names are case-insensitive by default and `/` and `\` are interchangeable, so a destination that differs from the source only in case or in separator spelling (output directory `D:\REC` against input directory `D:\rec`) is the same file. With `Overwrite` set, `src/main.go:142` then deletes the source before the encode, but the hazard disjunct of this lemma covers only string equality.
- Gating.StepFrame: "nowhere else" is stated over path strings. A differently spelled alias of the destination or the source names the same file on Windows and can change, and without `Overwrite` such an alias makes the program's `Stat` (`src/main.go:149-152`) find the file and skip, where the model encodes.
- Gating.EncodeStageFrame: like `Gating.StepFrame`, "only the destination and the source change" holds for path strings, not for the files that differently spelled paths can share.
- The clock readings are arbitrary reals, one per entry. That they never decrease is not assumed, since no property proved here needs it.
