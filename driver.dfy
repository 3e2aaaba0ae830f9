/**
 * The per-file pipeline of `main`: for each entry of the listing, in
 * order, filter, resolve the overwrite policy, encode, check that the
 * output exists, run the silence analysis and optionally remove the
 * source. Every failing check skips to the next entry.
 *
 * The filesystem is the set of existing paths. `os.Remove`, `os.Stat`
 * and the two transcoder runs are abstract operations whose outcomes
 * come from a per-entry oracle.
 */
module Driver {
  import opened Wrappers
  import opened FilePath
  import opened Encoder

  /** The error kinds the program distinguishes. */
  datatype OsError = ErrNotExist | ErrExist | ErrOther

  /** `os.IsExist(err)`; false for a nil error. */
  predicate IsExist(err: Option<OsError>)
  {
    err.Some? && err.value == ErrExist
  }

  /** `os.IsNotExist(err)`; false for a nil error. */
  predicate IsNotExist(err: Option<OsError>)
  {
    err.Some? && err.value == ErrNotExist
  }

  datatype RemoveResult = RemoveResult(err: Option<OsError>, paths: set<string>)

  /**
   * `os.Remove(path)`: `fault` is an error the system raises whatever the
   * state (permissions, a non-empty directory, ...); otherwise a present
   * path disappears and an absent one gives a "does not exist" error.
   */
  function Remove(paths: set<string>, path: string, fault: Option<OsError>): (r: RemoveResult)
    ensures r.err == None <==> fault == None && path in paths
    ensures r.err == None ==> r.paths == paths - {path}
    ensures r.err != None ==> r.paths == paths
    ensures fault == None && path !in paths ==> IsNotExist(r.err)
  {
    if fault.Some? then RemoveResult(fault, paths)
    else if path in paths then RemoveResult(None, paths - {path})
    else RemoveResult(Some(ErrNotExist), paths)
  }

  /** `os.Stat(path)`, reduced to its error: `fault` stands for any error other than absence. */
  function Stat(paths: set<string>, path: string, fault: bool): (err: Option<OsError>)
    ensures IsNotExist(err) <==> !fault && path !in paths
    ensures err == None <==> !fault && path in paths
  {
    if fault then Some(ErrOther)
    else if path in paths then None
    else Some(ErrNotExist)
  }

  /** The outcome of the encode run: its exit status and whether it wrote the destination. */
  datatype EncodeRun = EncodeRun(exitOk: bool, writesOutput: bool)

  /** What the environment does when one eligible entry is processed. */
  datatype EntryOracle = EntryOracle(
    destRemoveFault: Option<OsError>,  // os.Remove of the destination when overwriting
    destStatFault: bool,               // os.Stat of the destination when not overwriting
    encode: EncodeRun,                 // the encode run
    producedStatFault: bool,           // os.Stat of the destination after the encode
    silence: RunOutcome,               // the silence-analysis run
    sourceRemoveFault: Option<OsError>)// os.Remove of the source

  /** The external operations, in the order the program performs them. */
  datatype Action =
    | RemoveDestination(path: string)
    | StatDestination(path: string)
    | Encode(exe: string, args: seq<string>)
    | SilenceCheck(exe: string, args: seq<string>)
    | RemoveSource(path: string)

  datatype SourceRemoval = Kept | Deleted | DeleteFailed(err: OsError)

  /** Where the processing of one entry ended. */
  datatype FileOutcome =
    | NotTarget          // filtered out
    | RemoveFailed       // the old destination could not be removed
    | AlreadyExists      // the destination exists and overwriting is off
    | EncodeFailed       // the encode run failed
    | OutputMissing      // the encode run produced nothing
    | Silent             // the result is silent (or the analysis failed)
    | Encoded(removal: SourceRemoval)

  datatype StepResult = StepResult(outcome: FileOutcome, actions: seq<Action>, after: set<string>)

  /** The same step, with the operations already performed put in front. */
  function After(done: seq<Action>, r: StepResult): StepResult
  {
    r.(actions := done + r.actions)
  }

  /** From the encode run on, once the overwrite policy let the entry through. */
  function EncodeStage(cfg: Config, name: string, o: EntryOracle, paths: set<string>): StepResult
  {
    var src := SourcePath(cfg, name);
    var dest := OutputFileName(cfg, name);
    var produced := if o.encode.writesOutput then paths + {dest} else paths;
    var encoded := [Encode(cfg.ffmpegPath, EncodeArgs(cfg, src, dest))];
    if !o.encode.exitOk then StepResult(EncodeFailed, encoded, produced)
    else
      var checked := encoded + [StatDestination(dest)];
      if IsNotExist(Stat(produced, dest, o.producedStatFault)) then StepResult(OutputMissing, checked, produced)
      else
        var analysed := checked + [SilenceCheck(cfg.ffmpegPath, SilenceArgs(cfg, dest))];
        if IsSilent(o.silence) then StepResult(Silent, analysed, produced)
        else if !cfg.removeIfSuccess then StepResult(Encoded(Kept), analysed, produced)
        else
          var r := Remove(produced, src, o.sourceRemoveFault);
          StepResult(Encoded(if r.err == None then Deleted else DeleteFailed(r.err.value)),
                     analysed + [RemoveSource(src)], r.paths)
  }

  /** Where the overwrite policy leaves an entry: skipped or not, the operation, the filesystem. */
  datatype Gate = Gate(skip: Option<FileOutcome>, action: Action, paths: set<string>)

  /**
   * The overwrite policy: when overwriting, remove the destination and
   * skip only on an error classified as "exists"; otherwise skip unless
   * the destination is reported as not existing.
   */
  function OverwritePolicy(cfg: Config, dest: string, o: EntryOracle, paths: set<string>): (g: Gate)
    ensures g.skip == None || g.skip == Some(RemoveFailed) || g.skip == Some(AlreadyExists)
  {
    if cfg.overwrite then
      var r := Remove(paths, dest, o.destRemoveFault);
      Gate(if r.err.Some? && IsExist(r.err) then Some(RemoveFailed) else None, RemoveDestination(dest), r.paths)
    else
      var err := Stat(paths, dest, o.destStatFault);
      Gate(if !IsNotExist(err) then Some(AlreadyExists) else None, StatDestination(dest), paths)
  }

  /** One iteration of the loop of `main`. */
  function Step(cfg: Config, now: real, file: FileInfo, o: EntryOracle, paths: set<string>): StepResult
  {
    if !IsTarget(cfg, file, now) then StepResult(NotTarget, [], paths)
    else
      var g := OverwritePolicy(cfg, OutputFileName(cfg, file.name), o, paths);
      if g.skip.Some? then StepResult(g.skip.value, [g.action], g.paths)
      else After([g.action], EncodeStage(cfg, file.name, o, g.paths))
  }

  /** The filesystem after a sequence of steps. */
  function Final(initial: set<string>, runs: seq<StepResult>): set<string>
  {
    if runs == [] then initial else runs[|runs| - 1].after
  }

  /**
   * The whole loop: one step per listed entry, each starting where the
   * previous one left off. `clock[i]` is the time `isTarget` reads when
   * entry `i` comes up, so an entry can age past the threshold while
   * earlier entries are being encoded.
   */
  function Runs(cfg: Config, clock: seq<real>, files: seq<FileInfo>, oracle: seq<EntryOracle>,
                initial: set<string>): (runs: seq<StepResult>)
    requires |clock| == |files| && |oracle| == |files|
    ensures |runs| == |files|
    decreases |files|
  {
    if files == [] then []
    else
      var n := |files| - 1;
      var prev := Runs(cfg, clock[..n], files[..n], oracle[..n], initial);
      prev + [Step(cfg, clock[n], files[n], oracle[n], Final(initial, prev))]
  }

  /** The loop over the first `i + 1` entries is the loop over the first `i`, then entry `i`. */
  lemma RunsExtend(cfg: Config, clock: seq<real>, files: seq<FileInfo>, oracle: seq<EntryOracle>,
                   initial: set<string>, i: nat)
    requires |clock| == |files| && |oracle| == |files| && i < |files|
    ensures var prev := Runs(cfg, clock[..i], files[..i], oracle[..i], initial);
            Runs(cfg, clock[..i + 1], files[..i + 1], oracle[..i + 1], initial) ==
              prev + [Step(cfg, clock[i], files[i], oracle[i], Final(initial, prev))]
  {
    assert clock[..i + 1][..i] == clock[..i];
    assert files[..i + 1][..i] == files[..i];
    assert oracle[..i + 1][..i] == oracle[..i];
  }

  /**
   * The loop body of `main` from the encode run on (`runEncode`, the
   * existence check, `checkSilent` and the source removal); each
   * `return` is one of the loop's `continue`s.
   */
  method EncodeEntry(cfg: Config, name: string, o: EntryOracle, paths: set<string>)
    returns (result: StepResult)
    ensures result == EncodeStage(cfg, name, o, paths)
  {
    var outputFileName := OutputFileName(cfg, name);
    var sourceFileName := SourcePath(cfg, name);
    var current := paths;
    var ok, params := RunEncode(cfg, sourceFileName, outputFileName, o.encode.exitOk);
    var done := [Encode(cfg.ffmpegPath, params)];
    if o.encode.writesOutput {
      current := current + {outputFileName};
    }
    if !ok {
      return StepResult(EncodeFailed, done, current);
    }

    var err := Stat(current, outputFileName, o.producedStatFault);
    done := done + [StatDestination(outputFileName)];
    if IsNotExist(err) {
      return StepResult(OutputMissing, done, current);
    }

    var silent, silenceParams := CheckSilent(cfg, outputFileName, o.silence);
    done := done + [SilenceCheck(cfg.ffmpegPath, silenceParams)];
    if silent {
      return StepResult(Silent, done, current);
    }

    var removal := Kept;
    if cfg.removeIfSuccess {
      var r := Remove(current, sourceFileName, o.sourceRemoveFault);
      current := r.paths;
      done := done + [RemoveSource(sourceFileName)];
      if r.err == None {
        removal := Deleted;
      } else {
        removal := DeleteFailed(r.err.value);
      }
    }
    result := StepResult(Encoded(removal), done, current);
  }

  /**
   * The body of the loop of `main` for one entry: the filter and the
   * overwrite policy, then the encode stage; each `return` is one of
   * the loop's `continue`s.
   */
  method ProcessEntry(cfg: Config, now: real, file: FileInfo, o: EntryOracle, paths: set<string>)
    returns (result: StepResult)
    ensures result == Step(cfg, now, file, o, paths)
  {
    if !IsTarget(cfg, file, now) {
      return StepResult(NotTarget, [], paths);
    }

    var outputFileName := OutputFileName(cfg, file.name);
    var current := paths;
    var done: seq<Action>;
    if cfg.overwrite {
      var r := Remove(current, outputFileName, o.destRemoveFault);
      current := r.paths;
      done := [RemoveDestination(outputFileName)];
      if r.err.Some? && IsExist(r.err) {
        return StepResult(RemoveFailed, done, current);
      }
    } else {
      var err := Stat(current, outputFileName, o.destStatFault);
      done := [StatDestination(outputFileName)];
      if !IsNotExist(err) {
        return StepResult(AlreadyExists, done, current);
      }
    }

    var rest := EncodeEntry(cfg, file.name, o, current);
    result := rest.(actions := done + rest.actions);
  }

  /**
   * The loop of `main` over the directory listing, in listing order;
   * whatever one entry's outcome, the loop goes on with the next. Each
   * entry is judged against its own clock reading.
   */
  method ProcessDirectory(cfg: Config, clock: seq<real>, files: seq<FileInfo>, oracle: seq<EntryOracle>,
                          initial: set<string>)
    returns (runs: seq<StepResult>, paths: set<string>)
    requires |clock| == |files| && |oracle| == |files|
    ensures runs == Runs(cfg, clock, files, oracle, initial)
    ensures paths == Final(initial, runs)
  {
    runs, paths := [], initial;
    for i := 0 to |files|
      invariant runs == Runs(cfg, clock[..i], files[..i], oracle[..i], initial)
      invariant paths == Final(initial, runs)
    {
      RunsExtend(cfg, clock, files, oracle, initial, i);
      var result := ProcessEntry(cfg, clock[i], files[i], oracle[i], paths);
      runs := runs + [result];
      paths := result.after;
    }
    assert clock[..|clock|] == clock;
    assert files[..|files|] == files;
    assert oracle[..|oracle|] == oracle;
  }
}
