/**
 * What the loop of `main` guarantees: the checks run in a fixed order,
 * each failing check ends the entry's processing before anything
 * further happens, the source is removed only after every check passed,
 * and every entry of the listing is processed whatever happened to the
 * ones before it.
 */
module Gating {
  import opened Wrappers
  import opened FilePath
  import opened Encoder
  import opened Driver

  /** Every external operation an eligible entry can lead to, in order. */
  function Pipeline(cfg: Config, name: string): seq<Action>
  {
    var dest := OutputFileName(cfg, name);
    var src := SourcePath(cfg, name);
    [ if cfg.overwrite then RemoveDestination(dest) else StatDestination(dest),
      Encode(cfg.ffmpegPath, EncodeArgs(cfg, src, dest)),
      StatDestination(dest),
      SilenceCheck(cfg.ffmpegPath, SilenceArgs(cfg, dest)),
      RemoveSource(src) ]
  }

  /** How many operations of the pipeline an outcome has gone through. */
  function StagesReached(outcome: FileOutcome): nat
  {
    match outcome
    case NotTarget => 0
    case RemoveFailed => 1
    case AlreadyExists => 1
    case EncodeFailed => 2
    case OutputMissing => 3
    case Silent => 4
    case Encoded(Kept) => 4
    case Encoded(_) => 5
  }

  /**
   * The processing of one entry is strictly linear: the operations
   * performed are a prefix of the pipeline, cut where the entry stopped.
   */
  lemma StepFollowsPipeline(cfg: Config, now: real, file: FileInfo, o: EntryOracle, paths: set<string>)
    ensures var r := Step(cfg, now, file, o, paths);
            StagesReached(r.outcome) <= 5 &&
            r.actions == Pipeline(cfg, file.name)[..StagesReached(r.outcome)]
  {
    if IsTarget(cfg, file, now) {
      var pipe := Pipeline(cfg, file.name);
      var g := OverwritePolicy(cfg, OutputFileName(cfg, file.name), o, paths);
      assert pipe[0] == g.action;
      if g.skip == None {
        var e := EncodeStage(cfg, file.name, o, g.paths);
        EncodeStageFollowsPipeline(cfg, file.name, o, g.paths);
        var k := StagesReached(e.outcome);
        assert pipe[..k] == [pipe[0]] + pipe[1..k];
      } else {
        assert pipe[..1] == [g.action];
      }
    }
  }

  /** The encode stage performs the pipeline from the encode run on, cut where it stopped. */
  lemma EncodeStageFollowsPipeline(cfg: Config, name: string, o: EntryOracle, paths: set<string>)
    ensures var r := EncodeStage(cfg, name, o, paths);
            2 <= StagesReached(r.outcome) <= 5 &&
            r.actions == Pipeline(cfg, name)[1..StagesReached(r.outcome)]
  {
    var pipe := Pipeline(cfg, name);
    var dest := OutputFileName(cfg, name);
    var r := EncodeStage(cfg, name, o, paths);
    var produced := if o.encode.writesOutput then paths + {dest} else paths;
    if !o.encode.exitOk {
      assert r.actions == [pipe[1]] == pipe[1..2];
    } else if IsNotExist(Stat(produced, dest, o.producedStatFault)) {
      assert r.actions == [pipe[1], pipe[2]] == pipe[1..3];
    } else if IsSilent(o.silence) || !cfg.removeIfSuccess {
      assert r.actions == [pipe[1], pipe[2], pipe[3]] == pipe[1..4];
    } else {
      assert r.actions == [pipe[1], pipe[2], pipe[3], pipe[4]] == pipe[1..5];
    }
  }

  /** Without overwriting, an existing destination (or an uncertain one) means no encode at all. */
  lemma NoOverwriteSkipsExisting(cfg: Config, now: real, file: FileInfo, o: EntryOracle, paths: set<string>)
    requires !cfg.overwrite && IsTarget(cfg, file, now)
    requires OutputFileName(cfg, file.name) in paths || o.destStatFault
    ensures var r := Step(cfg, now, file, o, paths);
            r.outcome == AlreadyExists && r.after == paths &&
            forall a | a in r.actions :: !a.Encode?
  {
  }

  /**
   * Without overwriting, a destination that is absent and whose `Stat`
   * does not fail lets the entry through to the encode run.
   */
  lemma NoOverwriteEncodesAbsent(cfg: Config, now: real, file: FileInfo, o: EntryOracle, paths: set<string>)
    requires !cfg.overwrite && IsTarget(cfg, file, now)
    requires OutputFileName(cfg, file.name) !in paths && !o.destStatFault
    ensures var r := Step(cfg, now, file, o, paths);
            r.outcome != AlreadyExists &&
            Encode(cfg.ffmpegPath, EncodeArgs(cfg, SourcePath(cfg, file.name), OutputFileName(cfg, file.name)))
              in r.actions
  {
    StepFollowsPipeline(cfg, now, file, o, paths);
    var r := Step(cfg, now, file, o, paths);
    assert r.actions[1] == Pipeline(cfg, file.name)[1];
  }

  /**
   * With overwriting, only a removal error classified as "exists" skips
   * the entry; any other error, "does not exist" included, lets the
   * encode go ahead.
   */
  lemma OverwriteSkipsOnlyOnExistError(cfg: Config, now: real, file: FileInfo, o: EntryOracle, paths: set<string>)
    requires cfg.overwrite && IsTarget(cfg, file, now)
    ensures var r := Step(cfg, now, file, o, paths);
            var src := SourcePath(cfg, file.name);
            var dest := OutputFileName(cfg, file.name);
            (r.outcome == RemoveFailed <==> o.destRemoveFault == Some(ErrExist)) &&
            (o.destRemoveFault != Some(ErrExist) ==>
               Encode(cfg.ffmpegPath, EncodeArgs(cfg, src, dest)) in r.actions)
  {
    StepFollowsPipeline(cfg, now, file, o, paths);
    var r := Step(cfg, now, file, o, paths);
    if o.destRemoveFault != Some(ErrExist) {
      assert StagesReached(r.outcome) >= 2;
      assert r.actions[1] == Pipeline(cfg, file.name)[1];
    }
  }

  /** With overwriting, an existing destination is removed before the encode runs. */
  lemma OverwriteRemovesBeforeEncode(cfg: Config, now: real, file: FileInfo, o: EntryOracle, paths: set<string>)
    requires cfg.overwrite && IsTarget(cfg, file, now)
    requires OutputFileName(cfg, file.name) in paths && o.destRemoveFault == None
    ensures var dest := OutputFileName(cfg, file.name);
            Step(cfg, now, file, o, paths) ==
              After([RemoveDestination(dest)], EncodeStage(cfg, file.name, o, paths - {dest}))
  {
  }

  /**
   * With overwriting, a removal that fails with an error not classified
   * as "exists" (a permission error, say) leaves the destination where it
   * was, and the encode stage still runs.
   */
  lemma OverwriteFaultKeepsDestination(cfg: Config, now: real, file: FileInfo, o: EntryOracle,
                                       paths: set<string>)
    requires cfg.overwrite && IsTarget(cfg, file, now)
    requires o.destRemoveFault.Some? && o.destRemoveFault.value != ErrExist
    ensures var dest := OutputFileName(cfg, file.name);
            Step(cfg, now, file, o, paths) ==
              After([RemoveDestination(dest)], EncodeStage(cfg, file.name, o, paths))
  {
  }

  /** A failed encode means no silence check and no removal of the source. */
  lemma FailedEncodeStops(cfg: Config, now: real, file: FileInfo, o: EntryOracle, paths: set<string>)
    requires !o.encode.exitOk
    ensures var r := Step(cfg, now, file, o, paths);
            !r.outcome.Encoded? &&
            forall a | a in r.actions :: !a.SilenceCheck? && !a.RemoveSource?
  {
    StepFollowsPipeline(cfg, now, file, o, paths);
  }

  /**
   * A destination that is absent before the encode (never there, or
   * removed by the overwrite policy), is not written by the encode and is
   * reported absent afterwards means no silence check and no removal of
   * the source.
   */
  lemma MissingOutputStops(cfg: Config, now: real, file: FileInfo, o: EntryOracle, paths: set<string>)
    requires OutputFileName(cfg, file.name) !in paths || (cfg.overwrite && o.destRemoveFault == None)
    requires !o.encode.writesOutput && !o.producedStatFault
    ensures var r := Step(cfg, now, file, o, paths);
            !r.outcome.Encoded? &&
            forall a | a in r.actions :: !a.SilenceCheck? && !a.RemoveSource?
  {
    StepFollowsPipeline(cfg, now, file, o, paths);
  }

  /** A silent result leaves the source in place, even with `RemoveIfSuccess` set. */
  lemma SilentKeepsSource(cfg: Config, now: real, file: FileInfo, o: EntryOracle, paths: set<string>)
    requires IsSilent(o.silence)
    ensures var r := Step(cfg, now, file, o, paths);
            !r.outcome.Encoded? && forall a | a in r.actions :: !a.RemoveSource?
  {
    StepFollowsPipeline(cfg, now, file, o, paths);
  }

  /**
   * The source is removed only if the entry was eligible, got past the
   * overwrite policy, was encoded successfully, had a destination that
   * could be there afterwards, was not silent, and `RemoveIfSuccess` is set.
   */
  lemma SourceRemovalNeedsAllChecks(cfg: Config, now: real, file: FileInfo, o: EntryOracle,
                                    paths: set<string>, p: string)
    requires RemoveSource(p) in Step(cfg, now, file, o, paths).actions
    ensures var dest := OutputFileName(cfg, file.name);
            p == SourcePath(cfg, file.name) &&
            IsTarget(cfg, file, now) &&
            (cfg.overwrite ==> o.destRemoveFault != Some(ErrExist)) &&
            (!cfg.overwrite ==> dest !in paths && !o.destStatFault) &&
            o.encode.exitOk &&
            (o.encode.writesOutput || o.producedStatFault || dest in paths) &&
            !IsSilent(o.silence) &&
            cfg.removeIfSuccess &&
            Step(cfg, now, file, o, paths).outcome.Encoded?
  {
    StepFollowsPipeline(cfg, now, file, o, paths);
    var r := Step(cfg, now, file, o, paths);
    assert StagesReached(r.outcome) == 5 by {
      var k :| 0 <= k < |r.actions| && r.actions[k] == RemoveSource(p);
    }
  }

  /**
   * Conversely, an eligible entry that gets past the overwrite policy,
   * whose encode succeeds, whose destination is not reported absent
   * afterwards (it was written, or its `Stat` failed otherwise) and whose
   * result is not silent has its source removed when `RemoveIfSuccess` is
   * set. A present source then leaves the filesystem unless the removal
   * fails, or unless it was the destination, removed by the overwrite
   * policy and not written again.
   */
  lemma SourceRemovedOnSuccess(cfg: Config, now: real, file: FileInfo, o: EntryOracle, paths: set<string>)
    requires IsTarget(cfg, file, now) && cfg.removeIfSuccess
    requires cfg.overwrite ==> o.destRemoveFault != Some(ErrExist)
    requires !cfg.overwrite ==> OutputFileName(cfg, file.name) !in paths && !o.destStatFault
    requires o.encode.exitOk && (o.encode.writesOutput || o.producedStatFault) && !IsSilent(o.silence)
    ensures var r := Step(cfg, now, file, o, paths);
            var src := SourcePath(cfg, file.name);
            RemoveSource(src) in r.actions &&
            r.outcome.Encoded? && r.outcome.removal != Kept &&
            (o.sourceRemoveFault == None && src in paths &&
             (o.encode.writesOutput || src != OutputFileName(cfg, file.name)) ==>
               r.outcome == Encoded(Deleted) && src !in r.after)
  {
    StepFollowsPipeline(cfg, now, file, o, paths);
    var r := Step(cfg, now, file, o, paths);
    assert r.actions[4] == RemoveSource(SourcePath(cfg, file.name));
  }

  /** The encode stage changes the filesystem at the destination and the source only. */
  lemma EncodeStageFrame(cfg: Config, name: string, o: EntryOracle, paths: set<string>, p: string)
    requires p != OutputFileName(cfg, name) && p != SourcePath(cfg, name)
    ensures p in EncodeStage(cfg, name, o, paths).after <==> p in paths
  {
    var dest := OutputFileName(cfg, name);
    var produced := if o.encode.writesOutput then paths + {dest} else paths;
    assert p in produced <==> p in paths;
  }

  /** One entry changes the filesystem at its destination and its source and nowhere else. */
  lemma StepFrame(cfg: Config, now: real, file: FileInfo, o: EntryOracle, paths: set<string>, p: string)
    requires p != OutputFileName(cfg, file.name) && p != SourcePath(cfg, file.name)
    ensures p in Step(cfg, now, file, o, paths).after <==> p in paths
  {
    if IsTarget(cfg, file, now) {
      var dest := OutputFileName(cfg, file.name);
      if cfg.overwrite {
        var r := Remove(paths, dest, o.destRemoveFault);
        EncodeStageFrame(cfg, file.name, o, r.paths, p);
      } else {
        EncodeStageFrame(cfg, file.name, o, paths, p);
      }
    }
  }

  /**
   * The source disappears only through its own removal after every check
   * passed, or when overwriting and the destination is the source itself.
   */
  lemma SourceLeavesOnlyWhenGated(cfg: Config, now: real, file: FileInfo, o: EntryOracle, paths: set<string>)
    requires SourcePath(cfg, file.name) in paths
    requires SourcePath(cfg, file.name) !in Step(cfg, now, file, o, paths).after
    ensures var r := Step(cfg, now, file, o, paths);
            (RemoveSource(SourcePath(cfg, file.name)) in r.actions && r.outcome == Encoded(Deleted)) ||
            (cfg.overwrite && OutputFileName(cfg, file.name) == SourcePath(cfg, file.name))
  {
    StepFollowsPipeline(cfg, now, file, o, paths);
    var r := Step(cfg, now, file, o, paths);
    if !(cfg.overwrite && OutputFileName(cfg, file.name) == SourcePath(cfg, file.name)) {
      assert StagesReached(r.outcome) == 5;
      assert r.actions[4] == RemoveSource(SourcePath(cfg, file.name));
    }
  }

  /**
   * The hazard that overwriting opens: when the destination path is the
   * source path, the source is removed before the encode runs, and is gone
   * afterwards although the entry never got past the encode checks.
   */
  lemma OverwriteOfSourceLosesIt(cfg: Config, now: real, file: FileInfo, o: EntryOracle, paths: set<string>)
    requires cfg.overwrite && IsTarget(cfg, file, now)
    requires OutputFileName(cfg, file.name) == SourcePath(cfg, file.name)
    requires SourcePath(cfg, file.name) in paths && o.destRemoveFault == None
    requires !o.encode.writesOutput && !o.producedStatFault
    ensures var r := Step(cfg, now, file, o, paths);
            SourcePath(cfg, file.name) !in r.after && !r.outcome.Encoded?
  {
  }

  // ---------------------------------------------------------------------
  // The whole loop
  // ---------------------------------------------------------------------

  /**
   * Entry `i` is processed by one step, against its own clock reading,
   * that starts from the filesystem the entries before it left, whatever
   * their outcomes: a skip never ends the loop, and entries are processed
   * in listing order.
   */
  lemma {:induction false} RunsAt(cfg: Config, clock: seq<real>, files: seq<FileInfo>,
                                  oracle: seq<EntryOracle>, initial: set<string>, i: nat)
    requires |clock| == |files| && |oracle| == |files| && i < |files|
    ensures var runs := Runs(cfg, clock, files, oracle, initial);
            runs[i] == Step(cfg, clock[i], files[i], oracle[i], Final(initial, runs[..i]))
    decreases |files|
  {
    var n := |files| - 1;
    var prev := Runs(cfg, clock[..n], files[..n], oracle[..n], initial);
    var runs := Runs(cfg, clock, files, oracle, initial);
    assert runs == prev + [Step(cfg, clock[n], files[n], oracle[n], Final(initial, prev))];
    assert runs[..n] == prev;
    if i < n {
      RunsAt(cfg, clock[..n], files[..n], oracle[..n], initial, i);
      assert runs[i] == prev[i];
      assert runs[..i] == prev[..i];
    }
  }

  /** An entry the filter rejects causes no operation and leaves the filesystem as it was. */
  lemma IneligibleEntryUntouched(cfg: Config, clock: seq<real>, files: seq<FileInfo>,
                                 oracle: seq<EntryOracle>, initial: set<string>, i: nat)
    requires |clock| == |files| && |oracle| == |files| && i < |files|
    requires !IsTarget(cfg, files[i], clock[i])
    ensures var runs := Runs(cfg, clock, files, oracle, initial);
            runs[i].outcome == NotTarget && runs[i].actions == [] &&
            runs[i].after == Final(initial, runs[..i])
  {
    RunsAt(cfg, clock, files, oracle, initial, i);
  }

  /**
   * Over the whole loop: a source path is removed only for an entry that
   * was eligible at its own clock reading, got past the overwrite policy
   * on the filesystem the entries before it left, whose encode succeeded
   * with a destination that could be there afterwards, whose result was
   * not silent, with `RemoveIfSuccess` set, and only that entry's own source.
   */
  lemma SourceRemovalGatedInRun(cfg: Config, clock: seq<real>, files: seq<FileInfo>,
                                oracle: seq<EntryOracle>, initial: set<string>, i: nat, p: string)
    requires |clock| == |files| && |oracle| == |files| && i < |files|
    requires RemoveSource(p) in Runs(cfg, clock, files, oracle, initial)[i].actions
    ensures var runs := Runs(cfg, clock, files, oracle, initial);
            var before := Final(initial, runs[..i]);
            var dest := OutputFileName(cfg, files[i].name);
            p == SourcePath(cfg, files[i].name) && IsTarget(cfg, files[i], clock[i]) &&
            (cfg.overwrite ==> oracle[i].destRemoveFault != Some(ErrExist)) &&
            (!cfg.overwrite ==> dest !in before && !oracle[i].destStatFault) &&
            oracle[i].encode.exitOk &&
            (oracle[i].encode.writesOutput || oracle[i].producedStatFault || dest in before) &&
            !IsSilent(oracle[i].silence) && cfg.removeIfSuccess &&
            runs[i].outcome.Encoded?
  {
    var runs := Runs(cfg, clock, files, oracle, initial);
    RunsAt(cfg, clock, files, oracle, initial, i);
    SourceRemovalNeedsAllChecks(cfg, clock[i], files[i], oracle[i], Final(initial, runs[..i]), p);
  }

  /**
   * The filter on the three entries of the scenario below, each at its
   * own clock reading: `a.ts` (modified at 0) once 5 s have passed,
   * `b.ts` (modified at 99) while fewer than 5 s have, `c.wav` never.
   */
  lemma ScenarioFilter(cfg: Config, t0: real, t1: real, t2: real)
    requires cfg.inputExt == ".ts" && cfg.targetThresholdSec == 5.0
    ensures IsTarget(cfg, FileInfo("a.ts", false, 0.0), t0) <==> t0 >= 5.0
    ensures IsTarget(cfg, FileInfo("b.ts", false, 99.0), t1) <==> t1 >= 104.0
    ensures !IsTarget(cfg, FileInfo("c.wav", false, 0.0), t2)
  {
    assert IsExtension(".ts") && IsExtension(".wav");
    ExtOfSuffix("a", ".ts");
    assert "a" + ".ts" == "a.ts";
    assert Ext("a.ts") == ".ts";
    ExtOfSuffix("b", ".ts");
    assert "b" + ".ts" == "b.ts";
    assert Ext("b.ts") == ".ts";
    ExtOfSuffix("c", ".wav");
    assert "c" + ".wav" == "c.wav";
    assert Ext("c.wav") == ".wav" != ".ts";
  }

  /** The listing of the scenario: an old `a.ts`, a `b.ts` modified at 99 and a `c.wav`. */
  function ScenarioListing(): (files: seq<FileInfo>)
    ensures |files| == 3
  {
    [FileInfo("a.ts", false, 0.0), FileInfo("b.ts", false, 99.0), FileInfo("c.wav", false, 0.0)]
  }

  /**
   * With a five-second threshold, `a.ts` is processed once it is old
   * enough, and `b.ts` is left alone only if fewer than five seconds have
   * passed since its modification when its turn comes; `c.wav` never is.
   */
  lemma OnlyOldMatchingEntryProcessed(cfg: Config, clock: seq<real>, oracle: seq<EntryOracle>,
                                      initial: set<string>)
    requires cfg.inputExt == ".ts" && cfg.targetThresholdSec == 5.0
    requires |clock| == 3 && |oracle| == 3
    requires clock[0] >= 5.0 && clock[1] < 104.0
    ensures var runs := Runs(cfg, clock, ScenarioListing(), oracle, initial);
            runs[0].outcome != NotTarget && runs[0].actions != [] &&
            runs[1].outcome == NotTarget && runs[1].actions == [] &&
            runs[2].outcome == NotTarget && runs[2].actions == []
  {
    var files := ScenarioListing();
    ScenarioFilter(cfg, clock[0], clock[1], clock[2]);
    RunsAt(cfg, clock, files, oracle, initial, 0);
    StepFollowsPipeline(cfg, clock[0], files[0], oracle[0], initial);
    IneligibleEntryUntouched(cfg, clock, files, oracle, initial, 1);
    IneligibleEntryUntouched(cfg, clock, files, oracle, initial, 2);
  }

  /**
   * The same listing when the processing of `a.ts` takes long enough for
   * `b.ts` to pass the threshold before its turn comes: `b.ts` is then
   * processed too, although it was too young when the loop started.
   */
  lemma LateEntryAgesIntoProcessing(cfg: Config, clock: seq<real>, oracle: seq<EntryOracle>,
                                    initial: set<string>)
    requires cfg.inputExt == ".ts" && cfg.targetThresholdSec == 5.0
    requires |clock| == 3 && |oracle| == 3
    requires clock[1] >= 104.0
    ensures var runs := Runs(cfg, clock, ScenarioListing(), oracle, initial);
            runs[1].outcome != NotTarget && runs[1].actions != []
  {
    var files := ScenarioListing();
    var runs := Runs(cfg, clock, files, oracle, initial);
    ScenarioFilter(cfg, clock[0], clock[1], clock[2]);
    RunsAt(cfg, clock, files, oracle, initial, 1);
    StepFollowsPipeline(cfg, clock[1], files[1], oracle[1], Final(initial, runs[..1]));
  }
}
