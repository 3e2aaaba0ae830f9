/**
 * The decision logic of the encoder around its external calls:
 * which directory entries are encoded, where the result goes, which
 * arguments the transcoder receives and how its silence analysis is read.
 * The configuration is an immutable value passed to every operation.
 */
module Encoder {
  import opened GoStrings
  import opened FilePath

  /** The settings read once from `config.toml`. */
  datatype Config = Config(
    ffmpegPath: string,
    encodeCommand: string,
    silenceCommand: string,
    inputPath: string,
    outputPath: string,
    inputExt: string,
    outputExt: string,
    targetThresholdSec: real,
    removeIfSuccess: bool,
    overwrite: bool)

  /** One entry of the input directory listing; `modTime` is in seconds. */
  datatype FileInfo = FileInfo(name: string, isDir: bool, modTime: real)

  /** The separator the program writes literally between a directory and a name. */
  const Separator: string := "\\"

  /** The name without its extension. */
  function Stem(name: string): (stem: string)
    ensures stem + Ext(name) == name
  {
    name[..|name| - |Ext(name)|]
  }

  /** `getOutputFileName`: the destination of an entry. */
  function OutputFileName(cfg: Config, name: string): string
  {
    cfg.outputPath + Separator + Stem(name) + cfg.outputExt
  }

  /** The source path handed to the encoder and, on success, removed. */
  function SourcePath(cfg: Config, name: string): string
  {
    cfg.inputPath + Separator + name
  }

  /** `isTarget`: the eligibility filter, with the current time as a parameter. */
  predicate IsTarget(cfg: Config, file: FileInfo, now: real)
  {
    if file.isDir then false
    else if Ext(file.name) != cfg.inputExt then false
    else if now - file.modTime < cfg.targetThresholdSec then false
    else true
  }

  /** The arguments of the encode run. */
  function EncodeArgs(cfg: Config, input: string, output: string): seq<string>
  {
    ["-i", input] + Split(cfg.encodeCommand, ' ') + [output]
  }

  /** The arguments of the silence check. */
  function SilenceArgs(cfg: Config, fileName: string): seq<string>
  {
    ["-i", fileName] + Split(cfg.silenceCommand, ' ')
  }

  /** How a finished transcoder run looks to the program. */
  datatype RunOutcome = RunOutcome(exitOk: bool, stderr: string)

  const SilenceFilterMarker: string := "silencedetect"
  const SilenceStartMarker: string := "silence_start:"

  /**
   * The verdict of `checkSilent`: a run that failed counts as silent;
   * otherwise both markers must appear in the error stream.
   */
  function IsSilent(run: RunOutcome): (silent: bool)
    ensures silent <==> !run.exitOk ||
                        (Occurs(run.stderr, SilenceFilterMarker) && Occurs(run.stderr, SilenceStartMarker))
  {
    if !run.exitOk then true
    else Index(run.stderr, SilenceFilterMarker) != -1 && Index(run.stderr, SilenceStartMarker) != -1
  }

  /**
   * `runEncode`: builds the argument list step by step and reports
   * whether the (abstract) transcoder run exited with status zero.
   */
  method RunEncode(cfg: Config, inputFileName: string, outputFileName: string, exitOk: bool)
    returns (ok: bool, params: seq<string>)
    ensures params == EncodeArgs(cfg, inputFileName, outputFileName)
    ensures ok == exitOk
  {
    params := ["-i", inputFileName];
    params := params + Split(cfg.encodeCommand, ' ');
    params := params + [outputFileName];
    ok := exitOk;
  }

  /**
   * `checkSilent`: builds the argument list step by step and reads the
   * (abstract) run of the silence analysis.
   */
  method CheckSilent(cfg: Config, fileName: string, run: RunOutcome)
    returns (silent: bool, params: seq<string>)
    ensures params == SilenceArgs(cfg, fileName)
    ensures silent == IsSilent(run)
  {
    params := ["-i", fileName];
    params := params + Split(cfg.silenceCommand, ' ');
    if !run.exitOk {
      return true, params;
    }
    var out := run.stderr;
    if Index(out, SilenceFilterMarker) != -1 && Index(out, SilenceStartMarker) != -1 {
      return true, params;
    }
    silent := false;
  }

  // ---------------------------------------------------------------------
  // Properties of the eligibility filter
  // ---------------------------------------------------------------------

  /** Eligible exactly when not a directory, the extension matches and the file is old enough. */
  lemma EligibleExactly(cfg: Config, file: FileInfo, now: real)
    ensures IsTarget(cfg, file, now) <==>
            !file.isDir && Ext(file.name) == cfg.inputExt && now - file.modTime >= cfg.targetThresholdSec
  {
  }

  /** An elapsed time equal to the threshold does not hold an entry back. */
  lemma ThresholdBoundaryEligible(cfg: Config, file: FileInfo, now: real)
    requires !file.isDir && Ext(file.name) == cfg.inputExt
    requires now - file.modTime == cfg.targetThresholdSec
    ensures IsTarget(cfg, file, now)
  {
  }

  /** An eligible name is its stem followed by the configured input extension. */
  lemma EligibleNameEndsWithInputExt(cfg: Config, file: FileInfo, now: real)
    requires IsTarget(cfg, file, now)
    ensures Stem(file.name) + cfg.inputExt == file.name
    ensures cfg.inputExt == [] || IsExtension(cfg.inputExt)
  {
  }

  /** An input extension that does not start with a dot matches no entry. */
  lemma DotlessInputExtMatchesNothing(cfg: Config, file: FileInfo, now: real)
    requires cfg.inputExt != [] && cfg.inputExt[0] != '.'
    ensures !IsTarget(cfg, file, now)
  {
  }

  /** With an empty input extension, exactly the dot-free names are candidates. */
  lemma EmptyInputExtMatchesDotlessNames(cfg: Config, file: FileInfo, now: real)
    requires cfg.inputExt == [] && NoSeparator(file.name)
    requires !file.isDir && now - file.modTime >= cfg.targetThresholdSec
    ensures IsTarget(cfg, file, now) <==> '.' !in file.name
  {
    ExtEmptyIffNoDot(file.name);
  }

  // ---------------------------------------------------------------------
  // Properties of the destination path
  // ---------------------------------------------------------------------

  /**
   * The destination is the output directory, the literal separator, the
   * stem and the output extension; the stem is the whole name when the
   * name has no dot, and everything before the last dot otherwise.
   */
  lemma OutputFileNameShape(cfg: Config, name: string)
    requires NoSeparator(name)
    ensures var stem := OutputFileName(cfg, name)[|cfg.outputPath| + 1..|OutputFileName(cfg, name)| - |cfg.outputExt|];
            OutputFileName(cfg, name) == cfg.outputPath + Separator + stem + cfg.outputExt &&
            stem + Ext(name) == name &&
            ('.' !in name ==> stem == name) &&
            ('.' in name ==> |stem| < |name| && name[|stem|] == '.' &&
                             forall j | |stem| < j < |name| :: name[j] != '.')
  {
    var out := OutputFileName(cfg, name);
    var stem := Stem(name);
    assert out == cfg.outputPath + Separator + stem + cfg.outputExt;
    assert out[|cfg.outputPath| + 1..|out| - |cfg.outputExt|] == stem;
    ExtEmptyIffNoDot(name);
    if '.' in name {
      ExtStartsAtLastDot(name);
    }
  }

  /** With a well-formed output extension, the destination carries exactly that extension. */
  lemma OutputFileNameHasOutputExt(cfg: Config, name: string)
    requires IsExtension(cfg.outputExt)
    ensures Ext(OutputFileName(cfg, name)) == cfg.outputExt
  {
    ExtOfSuffix(cfg.outputPath + Separator + Stem(name), cfg.outputExt);
  }

  /** `"clip.ts"` becomes `<OutputPath>\clip.mp4`. */
  lemma OutputFileNameOfClip(cfg: Config)
    requires cfg.outputExt == ".mp4"
    ensures OutputFileName(cfg, "clip.ts") == cfg.outputPath + Separator + "clip.mp4"
  {
    ExtOfSuffix("clip", ".ts");
    assert "clip" + ".ts" == "clip.ts";
  }

  /** Only the last extension is replaced: `"a.b.ts"` keeps the stem `"a.b"`. */
  lemma OutputFileNameOfDoubleExt(cfg: Config)
    ensures OutputFileName(cfg, "a.b.ts") == cfg.outputPath + Separator + "a.b" + cfg.outputExt
  {
    ExtOfSuffix("a.b", ".ts");
    assert "a.b" + ".ts" == "a.b.ts";
  }

  // ---------------------------------------------------------------------
  // Properties of the argument lists
  // ---------------------------------------------------------------------

  /**
   * The encode arguments are `-i`, the input, the template's tokens in
   * order and the output last; joining the tokens gives back the template.
   */
  lemma EncodeArgsShape(cfg: Config, input: string, output: string)
    ensures var args := EncodeArgs(cfg, input, output);
            |args| == Count(cfg.encodeCommand, ' ') + 4 &&
            args[0] == "-i" && args[1] == input && args[|args| - 1] == output &&
            Join(args[2..|args| - 1], ' ') == cfg.encodeCommand &&
            forall i | 2 <= i < |args| - 1 :: ' ' !in args[i]
  {
    var args := EncodeArgs(cfg, input, output);
    var tokens := Split(cfg.encodeCommand, ' ');
    assert args[2..|args| - 1] == tokens;
    JoinSplit(cfg.encodeCommand, ' ');
  }

  /**
   * The silence-check arguments are `-i`, the file and the template's
   * tokens, with no output path after them.
   */
  lemma SilenceArgsShape(cfg: Config, fileName: string)
    ensures var args := SilenceArgs(cfg, fileName);
            |args| == Count(cfg.silenceCommand, ' ') + 3 &&
            args[0] == "-i" && args[1] == fileName &&
            Join(args[2..], ' ') == cfg.silenceCommand &&
            forall i | 2 <= i < |args| :: ' ' !in args[i]
  {
    var args := SilenceArgs(cfg, fileName);
    assert args[2..] == Split(cfg.silenceCommand, ' ');
    JoinSplit(cfg.silenceCommand, ' ');
  }

  /**
   * The template tokens determine the list: a template that splits into
   * given separator-free tokens is their join, so no template text is lost.
   */
  lemma EncodeArgsFromTokens(cfg: Config, input: string, output: string, tokens: seq<string>)
    requires |tokens| >= 1 && forall i | 0 <= i < |tokens| :: ' ' !in tokens[i]
    requires cfg.encodeCommand == Join(tokens, ' ')
    ensures EncodeArgs(cfg, input, output) == ["-i", input] + tokens + [output]
  {
    SplitJoin(tokens, ' ');
  }

  // ---------------------------------------------------------------------
  // Properties of the silence verdict
  // ---------------------------------------------------------------------

  /** A failed run is silent whatever its error stream says. */
  lemma FailedRunIsSilent(stderr: string)
    ensures IsSilent(RunOutcome(false, stderr))
  {
  }

  /** A successful run is silent when the two markers appear, in either order. */
  lemma MarkersInEitherOrder(a: string, b: string, mid: string)
    requires Occurs(a, SilenceFilterMarker) && Occurs(b, SilenceStartMarker)
    ensures IsSilent(RunOutcome(true, a + mid + b))
    ensures IsSilent(RunOutcome(true, b + mid + a))
  {
    var s := a + mid + b;
    assert s == a + (mid + b);
    OccursInContext(a, mid + b, SilenceFilterMarker);
    OccursInContext(b, a + mid, SilenceStartMarker);
    var t := b + mid + a;
    assert t == b + (mid + a);
    OccursInContext(b, mid + a, SilenceStartMarker);
    OccursInContext(a, b + mid, SilenceFilterMarker);
  }

  /** A successful run that lacks the start marker is not silent. */
  lemma NoStartMarkerNotSilent(stderr: string)
    requires !Occurs(stderr, SilenceStartMarker)
    ensures !IsSilent(RunOutcome(true, stderr))
  {
  }
}
