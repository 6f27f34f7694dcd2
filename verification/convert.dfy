/** `convert`: the fixed sequence of checks in front of the external pandoc
    binary, the output-path synthesis for a bare `--to`, the PDF-engine
    probe, and the reading of pandoc's result. The operating system is an
    oracle: which programs are on the search path, which files exist before
    and after the run, and what running a command gives. */
module Orchestrator {
  import opened Basics
  import opened Paths
  import opened Registry
  import opened Options
  import opened Command

  /** The arguments of `convert`. */
  datatype Request = Request(inputFile: string, outputFile: Option<string>, inputFormat: Option<string>,
                             outputFormat: Option<string>, standalone: bool, toc: bool,
                             pdfEngine: Option<string>, extraArgs: seq<string>)

  /** What running a command gives: an exit status with the captured
      standard error, or an exception raised while launching it. */
  datatype RunResult = Exited(returnCode: int, stderr: string) | LaunchError(reason: string)

  /** The environment `convert` consults: the programs `shutil.which` finds,
      the paths that exist before the run and after it, and the result of
      running each command. */
  datatype Env = Env(onPath: set<string>, existsBefore: set<string>, existsAfter: set<string>,
                     run: seq<string> -> RunResult)

  /** Why `convert` returned: each message it can return, with the values
      it mentions. */
  datatype Message =
    | NotInstalled
    | InputNotFound(inputFile: string)
    | InputFormatUnknown(inputFile: string)
    | OutputFormatUnknown(outputFile: string)
    | NoTarget
    | Rejected(reason: string)
    | NoLatexEngine
    | LaunchFailed(reason: string)
    | PandocFailed(stderr: string)
    | NotCreated
    | Converted(outputPath: string)

  /** `s` ends with `tail`. */
  predicate EndsWith(s: string, tail: string)
  {
    |tail| <= |s| && s[|s| - |tail|..] == tail
  }

  /** The value a message names: the file, the rejection reason, the launch
      error, pandoc's standard error ("Unknown error" when that is empty),
      the output path or the installation instructions; nothing for the
      fixed messages. */
  function Subject(m: Message): string
  {
    match m
    case NotInstalled => InstallationInstructions()
    case InputNotFound(f) => f
    case InputFormatUnknown(f) => f
    case OutputFormatUnknown(f) => f
    case Rejected(reason) => reason
    case LaunchFailed(reason) => reason
    case PandocFailed(stderr) => if stderr != "" then stderr else "Unknown error"
    case Converted(p) => p
    case _ => ""
  }

  /** The fixed wording in front of a message's subject. */
  function Lead(m: Message): string
  {
    match m
    case NotInstalled => "Pandoc is not installed.\n"
    case InputNotFound(_) => "Input file not found: "
    case InputFormatUnknown(_) => "Could not detect input format for: "
    case OutputFormatUnknown(_) => "Could not detect output format for: "
    case NoTarget => "Must specify either output file or --to format"
    case Rejected(_) => ""
    case NoLatexEngine =>
      "PDF output requires a LaTeX engine (pdflatex, xelatex, or lualatex).\nInstall a LaTeX distribution:\n  macOS: brew install --cask mactex-no-gui\n  Ubuntu: sudo apt-get install texlive-xetex\n  Windows: Install MiKTeX from https://miktex.org/"
    case LaunchFailed(_) => "Error running Pandoc: "
    case PandocFailed(_) => "Pandoc conversion failed:\n"
    case NotCreated => "Conversion completed but output file was not created"
    case Converted(_) => "Successfully converted to "
  }

  /** The text of each message, as `convert` returns it: the fixed wording,
      then the value the message names, so that a message about a file, a
      rejection, a launch error or pandoc's standard error ends with that
      value. */
  function Text(m: Message): (t: string)
    ensures EndsWith(t, Subject(m))
  {
    var lead, subject := Lead(m), Subject(m);
    EndsWithAppend(lead, subject);
    lead + subject
  }

  lemma EndsWithAppend(a: string, b: string)
    ensures EndsWith(a + b, b)
  {
    assert (a + b)[|a|..] == b;
  }

  /** `get_installation_instructions()` */
  function InstallationInstructions(): string
  {
    "\nPandoc Installation Instructions\n================================\n\nmacOS (using Homebrew):\n    brew install pandoc\n\nmacOS (using MacPorts):\n    sudo port install pandoc\n\nUbuntu/Debian:\n    sudo apt-get install pandoc\n\nFedora:\n    sudo dnf install pandoc\n\nWindows (using Chocolatey):\n    choco install pandoc\n\nWindows (using Scoop):\n    scoop install pandoc\n\nOr download from: https://pandoc.org/installing.html\n\nFor PDF output, you also need a LaTeX distribution:\n    macOS: brew install --cask mactex-no-gui\n    Ubuntu: sudo apt-get install texlive-xetex\n    Windows: Install MiKTeX from https://miktex.org/\n"
  }

  /** What `convert` does: returns `(success, message, output_path)`, or lets
      the `ValueError` of `with_suffix` escape. */
  datatype Outcome = Returned(success: bool, message: Message, outputPath: Option<string>)
                   | Raised(error: PathError)

  function Fail(message: Message): Outcome
  {
    Returned(false, message, None)
  }

  /** A failed call: an escaped exception, or `(False, message, None)`. */
  predicate IsFailure(o: Outcome)
  {
    o.Raised? || (!o.success && o.outputPath.None?)
  }

  /** `Path(p).suffix.lower()` */
  function Extension(p: string): string
  {
    Lower(Suffix(p))
  }

  /** The LaTeX engines probed for PDF output, in probing order. */
  const PdfEngines: seq<string> := ["pdflatex", "xelatex", "lualatex"]

  /** The first of `engines` that is on the search path. */
  function FirstOnPath(engines: seq<string>, onPath: set<string>): (e: Option<string>)
    ensures e.None? <==> forall k :: 0 <= k < |engines| ==> engines[k] !in onPath
    ensures e.Some? ==> exists i :: 0 <= i < |engines| && engines[i] == e.value && e.value in onPath
                                    && forall k :: 0 <= k < i ==> engines[k] !in onPath
  {
    if engines == [] then None
    else if engines[0] in onPath then Some(engines[0])
    else
      var e := FirstOnPath(engines[1..], onPath);
      assert e.Some? ==> exists i :: 1 <= i < |engines| && engines[i] == e.value && e.value in onPath
                                     && forall k :: 0 <= k < i ==> engines[k] !in onPath by {
        if e.Some? {
          var i :| 0 <= i < |engines[1..]| && engines[1..][i] == e.value && e.value in onPath
                   && forall k :: 0 <= k < i ==> engines[1..][k] !in onPath;
          assert forall k :: 0 <= k < i + 1 ==> engines[k] !in onPath by {
            forall k | 0 <= k < i + 1 ensures engines[k] !in onPath {
              if k > 0 {
                assert engines[k] == engines[1..][k - 1];
              }
            }
          }
        }
      }
      e
  }

  /** The input format: the one given, or the one detected from the input
      file's suffix. */
  function InputFormatOf(r: Request): (f: Option<string>)
    ensures Truthy(r.inputFormat) ==> f == r.inputFormat
    ensures !Truthy(r.inputFormat) ==>
              && (f.None? <==> forall j :: 0 <= j < |InputFormats| ==> InputFormats[j].0 != Extension(r.inputFile))
              && (f.Some? ==> exists j :: 0 <= j < |InputFormats| && InputFormats[j] == (Extension(r.inputFile), f.value))
  {
    if Truthy(r.inputFormat) then r.inputFormat else DetectFormat(r.inputFile, InputFormats)
  }

  /** The output file and output format a request resolves to. */
  datatype Target = Target(outputFile: string, outputFormat: string)

  /** The output side of a request: an output file with its given or
      detected format, or, for a bare output format, the input path with its
      suffix replaced by that format's extension. */
  function TargetOf(r: Request): (t: Result<Target, Outcome>)
    ensures t.Ok? ==> t.value.outputFile != "" && t.value.outputFormat != ""
    ensures t.Ok? && Truthy(r.outputFile) ==> t.value.outputFile == r.outputFile.value
    ensures t.Ok? && Truthy(r.outputFormat) ==> t.value.outputFormat == r.outputFormat.value
    ensures t.Err? ==> IsFailure(t.error)
    ensures Truthy(r.outputFile) && !Truthy(r.outputFormat) ==>
              && (t.Ok? <==> Truthy(DetectFormat(r.outputFile.value, OutputFormats)))
              && (t.Ok? ==> t.value.outputFormat == DetectFormat(r.outputFile.value, OutputFormats).value)
              && (t.Err? ==> t.error == Fail(OutputFormatUnknown(r.outputFile.value)))
    ensures Truthy(r.outputFile) && Truthy(r.outputFormat) ==> t == Ok(Target(r.outputFile.value, r.outputFormat.value))
    ensures !Truthy(r.outputFile) && Truthy(r.outputFormat) && t.Err? ==> t.error.Raised?
    ensures !Truthy(r.outputFile) && !Truthy(r.outputFormat) ==> t == Err(Fail(NoTarget))
    ensures t.Err? && t.error.Raised? ==> !Truthy(r.outputFile) && Truthy(r.outputFormat)
  {
    if Truthy(r.outputFile) then
      var out := r.outputFile.value;
      var fmt := if Truthy(r.outputFormat) then r.outputFormat else DetectFormat(out, OutputFormats);
      if Truthy(fmt) then Ok(Target(out, fmt.value))
      else Err(Fail(OutputFormatUnknown(out)))
    else if Truthy(r.outputFormat) then
      match WithSuffix(r.inputFile, CanonicalExtension(r.outputFormat.value))
      case Ok(p) => Ok(Target(p, r.outputFormat.value))
      case Err(e) => Err(Raised(e))
    else Err(Fail(NoTarget))
  }

  /** The engine passed to pandoc: for PDF output with none given, the first
      LaTeX engine on the search path; otherwise the one given. */
  function EngineFor(outputExt: string, given: Option<string>, onPath: set<string>): (r: Result<Option<string>, Outcome>)
    ensures r.Err? ==> r.error == Fail(NoLatexEngine)
  {
    if outputExt == ".pdf" && !Truthy(given) then
      match FirstOnPath(PdfEngines, onPath)
      case Some(e) => Ok(Some(e))
      case None => Err(Fail(NoLatexEngine))
    else Ok(given)
  }

  /** Where the checks before the run end: a failure, or the arguments
      `build_pandoc_command` is called with and the output path the run
      should create. */
  datatype Plan = Stop(outcome: Outcome) | Launch(call: Request, outputPath: string)

  /** The command `build_pandoc_command` builds from a call's arguments. */
  function CommandOf(call: Request): seq<string>
  {
    PandocCommand(call.inputFile, call.outputFile, call.inputFormat, call.outputFormat, call.standalone,
                  call.toc, call.pdfEngine, call.extraArgs)
  }

  function PlanOf(r: Request, env: Env): (p: Plan)
    ensures p.Stop? ==> IsFailure(p.outcome)
  {
    if "pandoc" !in env.onPath then Stop(Fail(NotInstalled))
    else if r.inputFile !in env.existsBefore then Stop(Fail(InputNotFound(r.inputFile)))
    else
      var inputFormat := InputFormatOf(r);
      if !Truthy(inputFormat) then Stop(Fail(InputFormatUnknown(r.inputFile)))
      else
        match TargetOf(r)
        case Err(o) => Stop(o)
        case Ok(t) => PlanFor(r, env, inputFormat.value, t, Extension(r.inputFile), Extension(t.outputFile))
  }

  /** The checks after the input format, the target and the two file
      extensions are known: the validator, then the PDF engine. */
  function PlanFor(r: Request, env: Env, inputFormat: string, t: Target, inputExt: string, outputExt: string): (p: Plan)
    ensures p.Stop? ==> IsFailure(p.outcome)
  {
    var v := ValidateConversion(inputFormat, t.outputFormat, inputExt, outputExt);
    if !v.allowed then Stop(Fail(Rejected(v.reason.value)))
    else
      match EngineFor(outputExt, r.pdfEngine, env.onPath)
      case Err(o) => Stop(o)
      case Ok(engine) =>
        Launch(Request(r.inputFile, Some(t.outputFile), Some(inputFormat), Some(t.outputFormat),
                       r.standalone, r.toc, engine, r.extraArgs),
               t.outputFile)
  }

  /** Reading pandoc's result: a launch error, a non-zero exit (reported with
      its standard error, or "Unknown error" when that is empty), a missing
      output file, or success. */
  function Finish(result: RunResult, outputPath: string, existsAfter: set<string>): (o: Outcome)
    ensures o.Returned?
    ensures o.success <==> result.Exited? && result.returnCode == 0 && outputPath in existsAfter
    ensures o.success ==> o == Returned(true, Converted(outputPath), Some(outputPath))
    ensures !o.success ==> o.outputPath.None?
    ensures result.LaunchError? ==> o == Fail(LaunchFailed(result.reason))
    ensures result.Exited? && result.returnCode != 0 ==> o == Fail(PandocFailed(result.stderr))
    ensures result.Exited? && result.returnCode == 0 && outputPath !in existsAfter ==> o == Fail(NotCreated)
  {
    match result
    case LaunchError(reason) => Fail(LaunchFailed(reason))
    case Exited(code, stderr) =>
      if code != 0 then Fail(PandocFailed(stderr))
      else if outputPath !in existsAfter then Fail(NotCreated)
      else Returned(true, Converted(outputPath), Some(outputPath))
  }

  /** Carrying out a plan: a stop is the outcome itself; a launch runs the
      command and reads its result. */
  function Conclude(plan: Plan, env: Env): Outcome
  {
    match plan
    case Stop(o) => o
    case Launch(call, p) => Finish(env.run(CommandOf(call)), p, env.existsAfter)
  }

  /** `convert` as a value. */
  function ConvertSpec(r: Request, env: Env): (o: Outcome)
    ensures o.Returned? ==> (o.success <==> o.outputPath.Some?)
    ensures o.Returned? && o.success ==> o.message == Converted(o.outputPath.value)
  {
    Conclude(PlanOf(r, env), env)
  }

  /** The probe loop: the first engine of pdflatex, xelatex, lualatex that
      is on the search path. */
  method ProbePdfEngine(onPath: set<string>) returns (engine: Option<string>)
    ensures engine == FirstOnPath(PdfEngines, onPath)
    ensures engine.Some? ==> Truthy(engine)
  {
    engine := None;
    var k := 0;
    while k < |PdfEngines|
      invariant 0 <= k <= |PdfEngines|
      invariant FirstOnPath(PdfEngines, onPath) == FirstOnPath(PdfEngines[k..], onPath)
    {
      if PdfEngines[k] in onPath {
        engine := Some(PdfEngines[k]);
        break;
      }
      assert PdfEngines[k..][1..] == PdfEngines[k + 1..];
      k := k + 1;
    }
  }

  /** The `try` block of `convert`: run the command, then read its result. */
  method RunPandoc(cmd: seq<string>, outputPath: string, env: Env) returns (outcome: Outcome)
    ensures outcome == Finish(env.run(cmd), outputPath, env.existsAfter)
  {
    var result := env.run(cmd);
    match result {
      case LaunchError(reason) =>
        return Fail(LaunchFailed(reason));
      case Exited(code, stderr) =>
        if code != 0 {
          return Fail(PandocFailed(stderr));
        }
        if outputPath !in env.existsAfter {
          return Fail(NotCreated);
        }
        return Returned(true, Converted(outputPath), Some(outputPath));
    }
  }

  /** `convert`, with its early returns. */
  method Convert(r: Request, env: Env) returns (outcome: Outcome)
    ensures outcome == ConvertSpec(r, env)
  {
    if "pandoc" !in env.onPath {
      return Fail(NotInstalled);
    }
    var inputPath := r.inputFile;
    if inputPath !in env.existsBefore {
      return Fail(InputNotFound(r.inputFile));
    }
    var inputFormat := InputFormatOf(r);
    if !Truthy(inputFormat) {
      return Fail(InputFormatUnknown(r.inputFile));
    }
    var target := TargetOf(r);
    if target.Err? {
      return target.error;
    }
    var inputExt := Extension(inputPath);
    var outputExt := Extension(target.value.outputFile);
    assert PlanOf(r, env) == PlanFor(r, env, inputFormat.value, target.value, inputExt, outputExt);
    outcome := ConvertResolved(r, env, inputFormat.value, target.value, inputExt, outputExt);
  }

  /** The rest of `convert` once the input format, the target and the two
      extensions are known: the validator, the PDF engine probe, building the
      command and running it. */
  method ConvertResolved(r: Request, env: Env, inputFormat: string, target: Target, inputExt: string, outputExt: string)
    returns (outcome: Outcome)
    ensures outcome == Conclude(PlanFor(r, env, inputFormat, target, inputExt, outputExt), env)
  {
    var outputFile, outputFormat := target.outputFile, target.outputFormat;
    var verdict := ValidateConversion(inputFormat, outputFormat, inputExt, outputExt);
    if !verdict.allowed {
      return Fail(Rejected(verdict.reason.value));
    }
    var pdfEngine := r.pdfEngine;
    if outputExt == ".pdf" && !Truthy(pdfEngine) {
      var found := ProbePdfEngine(env.onPath);
      if found.Some? {
        pdfEngine := found;
      }
      if !Truthy(pdfEngine) {
        return Fail(NoLatexEngine);
      }
    }
    var cmd := BuildPandocCommand(r.inputFile, Some(outputFile), Some(inputFormat), Some(outputFormat), r.standalone,
                                  r.toc, pdfEngine, r.extraArgs);
    outcome := RunPandoc(cmd, outputFile, env);
  }

  /** An engine that is given, or output that is not PDF, is passed on
      untouched; otherwise the first LaTeX engine on the search path is
      chosen, and there is none exactly when no engine is on the path. */
  lemma EngineChoice(outputExt: string, given: Option<string>, onPath: set<string>)
    ensures Truthy(given) || outputExt != ".pdf" ==> EngineFor(outputExt, given, onPath) == Ok(given)
    ensures outputExt == ".pdf" && !Truthy(given) ==>
      (EngineFor(outputExt, given, onPath).Ok? <==> exists k :: 0 <= k < |PdfEngines| && PdfEngines[k] in onPath)
    ensures outputExt == ".pdf" && !Truthy(given) && EngineFor(outputExt, given, onPath).Ok? ==>
      exists i :: 0 <= i < |PdfEngines| && EngineFor(outputExt, given, onPath).value == Some(PdfEngines[i])
                  && PdfEngines[i] in onPath && forall k :: 0 <= k < i ==> PdfEngines[k] !in onPath
  {
  }

  /** The first failing check decides the outcome, whatever the later
      checks would say: pandoc missing, then the input file missing, then an
      undetectable input format, then an output side that cannot be resolved. */
  lemma ChecksInOrder(r: Request, env: Env)
    ensures "pandoc" !in env.onPath ==> ConvertSpec(r, env) == Fail(NotInstalled)
    ensures "pandoc" in env.onPath && r.inputFile !in env.existsBefore ==>
      ConvertSpec(r, env) == Fail(InputNotFound(r.inputFile))
    ensures "pandoc" in env.onPath && r.inputFile in env.existsBefore && !Truthy(InputFormatOf(r)) ==>
      ConvertSpec(r, env) == Fail(InputFormatUnknown(r.inputFile))
    ensures ("pandoc" in env.onPath && r.inputFile in env.existsBefore && Truthy(InputFormatOf(r))
             && TargetOf(r).Err?) ==> ConvertSpec(r, env) == TargetOf(r).error
  {
  }

  /** pandoc is run exactly when every check before the run passes. */
  lemma LaunchConditions(r: Request, env: Env)
    ensures PlanOf(r, env).Launch? <==>
      && "pandoc" in env.onPath
      && r.inputFile in env.existsBefore
      && Truthy(InputFormatOf(r))
      && TargetOf(r).Ok?
      && ValidateConversion(InputFormatOf(r).value, TargetOf(r).value.outputFormat,
                            Extension(r.inputFile), Extension(TargetOf(r).value.outputFile)).allowed
      && EngineFor(Extension(TargetOf(r).value.outputFile), r.pdfEngine, env.onPath).Ok?
  {
  }

  /** `convert` succeeds exactly when pandoc is run, exits with status 0,
      and the output file exists afterwards. */
  lemma SuccessConditions(r: Request, env: Env)
    ensures ConvertSpec(r, env).Returned? && ConvertSpec(r, env).success <==>
      && PlanOf(r, env).Launch?
      && env.run(CommandOf(PlanOf(r, env).call)).Exited?
      && env.run(CommandOf(PlanOf(r, env).call)).returnCode == 0
      && PlanOf(r, env).outputPath in env.existsAfter
  {
  }

  /** A bare output format names the output file after the input file: the
      same directory and stem, with the format's extension as the suffix. */
  lemma SynthesizedOutput(r: Request)
    requires !Truthy(r.outputFile) && Truthy(r.outputFormat)
    requires Name(r.inputFile) != []
    requires IsExtension(CanonicalExtension(r.outputFormat.value))
    ensures TargetOf(r).Ok?
    ensures Dir(TargetOf(r).value.outputFile) == Dir(r.inputFile)
    ensures Stem(TargetOf(r).value.outputFile) == Stem(r.inputFile)
    ensures Suffix(TargetOf(r).value.outputFile) == CanonicalExtension(r.outputFormat.value)
  {
    WithSuffixThenSuffix(r.inputFile, CanonicalExtension(r.outputFormat.value));
  }

  /** For a registered output format, the synthesized output file is
      detected as that same format. */
  lemma SynthesizedOutputDetected(r: Request)
    requires !Truthy(r.outputFile) && Truthy(r.outputFormat)
    requires Name(r.inputFile) != []
    requires ReverseGet(OutputFormats, r.outputFormat.value).Some?
    ensures TargetOf(r).Ok?
    ensures DetectFormat(TargetOf(r).value.outputFile, OutputFormats) == r.outputFormat
  {
    var fmt := r.outputFormat.value;
    var x := CanonicalExtension(fmt);
    OutputTableWellFormed();
    var j :| 0 <= j < |OutputFormats| && OutputFormats[j] == (x, fmt);
    assert IsExtension(x) && IsLowerCase(x);
    LowerOfLowerCase(x);
    SynthesizedOutput(r);
  }

  /** The `ValueError` of `with_suffix` escapes `convert` exactly when a bare
      output format contains '/', or the input path has an empty name. */
  lemma TargetRaises(r: Request)
    ensures TargetOf(r).Err? && TargetOf(r).error.Raised? <==>
      !Truthy(r.outputFile) && Truthy(r.outputFormat) && (!Free(r.outputFormat.value, '/') || Name(r.inputFile) == [])
  {
    if !Truthy(r.outputFile) && Truthy(r.outputFormat) {
      var fmt := r.outputFormat.value;
      var x := CanonicalExtension(fmt);
      if ReverseGet(OutputFormats, fmt).Some? {
        OutputTableWellFormed();
        var j :| 0 <= j < |OutputFormats| && OutputFormats[j] == (x, fmt);
        OutputValuesFree(j);
        assert IsExtension(x);
      } else {
        assert x == "." + fmt;
        assert Free(x, '/') <==> Free(fmt, '/') by {
          assert forall k :: 0 <= k < |fmt| ==> x[k + 1] == fmt[k];
        }
      }
    }
  }

  /** A bare output format resolves whenever `with_suffix` does not raise:
      the format holds no '/' and the input path has a non-empty name. */
  lemma SynthesisResolves(r: Request)
    requires !Truthy(r.outputFile) && Truthy(r.outputFormat)
    requires Free(r.outputFormat.value, '/') && Name(r.inputFile) != []
    ensures TargetOf(r).Ok?
  {
    TargetRaises(r);
  }

  /** What a bare output format resolves to, for any format without '/'
      (a dotted one such as "writer.lua" included): a file in the input's
      directory named the input's stem followed by the format's extension. */
  lemma SynthesizedName(r: Request)
    requires !Truthy(r.outputFile) && Truthy(r.outputFormat)
    requires Free(r.outputFormat.value, '/') && Name(r.inputFile) != []
    ensures TargetOf(r).Ok?
    ensures Dir(TargetOf(r).value.outputFile) == Dir(r.inputFile)
    ensures Name(TargetOf(r).value.outputFile) == Stem(r.inputFile) + CanonicalExtension(r.outputFormat.value)
  {
    var x := CanonicalExtension(r.outputFormat.value);
    CanonicalExtensionDotted(r.outputFormat.value);
    SynthesisResolves(r);
    assert TargetOf(r).value.outputFile == WithSuffix(r.inputFile, x).value;
    WithSuffixName(r.inputFile, x);
  }

  /** No output format name contains '/'. */
  lemma OutputValuesFree(j: nat)
    requires j < |OutputFormats|
    ensures Free(OutputFormats[j].1, '/')
  {
  }

  /** After the first four checks, the validator decides before the PDF
      engine: an input-only output extension is rejected whatever else holds,
      then tabular input to a presentation or e-book; only an allowed
      conversion to PDF with no engine given and none on the search path
      fails for want of a LaTeX engine. */
  lemma LaterChecksInOrder(r: Request, env: Env, inputFormat: string, t: Target, inputExt: string, outputExt: string)
    ensures outputExt in InputOnly ==>
      PlanFor(r, env, inputFormat, t, inputExt, outputExt)
      == Stop(Fail(Rejected("Cannot convert TO " + outputExt + " - it's an input-only format")))
    ensures outputExt !in InputOnly && inputExt in TabularInputs && outputExt in RichTargets ==>
      PlanFor(r, env, inputFormat, t, inputExt, outputExt)
      == Stop(Fail(Rejected("Converting tabular data (" + inputExt + ") to " + outputExt + " is not supported")))
    ensures (ValidateConversion(inputFormat, t.outputFormat, inputExt, outputExt).allowed
             && outputExt == ".pdf" && !Truthy(r.pdfEngine)
             && forall k :: 0 <= k < |PdfEngines| ==> PdfEngines[k] !in env.onPath) ==>
      PlanFor(r, env, inputFormat, t, inputExt, outputExt) == Stop(Fail(NoLatexEngine))
  {
    ValidationMessages(inputFormat, t.outputFormat, inputExt, outputExt);
  }

  /** A launch is decided in the second stage, from the detected input
      format and the resolved target. */
  lemma LaunchStages(r: Request, env: Env)
    requires PlanOf(r, env).Launch?
    ensures Truthy(InputFormatOf(r)) && TargetOf(r).Ok?
    ensures PlanOf(r, env) == PlanFor(r, env, InputFormatOf(r).value, TargetOf(r).value,
                                      Extension(r.inputFile), Extension(TargetOf(r).value.outputFile))
  {
  }

  /** Once the first four checks pass, the second stage decides the outcome:
      the validator, then the engine step, then the run. */
  lemma SecondStage(r: Request, env: Env)
    requires "pandoc" in env.onPath && r.inputFile in env.existsBefore
    requires Truthy(InputFormatOf(r)) && TargetOf(r).Ok?
    ensures ConvertSpec(r, env) == Conclude(PlanFor(r, env, InputFormatOf(r).value, TargetOf(r).value,
                                                    Extension(r.inputFile), Extension(TargetOf(r).value.outputFile)), env)
  {
  }

  /** pandoc is called with the request's own input file, switches and
      passthrough arguments, the resolved input format, output format and
      output path, and the engine chosen for the output. */
  lemma LaunchedCall(r: Request, env: Env, inputFormat: string, t: Target, inputExt: string, outputExt: string)
    requires PlanFor(r, env, inputFormat, t, inputExt, outputExt).Launch?
    ensures var plan := PlanFor(r, env, inputFormat, t, inputExt, outputExt);
      && plan.outputPath == t.outputFile
      && plan.call.inputFile == r.inputFile
      && plan.call.outputFile == Some(t.outputFile)
      && plan.call.inputFormat == Some(inputFormat)
      && plan.call.outputFormat == Some(t.outputFormat)
      && plan.call.standalone == r.standalone
      && plan.call.toc == r.toc
      && EngineFor(outputExt, r.pdfEngine, env.onPath) == Ok(plan.call.pdfEngine)
      && plan.call.extraArgs == r.extraArgs
  {
  }

  /** The options pandoc is run with: -f, -t and -o carrying the resolved
      input format, output format and output path; -s exactly when asked for
      or when the output suffix needs a standalone document; --toc exactly
      when asked for; --pdf-engine exactly with a truthy engine, which for PDF
      output without one given is the first LaTeX engine on the search path;
      all in the fixed order. */
  lemma LaunchedOptions(r: Request, env: Env, inputFormat: string, t: Target, inputExt: string, outputExt: string)
    requires PlanFor(r, env, inputFormat, t, inputExt, outputExt).Launch?
    requires inputFormat != "" && t.outputFile != "" && t.outputFormat != ""
    requires outputExt == Extension(t.outputFile)
    ensures var call := PlanFor(r, env, inputFormat, t, inputExt, outputExt).call;
      var fs := Assemble(RequestChoices(call.outputFile, call.inputFormat, call.outputFormat,
                                        call.standalone, call.toc, call.pdfEngine));
      && Ascending(fs)
      && (forall x :: FromFormat(x) in fs <==> x == inputFormat)
      && (forall x :: ToFormat(x) in fs <==> x == t.outputFormat)
      && (forall x :: OutputFile(x) in fs <==> x == t.outputFile)
      && (Standalone in fs <==> r.standalone || outputExt in StandaloneRequired)
      && (TableOfContents in fs <==> r.toc)
      && (forall x :: PdfEngine(x) in fs <==>
            x != "" && EngineFor(outputExt, r.pdfEngine, env.onPath) == Ok(Some(x)))
  {
    var call := PlanFor(r, env, inputFormat, t, inputExt, outputExt).call;
    LaunchedCall(r, env, inputFormat, t, inputExt, outputExt);
    var engine := call.pdfEngine;
    RequestOptions(Some(t.outputFile), Some(inputFormat), Some(t.outputFormat), r.standalone, r.toc, engine);
    StandaloneOf(t.outputFile, r.standalone);
  }
}
