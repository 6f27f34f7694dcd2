/** The command line of `main`: the dispatch on help, `--check` and
    `--formats`, and the index-driven loop that reads the remaining
    arguments into the arguments of `convert`. */
module Cli {
  import opened Basics
  import opened Orchestrator

  /** The locals the argument loop fills in. */
  datatype CliArgs = CliArgs(inputFile: Option<string>, outputFile: Option<string>, inputFormat: Option<string>,
                             outputFormat: Option<string>, standalone: bool, toc: bool,
                             pdfEngine: Option<string>, extraArgs: seq<string>)

  /** The locals before the loop. */
  const Initial := CliArgs(None, None, None, None, false, false, None, [])

  /** The `IndexError` raised when an option that takes a value is the last
      argument: `args[i + 1]` reads past the end. */
  datatype ParseError = MissingValue(flag: string)

  /** The options that take the next argument as their value, whatever it is. */
  predicate IsValueFlag(a: string)
  {
    a == "--from" || a == "-f" || a == "--to" || a == "-t" || a == "-o" || a == "--pdf-engine"
  }

  /** The options the loop recognises. */
  predicate IsRecognised(a: string)
  {
    IsValueFlag(a) || a == "--standalone" || a == "-s" || a == "--toc"
  }

  /** The local an option that takes a value sets. */
  function Assign(st: CliArgs, flag: string, v: string): CliArgs
  {
    if flag == "--from" || flag == "-f" then st.(inputFormat := Some(v))
    else if flag == "--to" || flag == "-t" then st.(outputFormat := Some(v))
    else if flag == "-o" then st.(outputFile := Some(v))
    else st.(pdfEngine := Some(v))
  }

  /** A positional argument fills the input file while that is not truthy,
      then the output file while that is not truthy, and is dropped after. */
  function Place(st: CliArgs, a: string): CliArgs
  {
    if !Truthy(st.inputFile) then st.(inputFile := Some(a))
    else if !Truthy(st.outputFile) then st.(outputFile := Some(a))
    else st
  }

  /** The loop over `args`, starting from the locals `st`: an option that
      takes a value consumes the next argument, whatever it is; -s and --toc
      set their switch; any other argument starting with '-' is passed
      through together with the next argument when that does not start with
      '-'; anything else is positional. */
  function Scan(args: seq<string>, st: CliArgs): (r: Result<CliArgs, ParseError>)
    ensures r.Ok? ==> (st.standalone ==> r.value.standalone) && (st.toc ==> r.value.toc)
    ensures r.Ok? ==> st.extraArgs <= r.value.extraArgs
    ensures r.Ok? && Truthy(st.inputFile) ==> r.value.inputFile == st.inputFile
    decreases |args|
  {
    if args == [] then Ok(st)
    else
      var a := args[0];
      if IsValueFlag(a) then
        if |args| < 2 then Err(MissingValue(a)) else Scan(args[2..], Assign(st, a, args[1]))
      else if a == "--standalone" || a == "-s" then Scan(args[1..], st.(standalone := true))
      else if a == "--toc" then Scan(args[1..], st.(toc := true))
      else if StartsWithDash(a) then
        if |args| >= 2 && !StartsWithDash(args[1]) then Scan(args[2..], st.(extraArgs := st.extraArgs + [a, args[1]]))
        else Scan(args[1..], st.(extraArgs := st.extraArgs + [a]))
      else Scan(args[1..], Place(st, a))
  }

  /** Every option the loop recognises starts with '-'. */
  lemma RecognisedStartWithDash(a: string)
    requires IsRecognised(a)
    ensures StartsWithDash(a)
  {
  }

  /** One round for an option that takes a value. */
  lemma ScanValue(flag: string, v: string, rest: seq<string>, st: CliArgs)
    requires IsValueFlag(flag)
    ensures Scan([flag, v] + rest, st) == Scan(rest, Assign(st, flag, v))
  {
    assert ([flag, v] + rest)[2..] == rest;
  }

  /** One round for a positional argument. */
  lemma ScanPositional(a: string, rest: seq<string>, st: CliArgs)
    requires !StartsWithDash(a)
    ensures Scan([a] + rest, st) == Scan(rest, Place(st, a))
  {
    if IsRecognised(a) {
      RecognisedStartWithDash(a);
    }
    assert ([a] + rest)[1..] == rest;
  }

  /** The argument loop of `main`: `i` moves forward by one or two each
      round, and the locals end as `Scan` says. */
  method ParseArgs(args: seq<string>) returns (result: Result<CliArgs, ParseError>)
    ensures result == Scan(args, Initial)
  {
    var inputFile: Option<string> := None;
    var outputFile: Option<string> := None;
    var inputFormat: Option<string> := None;
    var outputFormat: Option<string> := None;
    var standalone := false;
    var toc := false;
    var pdfEngine: Option<string> := None;
    var extraArgs: seq<string> := [];
    var i := 0;
    while i < |args|
      invariant 0 <= i <= |args|
      invariant Scan(args[i..], CliArgs(inputFile, outputFile, inputFormat, outputFormat, standalone, toc,
                                        pdfEngine, extraArgs)) == Scan(args, Initial)
      decreases |args| - i
    {
      var arg := args[i];
      assert args[i..][0] == arg;
      assert args[i..][1..] == args[i + 1..];
      if i + 1 < |args| {
        assert args[i..][1] == args[i + 1];
        assert args[i..][2..] == args[i + 2..];
      }
      if arg == "--from" || arg == "-f" {
        if i + 1 >= |args| {
          return Err(MissingValue(arg));
        }
        inputFormat := Some(args[i + 1]);
        i := i + 2;
      } else if arg == "--to" || arg == "-t" {
        if i + 1 >= |args| {
          return Err(MissingValue(arg));
        }
        outputFormat := Some(args[i + 1]);
        i := i + 2;
      } else if arg == "-o" {
        if i + 1 >= |args| {
          return Err(MissingValue(arg));
        }
        outputFile := Some(args[i + 1]);
        i := i + 2;
      } else if arg == "--standalone" || arg == "-s" {
        standalone := true;
        i := i + 1;
      } else if arg == "--toc" {
        toc := true;
        i := i + 1;
      } else if arg == "--pdf-engine" {
        if i + 1 >= |args| {
          return Err(MissingValue(arg));
        }
        pdfEngine := Some(args[i + 1]);
        i := i + 2;
      } else if StartsWithDash(arg) {
        ghost var before := extraArgs;
        extraArgs := extraArgs + [arg];
        if i + 1 < |args| && !StartsWithDash(args[i + 1]) {
          assert extraArgs + [args[i + 1]] == before + [arg, args[i + 1]];
          extraArgs := extraArgs + [args[i + 1]];
          i := i + 1;
        }
        i := i + 1;
      } else if !Truthy(inputFile) {
        inputFile := Some(arg);
        i := i + 1;
      } else if !Truthy(outputFile) {
        outputFile := Some(arg);
        i := i + 1;
      } else {
        i := i + 1;
      }
    }
    result := Ok(CliArgs(inputFile, outputFile, inputFormat, outputFormat, standalone, toc, pdfEngine, extraArgs));
  }

  /** What `main` does with its arguments: print the usage text, check the
      installation, list the formats, fail while reading the arguments,
      stop for want of an input file, or call `convert`. */
  datatype Invocation = ShowHelp | CheckInstallation | ListFormats | BadArguments(error: ParseError)
                      | NoInputFile | Run(request: Request)

  /** The arguments of `convert` the loop's locals stand for, once an input
      file is known. */
  function RequestOf(c: CliArgs): (r: Option<Request>)
    ensures r.Some? <==> Truthy(c.inputFile)
  {
    if Truthy(c.inputFile) then
      Some(Request(c.inputFile.value, c.outputFile, c.inputFormat, c.outputFormat, c.standalone, c.toc,
                   c.pdfEngine, c.extraArgs))
    else None
  }

  /** `main`, up to printing and the exit status. */
  function Dispatch(args: seq<string>): (inv: Invocation)
    ensures inv == ShowHelp <==> args == [] || "-h" in args || "--help" in args
    ensures inv == CheckInstallation <==> inv != ShowHelp && "--check" in args
    ensures inv == ListFormats <==> inv != ShowHelp && "--check" !in args && "--formats" in args
    ensures inv.BadArguments? ==> IsValueFlag(args[|args| - 1]) && inv.error == MissingValue(args[|args| - 1])
    ensures inv.Run? ==> inv.request.inputFile != ""
  {
    if args == [] || "-h" in args || "--help" in args then ShowHelp
    else if "--check" in args then CheckInstallation
    else if "--formats" in args then ListFormats
    else
      match Scan(args, Initial)
      case Err(e) => ScanFailsOnlyAtEnd(args, Initial); BadArguments(e)
      case Ok(c) =>
        match RequestOf(c)
        case None => NoInputFile
        case Some(r) => Run(r)
  }

  /** Reading fails only on an option that takes a value standing last,
      and the error names that option. */
  lemma {:induction false} ScanFailsOnlyAtEnd(args: seq<string>, st: CliArgs)
    requires Scan(args, st).Err?
    ensures |args| > 0 && IsValueFlag(args[|args| - 1])
    ensures Scan(args, st).error == MissingValue(args[|args| - 1])
    decreases |args|
  {
    var a := args[0];
    if |args| < 2 {
    } else if IsValueFlag(a) {
      ScanTail(args, 2, st, Scan(args, st));
    } else if a == "--standalone" || a == "-s" || a == "--toc" || !StartsWithDash(a) {
      ScanTail(args, 1, st, Scan(args, st));
    } else if !StartsWithDash(args[1]) {
      ScanTail(args, 2, st, Scan(args, st));
    } else {
      ScanTail(args, 1, st, Scan(args, st));
    }
  }

  /** The converse: after arguments that read without error, an option that
      takes a value standing last fails, naming that option. */
  lemma {:induction false} TrailingValueFlagFails(xs: seq<string>, st: CliArgs, f: string)
    requires Scan(xs, st).Ok?
    requires IsValueFlag(f)
    ensures Scan(xs + [f], st) == Err(MissingValue(f))
    decreases |xs|
  {
    var ys := xs + [f];
    RecognisedStartWithDash(f);
    if xs == [] {
      assert ys == [f];
    } else {
      var a := xs[0];
      assert ys[0] == a;
      assert ys[1..] == xs[1..] + [f];
      if IsValueFlag(a) {
        assert ys[1] == xs[1] && ys[2..] == xs[2..] + [f];
        TrailingValueFlagFails(xs[2..], Assign(st, a, xs[1]), f);
      } else if a == "--standalone" || a == "-s" {
        TrailingValueFlagFails(xs[1..], st.(standalone := true), f);
      } else if a == "--toc" {
        TrailingValueFlagFails(xs[1..], st.(toc := true), f);
      } else if StartsWithDash(a) {
        if |xs| >= 2 && !StartsWithDash(xs[1]) {
          assert ys[1] == xs[1] && ys[2..] == xs[2..] + [f];
          TrailingValueFlagFails(xs[2..], st.(extraArgs := st.extraArgs + [a, xs[1]]), f);
        } else if |xs| >= 2 {
          assert ys[1] == xs[1];
          TrailingValueFlagFails(xs[1..], st.(extraArgs := st.extraArgs + [a]), f);
        } else {
          assert ys[1] == f && ys[1..] == [f];
        }
      } else {
        TrailingValueFlagFails(xs[1..], Place(st, a), f);
      }
    }
  }

  /** The induction step of `ScanFailsOnlyAtEnd`: a failure of the rest of
      the arguments, read from any locals, is at their end. */
  lemma {:induction false} ScanTail(args: seq<string>, k: nat, st: CliArgs, r: Result<CliArgs, ParseError>)
    requires 1 <= k <= |args|
    requires r.Err?
    requires exists st' :: Scan(args[k..], st') == r
    ensures |args| > 0 && IsValueFlag(args[|args| - 1]) && r.error == MissingValue(args[|args| - 1])
    decreases |args|, 0
  {
    var st' :| Scan(args[k..], st') == r;
    ScanFailsOnlyAtEnd(args[k..], st');
    assert args[k..][|args[k..]| - 1] == args[|args| - 1];
  }

  /** Passthrough options: each is an unrecognised argument starting with
      '-', optionally followed by one argument that does not. */
  predicate IsPassthrough(xs: seq<string>)
  {
    && (xs != [] ==> StartsWithDash(xs[0]))
    && (forall k :: 0 <= k < |xs| && StartsWithDash(xs[k]) ==> !IsRecognised(xs[k]))
    && (forall k :: 1 <= k < |xs| && !StartsWithDash(xs[k]) ==> StartsWithDash(xs[k - 1]))
  }

  /** Passthrough options are appended to `extra_args` verbatim and in
      order, and nothing else changes. */
  lemma {:induction false} PassthroughVerbatim(xs: seq<string>, st: CliArgs)
    requires IsPassthrough(xs)
    ensures Scan(xs, st) == Ok(st.(extraArgs := st.extraArgs + xs))
    decreases |xs|
  {
    if xs == [] {
      assert st.extraArgs + xs == st.extraArgs;
    } else if |xs| >= 2 && !StartsWithDash(xs[1]) {
      var rest := xs[2..];
      assert IsPassthrough(rest) by {
        assert forall k :: 0 <= k < |rest| ==> rest[k] == xs[k + 2];
        if rest != [] {
          assert StartsWithDash(xs[2]);
        }
      }
      PassthroughVerbatim(rest, st.(extraArgs := st.extraArgs + [xs[0], xs[1]]));
      assert st.extraArgs + [xs[0], xs[1]] + rest == st.extraArgs + xs;
    } else {
      var rest := xs[1..];
      assert IsPassthrough(rest) by {
        assert forall k :: 0 <= k < |rest| ==> rest[k] == xs[k + 1];
      }
      PassthroughVerbatim(rest, st.(extraArgs := st.extraArgs + [xs[0]]));
      assert st.extraArgs + [xs[0]] + rest == st.extraArgs + xs;
    }
  }

  /** Once the input and the output file are both set, further positional
      arguments are dropped. */
  lemma {:induction false} ExtraPositionalsDropped(xs: seq<string>, st: CliArgs)
    requires Truthy(st.inputFile) && Truthy(st.outputFile)
    requires forall k :: 0 <= k < |xs| ==> !StartsWithDash(xs[k])
    ensures Scan(xs, st) == Ok(st)
    decreases |xs|
  {
    if xs != [] {
      assert xs == [xs[0]] + xs[1..];
      ScanPositional(xs[0], xs[1..], st);
      assert forall k :: 0 <= k < |xs[1..]| ==> xs[1..][k] == xs[k + 1];
      ExtraPositionalsDropped(xs[1..], st);
    }
  }

  /** Positional arguments fill the input file, then the output file; an
      empty one is overwritten by the next. */
  lemma PositionalsFill(a: string, b: string, rest: seq<string>)
    requires a != "" && b != "" && !StartsWithDash(a) && !StartsWithDash(b)
    requires forall k :: 0 <= k < |rest| ==> !StartsWithDash(rest[k])
    ensures Scan([a, b] + rest, Initial) == Ok(Initial.(inputFile := Some(a), outputFile := Some(b)))
  {
    var s1 := Initial.(inputFile := Some(a));
    assert [a, b] + rest == [a] + ([b] + rest);
    ScanPositional(a, [b] + rest, Initial);
    ScanPositional(b, rest, s1);
    ExtraPositionalsDropped(rest, s1.(outputFile := Some(b)));
  }

  /** An empty positional argument fills the input file without making it
      truthy, so the next positional argument replaces it. */
  lemma EmptyPositionalReplaced(a: string, b: string, rest: seq<string>)
    requires a != "" && b != "" && !StartsWithDash(a) && !StartsWithDash(b)
    requires forall k :: 0 <= k < |rest| ==> !StartsWithDash(rest[k])
    ensures Scan(["", a, b] + rest, Initial) == Ok(Initial.(inputFile := Some(a), outputFile := Some(b)))
  {
    var s1 := Initial.(inputFile := Some(a));
    assert ["", a, b] + rest == [""] + ([a] + ([b] + rest));
    ScanPositional("", [a] + ([b] + rest), Initial);
    ScanPositional(a, [b] + rest, Initial.(inputFile := Some("")));
    assert Initial.(inputFile := Some("")).(inputFile := Some(a)) == s1;
    ScanPositional(b, rest, s1);
    ExtraPositionalsDropped(rest, s1.(outputFile := Some(b)));
  }

  /** An output file given with -o before the input file is kept: the
      positional argument that follows fills the input file. */
  lemma OutputOptionFirst(o: string, a: string, rest: seq<string>)
    requires a != "" && !StartsWithDash(a) && o != ""
    requires forall k :: 0 <= k < |rest| ==> !StartsWithDash(rest[k])
    ensures Scan(["-o", o, a] + rest, Initial) == Ok(Initial.(inputFile := Some(a), outputFile := Some(o)))
  {
    var s1 := Initial.(outputFile := Some(o));
    assert ["-o", o, a] + rest == ["-o", o] + ([a] + rest);
    ScanValue("-o", o, [a] + rest, Initial);
    ScanPositional(a, rest, s1);
    ExtraPositionalsDropped(rest, s1.(inputFile := Some(a)));
  }

  /** An output file given with -o after the input file is kept: later
      positional arguments are dropped. */
  lemma OutputOptionKept(a: string, o: string, rest: seq<string>)
    requires a != "" && !StartsWithDash(a) && o != ""
    requires forall k :: 0 <= k < |rest| ==> !StartsWithDash(rest[k])
    ensures Scan([a, "-o", o] + rest, Initial) == Ok(Initial.(inputFile := Some(a), outputFile := Some(o)))
  {
    var s1 := Initial.(inputFile := Some(a));
    assert [a, "-o", o] + rest == [a] + (["-o", o] + rest);
    ScanPositional(a, ["-o", o] + rest, Initial);
    ScanValue("-o", o, rest, s1);
    ExtraPositionalsDropped(rest, s1.(outputFile := Some(o)));
  }

  /** An output file given as `-o ""` is not truthy, so a later positional
      argument replaces it. */
  lemma EmptyOutputOptionReplaced(a: string, b: string, rest: seq<string>)
    requires a != "" && b != "" && !StartsWithDash(a) && !StartsWithDash(b)
    requires forall k :: 0 <= k < |rest| ==> !StartsWithDash(rest[k])
    ensures Scan([a, "-o", "", b] + rest, Initial) == Ok(Initial.(inputFile := Some(a), outputFile := Some(b)))
  {
    var s1 := Initial.(inputFile := Some(a));
    var s2 := s1.(outputFile := Some(""));
    assert [a, "-o", "", b] + rest == [a, "-o", ""] + ([b] + rest);
    InputThenOutputOption(a, "", [b] + rest);
    ScanPositional(b, rest, s2);
    assert Place(s2, b) == s1.(outputFile := Some(b));
    ExtraPositionalsDropped(rest, s1.(outputFile := Some(b)));
  }

  /** A positional input file, then -o with its value. */
  lemma InputThenOutputOption(a: string, o: string, tail: seq<string>)
    requires a != "" && !StartsWithDash(a)
    ensures Scan([a, "-o", o] + tail, Initial) == Scan(tail, Initial.(inputFile := Some(a), outputFile := Some(o)))
  {
    assert [a, "-o", o] + tail == [a] + (["-o", o] + tail);
    ScanPositional(a, ["-o", o] + tail, Initial);
    ScanValue("-o", o, tail, Initial.(inputFile := Some(a)));
  }

  /** The long spellings --from, --to and --standalone do what -f, -t and -s
      do: set the input format, the output format and the standalone switch. */
  lemma LongSpellings(v: string, rest: seq<string>, st: CliArgs)
    ensures Scan(["--from", v] + rest, st) == Scan(["-f", v] + rest, st) == Scan(rest, st.(inputFormat := Some(v)))
    ensures Scan(["--to", v] + rest, st) == Scan(["-t", v] + rest, st) == Scan(rest, st.(outputFormat := Some(v)))
    ensures Scan(["--standalone"] + rest, st) == Scan(["-s"] + rest, st) == Scan(rest, st.(standalone := true))
  {
    ScanValue("--from", v, rest, st);
    ScanValue("-f", v, rest, st);
    ScanValue("--to", v, rest, st);
    ScanValue("-t", v, rest, st);
    assert (["--standalone"] + rest)[1..] == rest;
    assert (["-s"] + rest)[1..] == rest;
  }

  /** An option that takes a value, written out when the value is set. */
  function OptionWords(flag: string, o: Option<string>): seq<string>
  {
    if o.Some? then [flag, o.value] else []
  }

  /** A switch, written out when it is on. */
  function SwitchWords(flag: string, on: bool): seq<string>
  {
    if on then [flag] else []
  }

  /** A request written out as a command line: the input file, -o, -f, -t,
      -s, --toc and --pdf-engine for what it sets, then its passthrough
      options. */
  function CommandLine(r: Request): seq<string>
  {
    [r.inputFile]
    + (OptionWords("-o", r.outputFile)
    + (OptionWords("-f", r.inputFormat)
    + (OptionWords("-t", r.outputFormat)
    + (SwitchWords("-s", r.standalone)
    + (SwitchWords("--toc", r.toc)
    + (OptionWords("--pdf-engine", r.pdfEngine)
    + r.extraArgs))))))
  }

  /** Reading an option that is written out only when set. */
  lemma ReadOption(flag: string, o: Option<string>, rest: seq<string>, st: CliArgs)
    requires IsValueFlag(flag)
    ensures Scan(OptionWords(flag, o) + rest, st) == Scan(rest, if o.Some? then Assign(st, flag, o.value) else st)
  {
    if o.Some? {
      assert OptionWords(flag, o) == [flag, o.value];
      ScanValue(flag, o.value, rest, st);
    } else {
      assert OptionWords(flag, o) + rest == rest;
    }
  }

  /** Reading -s or --toc written out only when on. */
  lemma ReadSwitch(flag: string, on: bool, rest: seq<string>, st: CliArgs)
    requires flag == "-s" || flag == "--toc"
    ensures Scan(SwitchWords(flag, on) + rest, st)
         == Scan(rest, if !on then st else if flag == "-s" then st.(standalone := true) else st.(toc := true))
  {
    if on {
      assert SwitchWords(flag, on) + rest == [flag] + rest;
      assert ([flag] + rest)[1..] == rest;
    } else {
      assert SwitchWords(flag, on) + rest == rest;
    }
  }

  /** Reading -o, -f and -t, each written out only when set, sets the
      output file, the input format and the output format. */
  lemma ReadValues(r: Request, rest: seq<string>, st: CliArgs)
    requires st.outputFile.None? && st.inputFormat.None? && st.outputFormat.None?
    ensures Scan(OptionWords("-o", r.outputFile) + (OptionWords("-f", r.inputFormat)
                 + (OptionWords("-t", r.outputFormat) + rest)), st)
         == Scan(rest, st.(outputFile := r.outputFile, inputFormat := r.inputFormat, outputFormat := r.outputFormat))
  {
    var s1 := st.(outputFile := r.outputFile);
    var s2 := s1.(inputFormat := r.inputFormat);
    ReadOption("-o", r.outputFile, OptionWords("-f", r.inputFormat) + (OptionWords("-t", r.outputFormat) + rest), st);
    ReadOption("-f", r.inputFormat, OptionWords("-t", r.outputFormat) + rest, s1);
    ReadOption("-t", r.outputFormat, rest, s2);
  }

  /** Reading -s, --toc and --pdf-engine, each written out only when set,
      sets the two switches and the engine. */
  lemma ReadSwitchesAndEngine(r: Request, rest: seq<string>, st: CliArgs)
    requires !st.standalone && !st.toc && st.pdfEngine.None?
    ensures Scan(SwitchWords("-s", r.standalone) + (SwitchWords("--toc", r.toc)
                 + (OptionWords("--pdf-engine", r.pdfEngine) + rest)), st)
         == Scan(rest, st.(standalone := r.standalone, toc := r.toc, pdfEngine := r.pdfEngine))
  {
    var s1 := st.(standalone := r.standalone);
    var s2 := s1.(toc := r.toc);
    ReadSwitch("-s", r.standalone, SwitchWords("--toc", r.toc) + (OptionWords("--pdf-engine", r.pdfEngine) + rest), st);
    ReadSwitch("--toc", r.toc, OptionWords("--pdf-engine", r.pdfEngine) + rest, s1);
    ReadOption("--pdf-engine", r.pdfEngine, rest, s2);
  }

  /** Any request with a proper input file and proper passthrough options
      can be made from the command line: reading its command line gives it
      back. */
  lemma CommandLineReadsBack(r: Request)
    requires r.inputFile != "" && !StartsWithDash(r.inputFile)
    requires IsPassthrough(r.extraArgs)
    ensures Scan(CommandLine(r), Initial).Ok?
    ensures RequestOf(Scan(CommandLine(r), Initial).value) == Some(r)
  {
    var t4 := SwitchWords("-s", r.standalone) + (SwitchWords("--toc", r.toc)
              + (OptionWords("--pdf-engine", r.pdfEngine) + r.extraArgs));
    var t1 := OptionWords("-o", r.outputFile) + (OptionWords("-f", r.inputFormat)
              + (OptionWords("-t", r.outputFormat) + t4));
    var s0 := Initial.(inputFile := Some(r.inputFile));
    var s3 := s0.(outputFile := r.outputFile, inputFormat := r.inputFormat, outputFormat := r.outputFormat);
    var s6 := s3.(standalone := r.standalone, toc := r.toc, pdfEngine := r.pdfEngine);
    ScanPositional(r.inputFile, t1, Initial);
    ReadValues(r, t4, s0);
    ReadSwitchesAndEngine(r, r.extraArgs, s3);
    PassthroughVerbatim(r.extraArgs, s6);
    assert s6.(extraArgs := s6.extraArgs + r.extraArgs)
        == CliArgs(Some(r.inputFile), r.outputFile, r.inputFormat, r.outputFormat, r.standalone, r.toc,
                   r.pdfEngine, r.extraArgs);
  }

  /** `main` calls `convert` with exactly the request whose command line it
      is given, as long as none of its words asks for the usage text, the
      installation check or the format list. */
  lemma CommandLineRuns(r: Request)
    requires r.inputFile != "" && !StartsWithDash(r.inputFile)
    requires IsPassthrough(r.extraArgs)
    requires forall w :: w in CommandLine(r) ==> w != "-h" && w != "--help" && w != "--check" && w != "--formats"
    ensures Dispatch(CommandLine(r)) == Run(r)
  {
    CommandLineReadsBack(r);
  }
}
