/** `build_pandoc_command`: the ordered argument list handed to the external
    pandoc binary. */
module Command {
  import opened Basics
  import opened Paths
  import opened Registry
  import opened Options

  /** An optional argument as the builder sees it: only a truthy value
      counts as given. */
  function Given(o: Option<string>): (g: Option<string>)
    ensures g.Some? <==> Truthy(o)
    ensures g.Some? ==> g == o
  {
    if Truthy(o) then o else None
  }

  /** The lower-cased suffix of the output file, `None` when there is no
      output file. */
  function OutputExtension(outputFile: Option<string>): Option<string>
  {
    if Truthy(outputFile) then Some(Lower(Suffix(outputFile.value))) else None
  }

  /** `-s` is emitted when asked for, or when the lower-cased suffix of the
      output file names a format that needs a standalone document. */
  predicate WantsStandalone(outputFile: Option<string>, standalone: bool): (b: bool)
    ensures standalone ==> b
    ensures !Truthy(outputFile) ==> (b <==> standalone)
    ensures b && !standalone ==> Lower(Suffix(outputFile.value)) in StandaloneRequired
  {
    var outputExt := OutputExtension(outputFile);
    standalone || (Truthy(outputExt) && outputExt.value in StandaloneRequired)
  }

  /** For a non-empty output file, -s is wanted when asked for or when the
      lower-cased suffix is one that needs a standalone document. */
  lemma StandaloneOf(outputFile: string, standalone: bool)
    requires outputFile != ""
    ensures WantsStandalone(Some(outputFile), standalone) <==>
            standalone || Lower(Suffix(outputFile)) in StandaloneRequired
  {
    assert "" !in StandaloneRequired;
  }

  /** The options a request asks the builder for. */
  function RequestChoices(outputFile: Option<string>, inputFormat: Option<string>, outputFormat: Option<string>,
                          standalone: bool, toc: bool, pdfEngine: Option<string>): Choices
  {
    Choices(Given(inputFormat), Given(outputFormat), Given(outputFile),
            WantsStandalone(outputFile, standalone), toc, Given(pdfEngine))
  }

  /** `cmd` with `words` appended when `present`. */
  function Appended(cmd: seq<string>, present: bool, words: seq<string>): seq<string>
  {
    if present then cmd + words else cmd
  }

  /** The command the builder produces for the options `c`: "pandoc", each
      chosen option's words appended in turn, the passthrough arguments, and
      the input file. */
  function CommandFor(c: Choices, extraArgs: seq<string>, inputFile: string): seq<string>
  {
    var c1 := Appended(["pandoc"], c.from.Some?, ["-f", ValueOr(c.from)]);
    var c2 := Appended(c1, c.to.Some?, ["-t", ValueOr(c.to)]);
    var c3 := Appended(c2, c.out.Some?, ["-o", ValueOr(c.out)]);
    var c4 := Appended(c3, c.standalone, ["-s"]);
    var c5 := Appended(c4, c.toc, ["--toc"]);
    var c6 := Appended(c5, c.engine.Some?, ["--pdf-engine", ValueOr(c.engine)]);
    c6 + extraArgs + [inputFile]
  }

  /** `build_pandoc_command` as a value: "pandoc", each option whose
      argument is truthy appended in turn, then the passthrough arguments and
      the input file. */
  function PandocCommand(inputFile: string, outputFile: Option<string>, inputFormat: Option<string>,
                         outputFormat: Option<string>, standalone: bool, toc: bool,
                         pdfEngine: Option<string>, extraArgs: seq<string>): (c: seq<string>)
    ensures |c| >= |extraArgs| + 2 && c[0] == "pandoc" && c[|c| - 1] == inputFile
    ensures c[|c| - 1 - |extraArgs|..|c| - 1] == extraArgs
  {
    var c1 := Appended(["pandoc"], Truthy(inputFormat), ["-f", ValueOr(inputFormat)]);
    var c2 := Appended(c1, Truthy(outputFormat), ["-t", ValueOr(outputFormat)]);
    var c3 := Appended(c2, Truthy(outputFile), ["-o", ValueOr(outputFile)]);
    var c4 := Appended(c3, WantsStandalone(outputFile, standalone), ["-s"]);
    var c5 := Appended(c4, toc, ["--toc"]);
    var c6 := Appended(c5, Truthy(pdfEngine), ["--pdf-engine", ValueOr(pdfEngine)]);
    c6 + extraArgs + [inputFile]
  }

  /** The builder's command is the one for the options the request chooses. */
  lemma PandocCommandFor(inputFile: string, outputFile: Option<string>, inputFormat: Option<string>,
                         outputFormat: Option<string>, standalone: bool, toc: bool,
                         pdfEngine: Option<string>, extraArgs: seq<string>)
    ensures PandocCommand(inputFile, outputFile, inputFormat, outputFormat, standalone, toc, pdfEngine, extraArgs)
         == CommandFor(RequestChoices(outputFile, inputFormat, outputFormat, standalone, toc, pdfEngine),
                       extraArgs, inputFile)
  {
  }

  /** One step: appending the words of the option of rank `k` when it is
      chosen extends the rendered options by that rank. */
  lemma AppendStep(cmd: seq<string>, c: Choices, k: nat)
    requires k < 6
    requires cmd == ["pandoc"] + PrefixWords(c, k)
    ensures Appended(cmd, Chosen(c, k), Words(Candidate(c, k))) == ["pandoc"] + PrefixWords(c, k + 1)
  {
    var before := PrefixWords(c, k);
    if Chosen(c, k) {
      assert ["pandoc"] + before + Words(Candidate(c, k)) == ["pandoc"] + (before + Words(Candidate(c, k)));
    } else {
      assert before + [] == before;
    }
  }

  /** The command is the program name, the recognised options in their
      fixed order, the passthrough arguments verbatim and the input file
      last. */
  lemma CommandLayout(c: Choices, extraArgs: seq<string>, inputFile: string)
    ensures CommandFor(c, extraArgs, inputFile) == ["pandoc"] + Render(Assemble(c)) + extraArgs + [inputFile]
  {
    var c0 := ["pandoc"];
    assert c0 == ["pandoc"] + PrefixWords(c, 0);
    AppendStep(c0, c, 0);
    var c1 := Appended(c0, Chosen(c, 0), Words(Candidate(c, 0)));
    AppendStep(c1, c, 1);
    var c2 := Appended(c1, Chosen(c, 1), Words(Candidate(c, 1)));
    AppendStep(c2, c, 2);
    var c3 := Appended(c2, Chosen(c, 2), Words(Candidate(c, 2)));
    AppendStep(c3, c, 3);
    var c4 := Appended(c3, Chosen(c, 3), Words(Candidate(c, 3)));
    AppendStep(c4, c, 4);
    var c5 := Appended(c4, Chosen(c, 4), Words(Candidate(c, 4)));
    AppendStep(c5, c, 5);
    RenderPrefix(c, 6);
  }

  /** `build_pandoc_command`, appending to the list step by step. */
  method BuildPandocCommand(inputFile: string, outputFile: Option<string>, inputFormat: Option<string>,
                            outputFormat: Option<string>, standalone: bool, toc: bool,
                            pdfEngine: Option<string>, extraArgs: seq<string>)
    returns (cmd: seq<string>)
    ensures cmd == PandocCommand(inputFile, outputFile, inputFormat, outputFormat,
                                 standalone, toc, pdfEngine, extraArgs)
  {
    cmd := ["pandoc"];
    if Truthy(inputFormat) {
      cmd := cmd + ["-f", inputFormat.value];
    }
    assert cmd == Appended(["pandoc"], Truthy(inputFormat), ["-f", ValueOr(inputFormat)]);
    if Truthy(outputFormat) {
      cmd := cmd + ["-t", outputFormat.value];
    }
    if Truthy(outputFile) {
      cmd := cmd + ["-o", outputFile.value];
    }
    var outputExt := OutputExtension(outputFile);
    if standalone || (Truthy(outputExt) && outputExt.value in StandaloneRequired) {
      cmd := cmd + ["-s"];
    }
    if toc {
      cmd := cmd + ["--toc"];
    }
    if Truthy(pdfEngine) {
      cmd := cmd + ["--pdf-engine", pdfEngine.value];
    }
    cmd := cmd + extraArgs;
    cmd := cmd + [inputFile];
  }

  /** Each option appears in the command exactly when the request gives
      its argument a truthy value (for -s: when asked for or implied by the
      output extension), with that argument. */
  lemma RequestOptions(outputFile: Option<string>, inputFormat: Option<string>, outputFormat: Option<string>,
                       standalone: bool, toc: bool, pdfEngine: Option<string>)
    ensures var fs := Assemble(RequestChoices(outputFile, inputFormat, outputFormat, standalone, toc, pdfEngine));
      && (forall x :: FromFormat(x) in fs <==> Truthy(inputFormat) && x == inputFormat.value)
      && (forall x :: ToFormat(x) in fs <==> Truthy(outputFormat) && x == outputFormat.value)
      && (forall x :: OutputFile(x) in fs <==> Truthy(outputFile) && x == outputFile.value)
      && (Standalone in fs <==> WantsStandalone(outputFile, standalone))
      && (TableOfContents in fs <==> toc)
      && (forall x :: PdfEngine(x) in fs <==> Truthy(pdfEngine) && x == pdfEngine.value)
      && Ascending(fs)
  {
    var c := RequestChoices(outputFile, inputFormat, outputFormat, standalone, toc, pdfEngine);
    AssembleMembers(c);
    AssembleAscending(c);
  }

  /** An output file whose final component is `stem` + `x` gets -s exactly
      when `x`, lower-cased, is one of .html, .htm, .epub and .pdf. */
  lemma StandaloneBySuffix(d: string, stem: string, x: string)
    requires d == [] || d[|d| - 1] == '/'
    requires stem != [] && Free(stem, '/')
    requires IsExtension(x)
    ensures WantsStandalone(Some(d + stem + x), false) <==> Lower(x) in StandaloneRequired
  {
    var p := d + stem + x;
    SuffixOfSplit(d, stem, x);
    assert |p| > 0;
    assert OutputExtension(Some(p)) == Some(Lower(x));
    assert |Lower(x)| == |x|;
  }

  /** The command splits back into its parts: the program name, options
      that read back as the chosen ones, the passthrough arguments, and the
      input file. */
  lemma CommandReadsBack(c: Choices, extraArgs: seq<string>, inputFile: string)
    ensures var cmd := CommandFor(c, extraArgs, inputFile);
      var n := |cmd| - |extraArgs| - 1;
      && 1 <= n
      && cmd[0] == "pandoc"
      && Unrender(cmd[1..n]) == Some(Assemble(c))
      && cmd[n..|cmd| - 1] == extraArgs
      && cmd[|cmd| - 1] == inputFile
  {
    var cmd := CommandFor(c, extraArgs, inputFile);
    var ws := Render(Assemble(c));
    CommandLayout(c, extraArgs, inputFile);
    UnrenderRender(Assemble(c));
    var n := |cmd| - |extraArgs| - 1;
    assert n == 1 + |ws|;
    assert cmd[1..n] == ws;
    assert cmd[n..|cmd| - 1] == extraArgs;
  }
}
