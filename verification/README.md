# pandoc-converter orchestration, modelled in Dafny

`pandoc-converter/scripts/convert.py` is a thin command-line front end to the
external `pandoc` binary. Everything it owns is orchestration:

- a static registry of file extensions and pandoc format names;
- format detection by the lower-cased file suffix;
- a two-rule conversion validator;
- a builder for the pandoc argument list;
- `convert`, a fixed sequence of early-exit checks. It names the output file
  when only `--to` is given, probes for a LaTeX engine for PDF output, runs
  pandoc, and reads the result;
- the argument loop of `main`.

This project models all of that. It proves the properties listed under
"## Model" about it; the weaker points are listed under "## Left out".

| module | file | models |
|---|---|---|
| `Basics` | `basics.dfy` | `Option`, `Result`, Python truthiness of optional strings (`None` and `""` are false), ASCII `str.lower()` |
| `Paths` | `paths.dfy` | `PurePosixPath.name`, `.suffix`, `.stem` and `.with_suffix` over normalised POSIX path strings, following the rules of CPython 3.8 to 3.12 |
| `Registry` | `registry.dfy` | `INPUT_FORMATS`, `OUTPUT_FORMATS` (ordered, as dict literals are), `INPUT_ONLY`, `STANDALONE_REQUIRED`, `detect_format`, the reversed output dict, `validate_conversion` |
| `Options` | `options.dfy` | the six recognised pandoc options, their spelling, their fixed emission order, and reading a rendered option list back |
| `Command` | `command.dfy` | `build_pandoc_command`, as a method that appends step by step, proved equal to a functional specification |
| `Orchestrator` | `convert.dfy` | `convert`, as a method with its early returns, the PDF-engine probe loop and the `try` block, proved equal to a staged specification `ConvertSpec` |
| `Cli` | `cli.dfy` | the help, `--check` and `--formats` dispatch of `main` and its index-driven argument loop, as a method proved equal to a recursive specification `Scan` |

The operating system is a parameter of `convert`, the record `Env`. It holds:

- the programs `shutil.which` finds;
- the paths that exist before the run and after it;
- a function from a command to its result: an exit status with standard
  error, or an exception raised while launching.

What `convert` returns is an `Outcome`: `Returned(success, message,
outputPath)` or `Raised(error)`. `Raised` is the `ValueError` of `with_suffix`,
which `convert` does not catch. Messages are the datatype `Message`; `Text`
gives the exact string the code returns for each one.

## Model

| member | source | states |
|---|---|---|
| Basics.Lower | pandoc-converter/scripts/convert.py:130 | lower-casing keeps the length and maps every character through ASCII lower-casing |
| Basics.LowerOfLowerCase | pandoc-converter/scripts/convert.py:130 | lower-casing a string with no upper-case letter gives it back unchanged |
| Paths.Suffix | pandoc-converter/scripts/convert.py:130 | the suffix is empty or a well-formed extension (a dot, then at least one character, no further dot or '/'), and is a proper tail of the final path component |
| Paths.Stem | pandoc-converter/scripts/convert.py:227 | the name is the stem followed by the suffix; a non-empty name has a non-empty stem |
| Paths.WithSuffix | pandoc-converter/scripts/convert.py:227 | `with_suffix` fails exactly for a suffix containing '/', a non-empty suffix not starting with '.', the suffix ".", or a path with an empty name |
| Paths.SuffixOfSplit | pandoc-converter/scripts/convert.py:130 | a file named stem + x, for a well-formed extension x and a non-empty stem, has name stem + x and suffix x, whatever dots the stem holds |
| Paths.LeadingDotNoSuffix | pandoc-converter/scripts/convert.py:130 | a name whose only dot is its first character has no suffix |
| Paths.WithSuffixThenSuffix | pandoc-converter/scripts/convert.py:227 | `with_suffix(x)` keeps the directory and the stem, and x is then read back as the suffix |
| Paths.WithSuffixName | pandoc-converter/scripts/convert.py:227 | for any non-empty suffix `with_suffix` accepts, dots inside it included, the result keeps the directory and its name is the stem followed by that suffix |
| Paths.WithSuffixIdempotent | pandoc-converter/scripts/convert.py:227 | putting on the same extension a second time changes nothing |
| Registry.Get | pandoc-converter/scripts/convert.py:131 | `dict.get` gives None exactly when no entry has the key, and otherwise a value stored under the key |
| Registry.ReverseGet | pandoc-converter/scripts/convert.py:225-226 | the reversed dict answers with the key of the last entry holding the value, and None exactly when no entry holds it |
| Registry.CanonicalExtension | pandoc-converter/scripts/convert.py:225-226 | for a registered output format, looking the extension up again in `OUTPUT_FORMATS` gives that format; otherwise the extension is "." + format |
| Registry.CanonicalExtensionDotted | pandoc-converter/scripts/convert.py:225-226 | the extension given to a synthesized output file always starts with '.' |
| Registry.ValidateConversion | pandoc-converter/scripts/convert.py:134-148 | the conversion is allowed exactly when there is no reason, and exactly when the output extension is not input-only and the pair is not tabular input to .pptx or .epub |
| Registry.ValidationMessages | pandoc-converter/scripts/convert.py:134-148 | the input-only rule is checked first and wins over the tabular rule, with the exact rejection message of each |
| Registry.ValidationIgnoresFormats | pandoc-converter/scripts/convert.py:134-148 | the format-name arguments never change the verdict |
| Registry.GetAt | pandoc-converter/scripts/convert.py:131 | in a table with distinct keys, looking a key up gives the value stored beside it |
| Registry.ReverseThenGet | pandoc-converter/scripts/convert.py:225-226 | in a well-formed table, the key the reversed dict gives for a value looks up to that value |
| Registry.DetectFormat | pandoc-converter/scripts/convert.py:128-131 | the format is None exactly when no key of the table is the path's lower-cased suffix, and otherwise a value stored under that key |
| Registry.DetectFormatOfName | pandoc-converter/scripts/convert.py:128-131 | detection depends only on the suffix, lower-cased |
| Registry.DetectRegistered | pandoc-converter/scripts/convert.py:128-131 | every registered extension, in any letter case, is detected as exactly its registered format |
| Registry.DetectWithoutSuffix | pandoc-converter/scripts/convert.py:128-131 | a path without a suffix is never detected |
| Registry.DetectUnregistered | pandoc-converter/scripts/convert.py:128-131 | an extension that matches no key, whatever its case, gives None |
| Registry.DetectIgnoresCase | pandoc-converter/scripts/convert.py:128-131 | `X.MD` and `x.md` are both detected as markdown |
| Registry.DetectCsv | pandoc-converter/scripts/convert.py:38 | `.csv` is detected as csv on input and as nothing on output |
| Registry.OutputHasNoCsv | pandoc-converter/scripts/convert.py:52-68 | no output extension is `.csv` |
| Registry.CanonicalExtensionsLastWins | pandoc-converter/scripts/convert.py:225 | the later key overwrites in the reversed dict: markdown gives .markdown, html gives .htm, latex gives .latex |
| Registry.CanonicalExtensionsSingle | pandoc-converter/scripts/convert.py:225-226 | docx, pptx, epub and pdf get their only extension |
| Registry.CanonicalExtensionFallback | pandoc-converter/scripts/convert.py:226 | two instances of the `.get` default: csv and docbook, which are not output formats, get ".csv" and ".docbook" (the general rule is the second ensures of `CanonicalExtension`) |
| Registry.InputTableWellFormed | pandoc-converter/scripts/convert.py:32-50 | every key of `INPUT_FORMATS` is a lower-case extension, and no key repeats |
| Registry.OutputTableWellFormed | pandoc-converter/scripts/convert.py:52-68 | every key of `OUTPUT_FORMATS` is a lower-case extension, and no key repeats |
| Options.AssembleAscending | pandoc-converter/scripts/convert.py:157-179 | the emitted options come at most once each, in the order -f, -t, -o, -s, --toc, --pdf-engine |
| Options.AssembleMembers | pandoc-converter/scripts/convert.py:157-179 | each option is emitted exactly when its argument is given or its switch is on, and carries that argument |
| Options.UnrenderRender | pandoc-converter/scripts/convert.py:154-179 | the rendered option words read back to the same options, whatever the arguments spell |
| Command.WantsStandalone | pandoc-converter/scripts/convert.py:169-171 | -s is wanted whenever asked for; with no truthy output file only then; and when not asked for, only for a lower-cased output suffix in `STANDALONE_REQUIRED` |
| Command.PandocCommand | pandoc-converter/scripts/convert.py:151-188 | the command starts with "pandoc", ends with the input file, and has the extra arguments verbatim just before it (`CommandLayout` gives the options in between) |
| Command.Given | pandoc-converter/scripts/convert.py:157 | an argument counts as given exactly when it is truthy, and then it is passed on unchanged |
| Command.BuildPandocCommand | pandoc-converter/scripts/convert.py:151-188 | the list built by appending equals the builder's specification `PandocCommand` |
| Command.PandocCommandFor | pandoc-converter/scripts/convert.py:151-188 | the builder's command is the one for the options the request chooses |
| Command.CommandLayout | pandoc-converter/scripts/convert.py:154-188 | the command is "pandoc", the chosen options rendered in their fixed order, the extra arguments verbatim, then the input file last |
| Command.CommandReadsBack | pandoc-converter/scripts/convert.py:154-188 | the command splits back into "pandoc", the chosen options, exactly the extra arguments, and the input file |
| Command.RequestOptions | pandoc-converter/scripts/convert.py:157-179 | -f, -t, -o and --pdf-engine appear exactly for a truthy argument, carrying it; -s exactly when asked for or implied by the output suffix; --toc exactly when asked for; all in ascending order |
| Command.StandaloneOf | pandoc-converter/scripts/convert.py:169-171 | for a non-empty output file, -s is wanted exactly when asked for or when the lower-cased suffix is standalone-required |
| Command.StandaloneBySuffix | pandoc-converter/scripts/convert.py:169-171 | an output file with suffix x gets -s unasked exactly when x lower-cased is .html, .htm, .epub or .pdf |
| Orchestrator.Text | pandoc-converter/scripts/convert.py:202-279 | each message is the code's fixed wording followed by the value it names (`Subject`: the file, the rejection reason, the launch error, pandoc's standard error or "Unknown error" when that is empty, the output path, or the installation instructions), so it ends with that value |
| Orchestrator.InstallationInstructions | pandoc-converter/scripts/convert.py:95-125 | the installation text, verbatim (a constant, without a contract) |
| Orchestrator.InputFormatOf | pandoc-converter/scripts/convert.py:210-214 | a truthy given input format is kept; otherwise the format is the `INPUT_FORMATS` entry for the input's lower-cased suffix, None exactly when no key matches |
| Orchestrator.FirstOnPath | pandoc-converter/scripts/convert.py:242-245 | gives None exactly when no engine is on the path; otherwise an engine that is on the path with none before it |
| Orchestrator.ProbePdfEngine | pandoc-converter/scripts/convert.py:242-245 | the probe loop with `break` finds the first of pdflatex, xelatex and lualatex that is on the path |
| Orchestrator.EngineFor | pandoc-converter/scripts/convert.py:240-253 | the only failure of the engine step is the missing LaTeX engine |
| Orchestrator.EngineChoice | pandoc-converter/scripts/convert.py:240-253 | a given engine, or output that is not PDF, is passed on untouched; otherwise the engine step succeeds exactly when some engine is on the path, and it picks the first one found |
| Orchestrator.TargetOf | pandoc-converter/scripts/convert.py:216-230 | a resolved target has a non-empty output file and format; an output file with a format resolves to exactly that file and format; an output file with no format resolves exactly when `OUTPUT_FORMATS` detects it, with the detected format, and otherwise fails with `OutputFormatUnknown` of that file; a bare output format can fail only by raising, and only it can raise; neither file nor format fails with `NoTarget` |
| Orchestrator.PlanOf | pandoc-converter/scripts/convert.py:199-253 | every stop before the run is a failure |
| Orchestrator.PlanFor | pandoc-converter/scripts/convert.py:232-253 | every stop in the validator and engine steps is a failure |
| Orchestrator.Finish | pandoc-converter/scripts/convert.py:261-279 | reading the run's result succeeds exactly on exit status 0 with the output file present, and then reports that path; a launch exception fails with `LaunchFailed` of its text, a non-zero exit with `PandocFailed` of the standard error, and exit 0 without the output file with `NotCreated` |
| Orchestrator.ConvertSpec | pandoc-converter/scripts/convert.py:191-279 | a returned outcome succeeds exactly when it carries an output path, and a success reports that path in its message |
| Orchestrator.RunPandoc | pandoc-converter/scripts/convert.py:261-279 | the `try` block gives what `Finish` says about the command's result |
| Orchestrator.Convert | pandoc-converter/scripts/convert.py:191-279 | the early-return method gives exactly `ConvertSpec` |
| Orchestrator.ConvertResolved | pandoc-converter/scripts/convert.py:232-279 | the method from the validator on gives exactly the outcome of the second-stage plan |
| Orchestrator.ChecksInOrder | pandoc-converter/scripts/convert.py:199-230 | the first failing check decides the outcome: pandoc missing, then input missing, then input format undetectable, then an unresolvable output side |
| Orchestrator.LaterChecksInOrder | pandoc-converter/scripts/convert.py:232-253 | then an input-only output extension is rejected, whatever else holds; then tabular input to .pptx or .epub; then PDF output with no engine given and none on the path |
| Orchestrator.LaunchConditions | pandoc-converter/scripts/convert.py:199-259 | pandoc is run exactly when every check before the run passes |
| Orchestrator.SuccessConditions | pandoc-converter/scripts/convert.py:256-276 | `convert` succeeds exactly when pandoc is run, exits with status 0, and the output file exists afterwards |
| Orchestrator.SynthesizedOutput | pandoc-converter/scripts/convert.py:223-228 | a bare output format whose extension is well formed, with an input path of non-empty name, resolves, keeping the input's directory and stem and giving the format's extension as the suffix |
| Orchestrator.SynthesizedOutputDetected | pandoc-converter/scripts/convert.py:223-228 | for a registered output format and an input path of non-empty name, the target resolves and the synthesized file is detected as that same format |
| Orchestrator.TargetRaises | pandoc-converter/scripts/convert.py:223-227 | the `ValueError` of `with_suffix` escapes exactly when a bare output format contains '/' or the input path has an empty name |
| Orchestrator.SynthesisResolves | pandoc-converter/scripts/convert.py:223-228 | a bare output format without '/' and an input path with a non-empty name always resolve: `with_suffix` does not raise |
| Orchestrator.SynthesizedName | pandoc-converter/scripts/convert.py:223-228 | for any bare output format without '/', dotted ones such as "writer.lua" included, and an input path with a non-empty name, the output file is in the input's directory and is named the input's stem followed by the format's extension |
| Orchestrator.OutputValuesFree | pandoc-converter/scripts/convert.py:52-68 | no output format name contains '/' |
| Orchestrator.LaunchStages | pandoc-converter/scripts/convert.py:210-237 | a launch has a truthy input format and a resolved target, and the second stage decides it |
| Orchestrator.SecondStage | pandoc-converter/scripts/convert.py:232-279 | once pandoc is found, the input exists, the input format is known and the target resolves, the outcome is decided by the validator, then the engine step, then the run |
| Orchestrator.LaunchedCall | pandoc-converter/scripts/convert.py:256-259 | pandoc is called with the request's input file, switches and extra arguments, the resolved formats and output path, and the engine chosen for the output |
| Orchestrator.LaunchedOptions | pandoc-converter/scripts/convert.py:256-259 | the launched command carries -f, -t and -o with the resolved values; -s when asked for or when the output suffix is standalone-required; --toc when asked for; --pdf-engine exactly with a truthy engine; all in the fixed order |
| Cli.Scan | pandoc-converter/scripts/convert.py:332-368 | reading the arguments never clears a switch, only appends to the extra arguments, and never replaces a truthy input file |
| Cli.Dispatch | pandoc-converter/scripts/convert.py:301-378 | help exactly for no arguments, -h or --help; then --check; then --formats; a reading error names a trailing value-taking option; `convert` is called only with a non-empty input file |
| Cli.ParseArgs | pandoc-converter/scripts/convert.py:332-368 | the index-driven loop ends with the locals `Scan` gives, or with the `IndexError` it gives; `i` strictly increases |
| Cli.RequestOf | pandoc-converter/scripts/convert.py:370-378 | `convert` is called exactly when the input file is truthy |
| Cli.ScanFailsOnlyAtEnd | pandoc-converter/scripts/convert.py:336-353 | reading fails only on a value-taking option standing last, and the error names it |
| Cli.TrailingValueFlagFails | pandoc-converter/scripts/convert.py:336-353 | after arguments that read without error, a value-taking option standing last fails with the `IndexError`, naming that option |
| Cli.PassthroughVerbatim | pandoc-converter/scripts/convert.py:354-359 | unrecognised options, each with at most one following non-option, are appended to `extra_args` verbatim and in order, and nothing else changes |
| Cli.ExtraPositionalsDropped | pandoc-converter/scripts/convert.py:360-368 | once the input and output file are set, further positional arguments are dropped |
| Cli.PositionalsFill | pandoc-converter/scripts/convert.py:360-365 | positional arguments fill the input file, then the output file |
| Cli.EmptyPositionalReplaced | pandoc-converter/scripts/convert.py:360-362 | an empty positional argument is overwritten by the next one |
| Cli.OutputOptionFirst | pandoc-converter/scripts/convert.py:342-344 | with -o before the input file, the next positional argument is the input file |
| Cli.OutputOptionKept | pandoc-converter/scripts/convert.py:363-365 | with -o after the input file, a later positional argument does not replace the output file |
| Cli.LongSpellings | pandoc-converter/scripts/convert.py:336-347 | --from, --to and --standalone read exactly as -f, -t and -s: they set the input format, the output format and the standalone switch |
| Cli.EmptyOutputOptionReplaced | pandoc-converter/scripts/convert.py:342-344 | an output file given as `-o ""` is not truthy, so the next positional argument replaces it |
| Cli.CommandLineReadsBack | pandoc-converter/scripts/convert.py:332-378 | every request with a non-option input file and proper passthrough options comes back unchanged from its own command line |
| Cli.CommandLineRuns | pandoc-converter/scripts/convert.py:301-378 | `main` calls `convert` with exactly that request, unless a word of the command line asks for help, the installation check or the format list |

## Left out

- Path normalisation: paths are taken to be in the form `str(Path(p))` gives
  back unchanged (no repeated or trailing '/', no "." components). So
  `str(output_path)` is the output file string itself.
- Paths are POSIX paths ('/' separators, no drive). On Windows, for which
  the installation text has instructions, `Path` is a `WindowsPath` with '\\'
  separators and drives; that reading of `name`, `suffix` and `with_suffix` is
  not modelled.
- `str.lower()` is modelled on ASCII letters only; other Unicode case
  mappings are not modelled.
- `shutil.which`, `Path.exists` and `subprocess.run` are the oracle `Env`.
  The exception text of a failed launch is the `LaunchError` reason.
  Whether the output exists is read from `existsAfter`, without modelling
  what pandoc writes.
- `check_pandoc_installed` is reduced to the `which` lookup. Its
  `pandoc --version` probe and that probe's `try`/`except` only affect the
  version string, which `convert` never uses.
- `list_formats`, `print`, the usage text and `sys.exit` are not
  modelled. `Dispatch` records which of the help,
  `--check` and `--formats` branches `main` takes, but not what they print.
- The `ValueError` that `with_suffix` raises escapes `convert` uncaught. This
  happens for a bare `--to` containing '/', or for an input path with an empty
  name. It is modelled as the outcome `Raised`, not as a `(False, message,
  None)` result.
- The `IndexError` of `args[i + 1]` for a trailing value-taking option ends
  `main` with a traceback. It is modelled as the value `MissingValue(flag)`.

## Where the code and its own documentation disagree

The model follows the code.

- The docstring of `convert` (convert.py:193-198) promises a tuple
  `(success, message, output_path)`. The `with_suffix` call at convert.py:227
  runs outside the `try` block that starts at convert.py:261, so its
  `ValueError` escapes `convert` instead. `Orchestrator.TargetRaises` states
  exactly when this happens.
