/** The static format registry: the two extension-to-format dicts, the
    input-only and standalone-required extension sets, format detection by
    extension, the reverse lookup used to name a synthesized output file, and
    the conversion validator. */
module Registry {
  import opened Basics
  import opened Paths

  /** A Python dict literal, as its entries in insertion order. */
  type Table = seq<(string, string)>

  /** `INPUT_FORMATS`: extension -> format name. */
  const InputFormats: Table := [
    (".md", "markdown"), (".markdown", "markdown"), (".html", "html"), (".htm", "html"),
    (".docx", "docx"), (".csv", "csv"), (".tsv", "tsv"), (".xlsx", "xlsx"),
    (".pptx", "pptx"), (".tex", "latex"), (".latex", "latex"), (".epub", "epub"),
    (".rtf", "rtf"), (".json", "json"), (".xml", "xml"), (".gfm", "gfm"),
    (".commonmark", "commonmark")]

  /** `OUTPUT_FORMATS`: extension -> format name. */
  const OutputFormats: Table := [
    (".md", "markdown"), (".markdown", "markdown"), (".html", "html"), (".htm", "html"),
    (".docx", "docx"), (".pptx", "pptx"), (".tex", "latex"), (".latex", "latex"),
    (".epub", "epub"), (".rtf", "rtf"), (".json", "json"), (".xml", "xml"),
    (".pdf", "pdf"), (".gfm", "gfm"), (".commonmark", "commonmark")]

  /** `INPUT_ONLY`: extensions that are never valid output targets. */
  const InputOnly: set<string> := {".csv", ".tsv", ".xlsx"}

  /** `STANDALONE_REQUIRED`: output extensions that always get `-s`. */
  const StandaloneRequired: set<string> := {".html", ".htm", ".epub", ".pdf"}

  /** The tabular input extensions and the rich targets they may not be
      converted to, as written inside `validate_conversion`. */
  const TabularInputs: set<string> := {".csv", ".tsv", ".xlsx"}
  const RichTargets: set<string> := {".pptx", ".epub"}

  /** Index of the last of the first `n` entries whose key is `k`, or -1. */
  function LastIndexOfKey(t: Table, n: nat, k: string): (i: int)
    requires n <= |t|
    ensures -1 <= i < n
    ensures 0 <= i ==> t[i].0 == k
    ensures forall j :: i < j < n ==> t[j].0 != k
  {
    if n == 0 then -1 else if t[n - 1].0 == k then n - 1 else LastIndexOfKey(t, n - 1, k)
  }

  /** Index of the last of the first `n` entries whose value is `v`, or -1. */
  function LastIndexOfValue(t: Table, n: nat, v: string): (i: int)
    requires n <= |t|
    ensures -1 <= i < n
    ensures 0 <= i ==> t[i].1 == v
    ensures forall j :: i < j < n ==> t[j].1 != v
  {
    if n == 0 then -1 else if t[n - 1].1 == v then n - 1 else LastIndexOfValue(t, n - 1, v)
  }

  /** `dict.get(k)` on a dict literal (a repeated key keeps its last value). */
  function Get(t: Table, k: string): (r: Option<string>)
    ensures r.None? <==> forall j :: 0 <= j < |t| ==> t[j].0 != k
    ensures r.Some? ==> exists j :: 0 <= j < |t| && t[j] == (k, r.value)
  {
    var i := LastIndexOfKey(t, |t|, k);
    if i < 0 then None else Some(t[i].1)
  }

  /** `{v: k for k, v in t.items()}.get(v)`: the comprehension visits the
      entries in order and a later key overwrites an earlier one, so the
      answer is the key of the LAST entry whose value is `v`. */
  function ReverseGet(t: Table, v: string): (r: Option<string>)
    ensures r.None? <==> forall j :: 0 <= j < |t| ==> t[j].1 != v
    ensures r.Some? ==> exists j :: 0 <= j < |t| && t[j] == (r.value, v) &&
                                    forall j' :: j < j' < |t| ==> t[j'].1 != v
  {
    var i := LastIndexOfValue(t, |t|, v);
    if i < 0 then None else Some(t[i].0)
  }

  /** `detect_format`: the format registered for the lower-cased suffix of
      the path, if any. */
  function DetectFormat(path: string, t: Table): (f: Option<string>)
    ensures f.None? <==> forall j :: 0 <= j < |t| ==> t[j].0 != Lower(Suffix(path))
    ensures f.Some? ==> exists j :: 0 <= j < |t| && t[j] == (Lower(Suffix(path)), f.value)
  {
    Get(t, Lower(Suffix(path)))
  }

  /** The extension a bare `--to fmt` gives the synthesized output file: the
      reverse lookup of `OUTPUT_FORMATS`, or "." + fmt when it has none. */
  function CanonicalExtension(fmt: string): (x: string)
    ensures ReverseGet(OutputFormats, fmt).Some? ==> Get(OutputFormats, x) == Some(fmt)
    ensures ReverseGet(OutputFormats, fmt).None? ==> x == "." + fmt
  {
    match ReverseGet(OutputFormats, fmt)
    case Some(e) =>
      OutputTableWellFormed();
      ReverseThenGet(OutputFormats, fmt);
      e
    case None => "." + fmt
  }

  /** Whatever the format, the extension starts with '.'. */
  lemma CanonicalExtensionDotted(fmt: string)
    ensures CanonicalExtension(fmt) != [] && CanonicalExtension(fmt)[0] == '.'
  {
    if ReverseGet(OutputFormats, fmt).Some? {
      var x := CanonicalExtension(fmt);
      OutputTableWellFormed();
      var j :| 0 <= j < |OutputFormats| && OutputFormats[j] == (x, fmt);
    }
  }

  /** The verdict of `validate_conversion`: (allowed, reason). */
  datatype Verdict = Verdict(allowed: bool, reason: Option<string>)

  /** `validate_conversion`: rejects an input-only output extension first,
      then tabular input paired with a presentation or e-book output. */
  function ValidateConversion(inputFormat: string, outputFormat: string,
                              inputExt: string, outputExt: string): (v: Verdict)
    ensures v.allowed <==> v.reason.None?
    ensures v.allowed <==> outputExt !in InputOnly && !(inputExt in TabularInputs && outputExt in RichTargets)
  {
    if outputExt in InputOnly then
      Verdict(false, Some("Cannot convert TO " + outputExt + " - it's an input-only format"))
    else if inputExt in TabularInputs && outputExt in RichTargets then
      Verdict(false, Some("Converting tabular data (" + inputExt + ") to " + outputExt + " is not supported"))
    else
      Verdict(true, None)
  }

  /** The input-only rule is checked first and wins over the tabular rule;
      each rejection names the extensions involved. */
  lemma ValidationMessages(inputFormat: string, outputFormat: string, inputExt: string, outputExt: string)
    ensures outputExt in InputOnly ==>
      ValidateConversion(inputFormat, outputFormat, inputExt, outputExt)
      == Verdict(false, Some("Cannot convert TO " + outputExt + " - it's an input-only format"))
    ensures outputExt !in InputOnly && inputExt in TabularInputs && outputExt in RichTargets ==>
      ValidateConversion(inputFormat, outputFormat, inputExt, outputExt)
      == Verdict(false, Some("Converting tabular data (" + inputExt + ") to " + outputExt + " is not supported"))
  {
  }

  /** The format names never affect the verdict: only the extensions do. */
  lemma ValidationIgnoresFormats(inputFormat: string, outputFormat: string, inputFormat': string,
                                 outputFormat': string, inputExt: string, outputExt: string)
    ensures ValidateConversion(inputFormat, outputFormat, inputExt, outputExt)
         == ValidateConversion(inputFormat', outputFormat', inputExt, outputExt)
  {
  }

  predicate KeysAreExtensions(t: Table)
  {
    forall i :: 0 <= i < |t| ==> IsExtension(t[i].0)
  }

  predicate KeysLowerCase(t: Table)
  {
    forall i :: 0 <= i < |t| ==> IsLowerCase(t[i].0)
  }

  predicate KeysDistinct(t: Table)
  {
    forall i, j :: 0 <= i < j < |t| ==> t[i].0 != t[j].0
  }

  /** Every key is a lower-case extension and no key is repeated. */
  predicate WellFormedTable(t: Table)
  {
    KeysAreExtensions(t) && KeysLowerCase(t) && KeysDistinct(t)
  }

  /** With distinct keys, the entry holding a key is the one `dict.get` reads. */
  lemma GetAt(t: Table, i: nat)
    requires WellFormedTable(t) && i < |t|
    ensures Get(t, t[i].0) == Some(t[i].1)
  {
  }

  /** The reverse dict maps back: looking up the key it gives for `v` yields `v`. */
  lemma ReverseThenGet(t: Table, v: string)
    requires WellFormedTable(t)
    requires ReverseGet(t, v).Some?
    ensures Get(t, ReverseGet(t, v).value) == Some(v)
  {
    var i := LastIndexOfValue(t, |t|, v);
    GetAt(t, i);
  }

  /** The contract of `LastIndexOfValue` pins its result down. */
  lemma LastIndexOfValueAt(t: Table, v: string, i: int)
    requires -1 <= i < |t|
    requires 0 <= i ==> t[i].1 == v
    requires forall j :: i < j < |t| ==> t[j].1 != v
    ensures LastIndexOfValue(t, |t|, v) == i
  {
  }

  /** Detection looks only at the suffix, and ignores its case: a file named
      `stem` + `x` is detected as whatever the table holds for `x` lower-cased. */
  lemma DetectFormatOfName(d: string, stem: string, x: string, t: Table)
    requires d == [] || d[|d| - 1] == '/'
    requires stem != [] && Free(stem, '/')
    requires IsExtension(x)
    ensures DetectFormat(d + stem + x, t) == Get(t, Lower(x))
  {
    SuffixOfSplit(d, stem, x);
  }

  /** Every registered extension, in any letter case, is detected as exactly
      its registered format. */
  lemma DetectRegistered(t: Table, i: nat, d: string, stem: string, x: string)
    requires WellFormedTable(t) && i < |t|
    requires d == [] || d[|d| - 1] == '/'
    requires stem != [] && Free(stem, '/')
    requires IsExtension(x) && Lower(x) == t[i].0
    ensures DetectFormat(d + stem + x, t) == Some(t[i].1)
  {
    DetectFormatOfName(d, stem, x, t);
    GetAt(t, i);
  }

  /** A path without a suffix is never detected. */
  lemma DetectWithoutSuffix(p: string, t: Table)
    requires KeysAreExtensions(t)
    requires Suffix(p) == []
    ensures DetectFormat(p, t) == None
  {
    assert Lower(Suffix(p)) == [];
  }

  /** An extension that no key matches, whatever its case, is not detected. */
  lemma DetectUnregistered(t: Table, d: string, stem: string, x: string)
    requires d == [] || d[|d| - 1] == '/'
    requires stem != [] && Free(stem, '/')
    requires IsExtension(x)
    requires forall j :: 0 <= j < |t| ==> t[j].0 != Lower(x)
    ensures DetectFormat(d + stem + x, t) == None
  {
    DetectFormatOfName(d, stem, x, t);
  }

  /** `X.MD` and `x.md` are both markdown. */
  lemma DetectIgnoresCase()
    ensures DetectFormat("X.MD", InputFormats) == Some("markdown")
    ensures DetectFormat("x.md", InputFormats) == Some("markdown")
  {
    DetectUpperCaseMd();
    DetectLowerCaseMd();
  }

  lemma DetectUpperCaseMd()
    ensures DetectFormat("X.MD", InputFormats) == Some("markdown")
  {
    assert "X.MD" == [] + "X" + ".MD";
    InputTableWellFormed();
    assert Lower(".MD") == ".md" by {
      var r := Lower(".MD");
      assert r[0] == '.' && r[1] == 'm' && r[2] == 'd';
    }
    DetectRegistered(InputFormats, 0, [], "X", ".MD");
  }

  lemma DetectLowerCaseMd()
    ensures DetectFormat("x.md", InputFormats) == Some("markdown")
  {
    assert "x.md" == [] + "x" + ".md";
    InputTableWellFormed();
    LowerOfLowerCase(".md");
    DetectRegistered(InputFormats, 0, [], "x", ".md");
  }

  lemma OutputHasNoCsv()
    ensures forall j :: 0 <= j < |OutputFormats| ==> OutputFormats[j].0 != ".csv"
  {
  }

  /** `.csv` is an input format but not an output format. */
  lemma DetectCsv()
    ensures DetectFormat("data.csv", InputFormats) == Some("csv")
    ensures DetectFormat("data.csv", OutputFormats) == None
  {
    DetectCsvInput();
    DetectCsvOutput();
  }

  lemma DetectCsvInput()
    ensures DetectFormat("data.csv", InputFormats) == Some("csv")
  {
    assert "data.csv" == [] + "data" + ".csv";
    InputTableWellFormed();
    LowerOfLowerCase(".csv");
    DetectRegistered(InputFormats, 5, [], "data", ".csv");
  }

  lemma DetectCsvOutput()
    ensures DetectFormat("data.csv", OutputFormats) == None
  {
    assert "data.csv" == [] + "data" + ".csv";
    LowerOfLowerCase(".csv");
    OutputHasNoCsv();
    DetectUnregistered(OutputFormats, [], "data", ".csv");
  }

  /** The reverse dict keeps the last extension listed for each output
      format: `.markdown`, `.htm` and `.latex` win over `.md`, `.html` and
      `.tex`. */
  lemma CanonicalExtensionsLastWins()
    ensures CanonicalExtension("markdown") == ".markdown"
    ensures CanonicalExtension("html") == ".htm"
    ensures CanonicalExtension("latex") == ".latex"
  {
    var t := OutputFormats;
    LastIndexOfValueAt(t, "markdown", 1);
    LastIndexOfValueAt(t, "html", 3);
    LastIndexOfValueAt(t, "latex", 7);
  }

  /** An output format listed under one extension gets that extension. */
  lemma CanonicalExtensionsSingle()
    ensures CanonicalExtension("docx") == ".docx"
    ensures CanonicalExtension("pptx") == ".pptx"
    ensures CanonicalExtension("epub") == ".epub"
    ensures CanonicalExtension("pdf") == ".pdf"
  {
    var t := OutputFormats;
    LastIndexOfValueAt(t, "docx", 4);
    LastIndexOfValueAt(t, "pptx", 5);
    LastIndexOfValueAt(t, "epub", 8);
    LastIndexOfValueAt(t, "pdf", 12);
  }

  /** A format that is not an output format gets "." + its own name. */
  lemma CanonicalExtensionFallback()
    ensures CanonicalExtension("csv") == ".csv"
    ensures CanonicalExtension("docbook") == ".docbook"
  {
    LastIndexOfValueAt(OutputFormats, "csv", -1);
    LastIndexOfValueAt(OutputFormats, "docbook", -1);
  }

  /** Keys at indices in [i0, i1) differ from later keys at indices in
      [j0, j1). */
  predicate KeysDifferIn(t: Table, i0: nat, i1: nat, j0: nat, j1: nat)
  {
    forall i, j :: i0 <= i < i1 && j0 <= j < j1 && i < j < |t| ==> t[i].0 != t[j].0
  }

  /** Keys at indices in [lo, hi) are extensions. */
  predicate ExtensionsIn(t: Table, lo: nat, hi: nat)
  {
    forall i :: lo <= i < hi && i < |t| ==> IsExtension(t[i].0)
  }

  /** Keys at indices in [lo, hi) are lower case. */
  predicate LowerCaseIn(t: Table, lo: nat, hi: nat)
  {
    forall i :: lo <= i < hi && i < |t| ==> IsLowerCase(t[i].0)
  }

  lemma InputTableWellFormed()
    ensures WellFormedTable(InputFormats)
  {
    assert |InputFormats| == 17;
    InputExtensionsLow();
    InputExtensionsHigh();
    InputLowerCaseLow();
    InputLowerCaseHigh();
    InputKeysDiffer0();
    InputKeysDiffer1();
    InputKeysDiffer2();
    InputKeysDiffer3();
    InputKeysDiffer4();
    InputKeysDiffer5();
    InputKeysDiffer6();
    InputKeysDiffer7();
    InputKeysDiffer8();
    InputKeysDiffer9();
  }

  lemma InputExtensionsLow()
    ensures ExtensionsIn(InputFormats, 0, 9)
  {
  }

  lemma InputExtensionsHigh()
    ensures ExtensionsIn(InputFormats, 9, 17)
  {
  }

  lemma InputLowerCaseLow()
    ensures LowerCaseIn(InputFormats, 0, 9)
  {
  }

  lemma InputLowerCaseHigh()
    ensures LowerCaseIn(InputFormats, 9, 17)
  {
  }

  lemma OutputTableWellFormed()
    ensures WellFormedTable(OutputFormats)
  {
    assert |OutputFormats| == 15;
    OutputExtensionsLow();
    OutputExtensionsHigh();
    OutputLowerCaseLow();
    OutputLowerCaseHigh();
    OutputKeysDiffer0();
    OutputKeysDiffer1();
    OutputKeysDiffer2();
    OutputKeysDiffer3();
    OutputKeysDiffer4();
    OutputKeysDiffer5();
    OutputKeysDiffer6();
    OutputKeysDiffer7();
    OutputKeysDiffer8();
    OutputKeysDiffer9();
  }

  lemma OutputExtensionsLow()
    ensures ExtensionsIn(OutputFormats, 0, 8)
  {
  }

  lemma OutputExtensionsHigh()
    ensures ExtensionsIn(OutputFormats, 8, 15)
  {
  }

  lemma OutputLowerCaseLow()
    ensures LowerCaseIn(OutputFormats, 0, 8)
  {
  }

  lemma OutputLowerCaseHigh()
    ensures LowerCaseIn(OutputFormats, 8, 15)
  {
  }

  lemma InputKeysDiffer0()
    ensures KeysDifferIn(InputFormats, 0, 5, 0, 5)
  {
  }

  lemma InputKeysDiffer1()
    ensures KeysDifferIn(InputFormats, 0, 5, 5, 9)
  {
  }

  lemma InputKeysDiffer2()
    ensures KeysDifferIn(InputFormats, 0, 5, 9, 13)
  {
  }

  lemma InputKeysDiffer3()
    ensures KeysDifferIn(InputFormats, 0, 5, 13, 17)
  {
  }

  lemma InputKeysDiffer4()
    ensures KeysDifferIn(InputFormats, 5, 9, 5, 9)
  {
  }

  lemma InputKeysDiffer5()
    ensures KeysDifferIn(InputFormats, 5, 9, 9, 13)
  {
  }

  lemma InputKeysDiffer6()
    ensures KeysDifferIn(InputFormats, 5, 9, 13, 17)
  {
  }

  lemma InputKeysDiffer7()
    ensures KeysDifferIn(InputFormats, 9, 13, 9, 13)
  {
  }

  lemma InputKeysDiffer8()
    ensures KeysDifferIn(InputFormats, 9, 13, 13, 17)
  {
  }

  lemma InputKeysDiffer9()
    ensures KeysDifferIn(InputFormats, 13, 17, 13, 17)
  {
  }

  lemma OutputKeysDiffer0()
    ensures KeysDifferIn(OutputFormats, 0, 4, 0, 4)
  {
  }

  lemma OutputKeysDiffer1()
    ensures KeysDifferIn(OutputFormats, 0, 4, 4, 8)
  {
  }

  lemma OutputKeysDiffer2()
    ensures KeysDifferIn(OutputFormats, 0, 4, 8, 12)
  {
  }

  lemma OutputKeysDiffer3()
    ensures KeysDifferIn(OutputFormats, 0, 4, 12, 15)
  {
  }

  lemma OutputKeysDiffer4()
    ensures KeysDifferIn(OutputFormats, 4, 8, 4, 8)
  {
  }

  lemma OutputKeysDiffer5()
    ensures KeysDifferIn(OutputFormats, 4, 8, 8, 12)
  {
  }

  lemma OutputKeysDiffer6()
    ensures KeysDifferIn(OutputFormats, 4, 8, 12, 15)
  {
  }

  lemma OutputKeysDiffer7()
    ensures KeysDifferIn(OutputFormats, 8, 12, 8, 12)
  {
  }

  lemma OutputKeysDiffer8()
    ensures KeysDifferIn(OutputFormats, 8, 12, 12, 15)
  {
  }

  lemma OutputKeysDiffer9()
    ensures KeysDifferIn(OutputFormats, 12, 15, 12, 15)
  {
  }
}
