/** The recognised pandoc options, how they are spelled on the command line,
    and the fixed order in which the converter emits them. */
module Options {
  import opened Basics

  /** A recognised option together with its argument. */
  datatype Flag =
    | FromFormat(format: string)
    | ToFormat(format: string)
    | OutputFile(path: string)
    | Standalone
    | TableOfContents
    | PdfEngine(engine: string)

  /** Position of each option in the emission order. */
  function Rank(f: Flag): nat
  {
    match f
    case FromFormat(_) => 0
    case ToFormat(_) => 1
    case OutputFile(_) => 2
    case Standalone => 3
    case TableOfContents => 4
    case PdfEngine(_) => 5
  }

  /** The words one option contributes to the command line. */
  function Words(f: Flag): seq<string>
  {
    match f
    case FromFormat(fmt) => ["-f", fmt]
    case ToFormat(fmt) => ["-t", fmt]
    case OutputFile(p) => ["-o", p]
    case Standalone => ["-s"]
    case TableOfContents => ["--toc"]
    case PdfEngine(e) => ["--pdf-engine", e]
  }

  function Render(flags: seq<Flag>): seq<string>
  {
    if flags == [] then [] else Words(flags[0]) + Render(flags[1..])
  }

  function Maybe(present: bool, f: Flag): seq<Flag>
  {
    if present then [f] else []
  }

  /** The words of an option that may be absent. */
  function WordsIf(present: bool, f: Flag): seq<string>
  {
    if present then Words(f) else []
  }

  /** The argument of an optional, "" when absent (never emitted then). */
  function ValueOr(o: Option<string>): string
  {
    if o.Some? then o.value else ""
  }

  /** What a command line asks for: the argument of each option that takes
      one (`None` when it is not given) and the two switches. */
  datatype Choices = Choices(from: Option<string>, to: Option<string>, out: Option<string>,
                             standalone: bool, toc: bool, engine: Option<string>)

  /** The option of rank `k` that `c` would emit. */
  function Candidate(c: Choices, k: nat): (f: Flag)
    requires k < 6
    ensures Rank(f) == k
  {
    if k == 0 then FromFormat(ValueOr(c.from))
    else if k == 1 then ToFormat(ValueOr(c.to))
    else if k == 2 then OutputFile(ValueOr(c.out))
    else if k == 3 then Standalone
    else if k == 4 then TableOfContents
    else PdfEngine(ValueOr(c.engine))
  }

  /** Whether `c` asks for the option of rank `k`. */
  predicate Chosen(c: Choices, k: nat)
    requires k < 6
  {
    if k == 0 then c.from.Some?
    else if k == 1 then c.to.Some?
    else if k == 2 then c.out.Some?
    else if k == 3 then c.standalone
    else if k == 4 then c.toc
    else c.engine.Some?
  }

  /** The chosen options among the first `k` ranks, in rank order. */
  function Prefix(c: Choices, k: nat): seq<Flag>
    requires k <= 6
  {
    if k == 0 then [] else Prefix(c, k - 1) + Maybe(Chosen(c, k - 1), Candidate(c, k - 1))
  }

  /** The options to emit for `c`, in the order -f, -t, -o, -s, --toc,
      --pdf-engine. */
  function Assemble(c: Choices): seq<Flag>
  {
    Prefix(c, 6)
  }

  lemma {:induction false} RenderAppend(a: seq<Flag>, b: seq<Flag>)
    ensures Render(a + b) == Render(a) + Render(b)
    decreases |a|
  {
    if a == [] {
      assert a + b == b;
    } else {
      assert (a + b)[1..] == a[1..] + b;
      RenderAppend(a[1..], b);
    }
  }

  /** Appending an option that may be absent: the rendering grows by its
      words exactly when it is present. */
  lemma RenderMaybe(fs: seq<Flag>, present: bool, f: Flag)
    ensures Render(fs + Maybe(present, f)) == Render(fs) + WordsIf(present, f)
  {
    RenderAppend(fs, Maybe(present, f));
    if present {
      assert Render([f]) == Words(f) + Render([]);
    } else {
      assert Render([]) == [];
    }
  }

  /** The words of the chosen options among the first `k` ranks. */
  function PrefixWords(c: Choices, k: nat): seq<string>
    requires k <= 6
  {
    if k == 0 then [] else PrefixWords(c, k - 1) + WordsIf(Chosen(c, k - 1), Candidate(c, k - 1))
  }

  /** Rendering the chosen options gives the words of each, rank by rank. */
  lemma {:induction false} RenderPrefix(c: Choices, k: nat)
    requires k <= 6
    ensures Render(Prefix(c, k)) == PrefixWords(c, k)
  {
    if k > 0 {
      RenderPrefix(c, k - 1);
      RenderMaybe(Prefix(c, k - 1), Chosen(c, k - 1), Candidate(c, k - 1));
    }
  }

  /** Ranks strictly increase along `fs`: no option repeats and they come in
      the emission order. */
  predicate Ascending(fs: seq<Flag>)
  {
    forall i, j :: 0 <= i < j < |fs| ==> Rank(fs[i]) < Rank(fs[j])
  }

  predicate RanksBelow(fs: seq<Flag>, r: nat)
  {
    forall i :: 0 <= i < |fs| ==> Rank(fs[i]) < r
  }

  lemma {:induction false} PrefixAscending(c: Choices, k: nat)
    requires k <= 6
    ensures Ascending(Prefix(c, k)) && RanksBelow(Prefix(c, k), k)
  {
    if k > 0 {
      PrefixAscending(c, k - 1);
    }
  }

  /** The assembled options come at most once each, in rank order. */
  lemma AssembleAscending(c: Choices)
    ensures Ascending(Assemble(c))
  {
    PrefixAscending(c, 6);
  }

  /** The options among the first `k` ranks are exactly the chosen
      candidates. */
  lemma {:induction false} PrefixMembers(c: Choices, k: nat)
    requires k <= 6
    ensures forall f :: f in Prefix(c, k) <==> exists i :: 0 <= i < k && Chosen(c, i) && f == Candidate(c, i)
  {
    if k > 0 {
      PrefixMembers(c, k - 1);
    }
  }

  /** An option is assembled exactly when it is the candidate of its own
      rank and that rank is chosen. */
  lemma AssembleMember(c: Choices, f: Flag)
    ensures f in Assemble(c) <==> Chosen(c, Rank(f)) && f == Candidate(c, Rank(f))
  {
    PrefixMembers(c, 6);
    if f in Assemble(c) {
      var i :| 0 <= i < 6 && Chosen(c, i) && f == Candidate(c, i);
      assert Rank(f) == i;
    }
  }

  /** Each option is assembled exactly when its argument is given, and with
      that argument. */
  lemma AssembleMembers(c: Choices)
    ensures var fs := Assemble(c);
      && (forall x :: FromFormat(x) in fs <==> c.from == Some(x))
      && (forall x :: ToFormat(x) in fs <==> c.to == Some(x))
      && (forall x :: OutputFile(x) in fs <==> c.out == Some(x))
      && (Standalone in fs <==> c.standalone)
      && (TableOfContents in fs <==> c.toc)
      && (forall x :: PdfEngine(x) in fs <==> c.engine == Some(x))
  {
    var fs := Assemble(c);
    forall x ensures FromFormat(x) in fs <==> c.from == Some(x) {
      AssembleMember(c, FromFormat(x));
    }
    forall x ensures ToFormat(x) in fs <==> c.to == Some(x) {
      AssembleMember(c, ToFormat(x));
    }
    forall x ensures OutputFile(x) in fs <==> c.out == Some(x) {
      AssembleMember(c, OutputFile(x));
    }
    forall x ensures PdfEngine(x) in fs <==> c.engine == Some(x) {
      AssembleMember(c, PdfEngine(x));
    }
    AssembleMember(c, Standalone);
    AssembleMember(c, TableOfContents);
  }

  function Cons(f: Flag, rest: Option<seq<Flag>>): Option<seq<Flag>>
  {
    if rest.Some? then Some([f] + rest.value) else None
  }

  /** Reads a rendered option list back into options; `None` for words that
      no rendering produces. */
  function Unrender(ws: seq<string>): Option<seq<Flag>>
    decreases |ws|
  {
    if ws == [] then Some([])
    else if ws[0] == "-s" then Cons(Standalone, Unrender(ws[1..]))
    else if ws[0] == "--toc" then Cons(TableOfContents, Unrender(ws[1..]))
    else if |ws| < 2 then None
    else if ws[0] == "-f" then Cons(FromFormat(ws[1]), Unrender(ws[2..]))
    else if ws[0] == "-t" then Cons(ToFormat(ws[1]), Unrender(ws[2..]))
    else if ws[0] == "-o" then Cons(OutputFile(ws[1]), Unrender(ws[2..]))
    else if ws[0] == "--pdf-engine" then Cons(PdfEngine(ws[1]), Unrender(ws[2..]))
    else None
  }

  /** One option read back off the front of the words. */
  lemma UnrenderWords(f: Flag, rest: seq<string>)
    ensures Unrender(Words(f) + rest) == Cons(f, Unrender(rest))
  {
    var ws := Words(f) + rest;
    assert ws[|Words(f)|..] == rest;
    match f
    case FromFormat(x) =>
      assert ws[0] == "-f" && ws[1] == x;
      assert "-f" != "-s" && "-f" != "--toc";
    case ToFormat(x) =>
      assert ws[0] == "-t" && ws[1] == x;
      assert "-t" != "-s" && "-t" != "--toc" && "-t" != "-f";
    case OutputFile(x) =>
      assert ws[0] == "-o" && ws[1] == x;
      assert "-o" != "-s" && "-o" != "--toc" && "-o" != "-f" && "-o" != "-t";
    case Standalone =>
      assert ws[0] == "-s";
    case TableOfContents =>
      assert ws[0] == "--toc";
      assert "--toc" != "-s";
    case PdfEngine(x) =>
      assert ws[0] == "--pdf-engine" && ws[1] == x;
      assert "--pdf-engine" != "-s" && "--pdf-engine" != "--toc" && "--pdf-engine" != "-f";
      assert "--pdf-engine" != "-t" && "--pdf-engine" != "-o";
  }

  /** Rendering loses nothing: the options can be read back from the words,
      whatever their arguments spell (an argument "-s" stays an argument). */
  lemma {:induction false} UnrenderRender(fs: seq<Flag>)
    ensures Unrender(Render(fs)) == Some(fs)
    decreases |fs|
  {
    if fs != [] {
      UnrenderWords(fs[0], Render(fs[1..]));
      UnrenderRender(fs[1..]);
      assert fs == [fs[0]] + fs[1..];
    }
  }
}
