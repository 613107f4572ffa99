/** The two kernels of the generator's own `test()` data
    (xndtools/kernel_generator/kernel_source_template.py, lines 563-596),
    worked through `initialize_kernels`. */
module Samples {
  import opened Strings
  import opened Intents
  import opened Arguments
  import opened Kernels

  function Plain(name: string, intent: Tags, typ: string, left: Option<string>, shape: Option<seq<Dim>>): Arg
  {
    Arg(name, intent, Some(typ), left, None, shape, None, None, None, None, None)
  }

  /** `example_sum`: a hidden bound `n`, arrays `x[n]` and `y[n+5, n]`, a
      hidden output `r`, returning `void`. */
  function SumKernel(): Kernel
  {
    Kernel("example_sum", "d_example_sum", "void", None, None,
      [Plain("n", {Hide}, "long", None, None).(value := Some("xnd_fixed_shape_at(&gmk_x, 0)"), depends := Some("x")),
       Plain("x", {Input}, "double", Some("*"), Some([Dim("n", None)])),
       Plain("y", {Input}, "double", Some("*"), Some([Dim("n+5", None), Dim("n", None)])),
       Plain("r", {Hide, Output}, "double", Some("*"), None)])
  }

  /** `foo`: no arguments, returning `double`. */
  function FooKernel(): Kernel
  {
    Kernel("foo", "d_foo", "double", None, None, [])
  }

  lemma SymbolicNames()
    ensures !IsDigits("n") && !IsDigits("n+5")
  {
    assert "n"[0] == 'n' && "n+5"[0] == 'n';
  }

  lemma SumArgOccs()
    ensures ArgOccs(SumKernel().arguments[1]) == [Occ("x", "n", false, None)]
    ensures ArgOccs(SumKernel().arguments[2]) == [Occ("y", "n+5", false, None), Occ("y", "n", false, None)]
  {
    var args := SumKernel().arguments;
    SymbolicNames();
    var xs := args[1].shape.value;
    DimOccsStep(xs, args[1], 0);
    assert xs[..1] == xs && xs[..0] == [];
    var ys := args[2].shape.value;
    DimOccsStep(ys, args[2], 0);
    DimOccsStep(ys, args[2], 1);
    assert ys[..2] == ys && ys[..0] == [];
  }

  /** Of four arguments, only the middle two have symbolic dimensions. */
  lemma OccurrencesOfFour(args: seq<Arg>)
    requires |args| == 4 && ArgOccs(args[0]) == [] && ArgOccs(args[3]) == []
    ensures Occurrences(args) == ArgOccs(args[1]) + ArgOccs(args[2])
  {
    OccurrencesStep(args, 0);
    assert args[..0] == [];
    assert Occurrences(args[..1]) == [];
    OccurrencesStep(args, 1);
    assert Occurrences(args[..2]) == ArgOccs(args[1]);
    OccurrencesStep(args, 2);
    OccurrencesStep(args, 3);
    assert args[..4] == args;
  }

  /** The symbolic dimensions `example_sum` meets, in order. */
  lemma SumOccurrences()
    ensures Occurrences(SumKernel().arguments)
      == [Occ("x", "n", false, None), Occ("y", "n+5", false, None), Occ("y", "n", false, None)]
  {
    SumArgOccs();
    OccurrencesOfFour(SumKernel().arguments);
  }

  /** A name met again is not new. */
  lemma NewsOfRepeat(a: Occ, b: Occ, c: Occ)
    requires a.value != b.value && c.value == a.value
    ensures NewOccs([a, b, c]) == [a, b]
  {
    assert [a, b, c][..2] == [a, b] && [a, b][..1] == [a] && [a][..0] == [];
    assert NewOccs([a]) == [a];
    assert Values([a]) == [a.value];
    assert NewOccs([a, b]) == [a, b];
    assert Values([a, b])[0] == c.value;
  }

  /** Two names first met in inputs take `N` and `M`, both input symbols. */
  lemma SymbolsOfTwoInputs(a: Occ, b: Occ)
    requires a.value != b.value && !a.out && !b.out
    ensures FirstFailure([a, b]).None?
    ensures LetterTable([a, b]) == map[a.value := 'N', b.value := 'M']
    ensures InLetters([a, b]) == "NM" && OutLetters([a, b]) == [] && Constraints([a, b]) == []
  {
    NewsAppend([], a);
    assert [] + [a] == [a];
    NewsAppend([a], b);
    assert DimensionSymbols[0] == 'N' && DimensionSymbols[1] == 'M';
  }

  lemma SymbolListOfTwo(c1: char, c2: char)
    ensures SymbolList([c1, c2]) == "\"" + [c1] + "\", \"" + [c2] + "\""
  {
    var letters := [c1, c2];
    var quoted := seq(2, i requires 0 <= i < 2 => "\"" + [letters[i]] + "\"");
    assert quoted == ["\"" + [c1] + "\"", "\"" + [c2] + "\""];
    assert Join(", ", quoted) == quoted[0] + ", " + Join(", ", quoted[1..]);
  }

  /** Two new names, `n` then `n+5`, both first met in inputs. */
  lemma SumNews()
    ensures KernelNews(SumKernel()) == [Occ("x", "n", false, None), Occ("y", "n+5", false, None)]
  {
    SumOccurrences();
    assert "n" != "n+5";
    NewsOfRepeat(Occ("x", "n", false, None), Occ("y", "n+5", false, None), Occ("y", "n", false, None));
  }

  /** The counts, symbol list and constraints of a kernel whose new names
      are `news`. */
  lemma InfoOfNews(k: Kernel, news: seq<Occ>)
    requires KernelNews(k) == news && FirstFailure(news).None?
    ensures Expected(k).ninSymbols == |InLetters(news)| && Expected(k).noutSymbols == |OutLetters(news)|
    ensures Expected(k).symbols == SymbolList(InLetters(news) + OutLetters(news))
    ensures Expected(k).constraints == Join("\n  ", Constraints(news))
  {
  }

  /** `n` of `x` takes `N`, and `n+5` of `y`, not all digits, takes `M`. */
  lemma SumTable()
    ensures FirstFailure(KernelNews(SumKernel())).None?
    ensures LetterTable(KernelNews(SumKernel())) == map["n" := 'N', "n+5" := 'M']
  {
    SumNews();
    assert "n" != "n+5";
    SymbolsOfTwoInputs(Occ("x", "n", false, None), Occ("y", "n+5", false, None));
  }

  /** A kernel whose two new names are both met in inputs. */
  lemma SymbolsOfTwoNews(k: Kernel, a: Occ, b: Occ)
    requires KernelNews(k) == [a, b] && a.value != b.value && !a.out && !b.out
    ensures FirstFailure(KernelNews(k)).None?
    ensures var e := Expected(k);
      && e.ninSymbols == 2 && e.noutSymbols == 0 && e.constraints == ""
      && e.symbols == "\"N\", \"M\""
  {
    var news := KernelNews(k);
    SymbolsOfTwoInputs(a, b);
    SymbolListOfTwo('N', 'M');
    assert InLetters(news) + OutLetters(news) == ['N', 'M'];
    InfoOfNews(k, news);
    assert Join("\n  ", []) == "";
  }

  /** Both symbols of `example_sum` are input symbols. */
  lemma ExampleSumSymbols()
    ensures FirstFailure(KernelNews(SumKernel())).None?
    ensures var e := Expected(SumKernel());
      && e.ninSymbols == 2 && e.noutSymbols == 0 && e.constraints == ""
      && e.symbols == "\"N\", \"M\""
  {
    SumNews();
    assert "n" != "n+5";
    SymbolsOfTwoNews(SumKernel(), Occ("x", "n", false, None), Occ("y", "n+5", false, None));
  }

  lemma SumCounts()
    ensures var args := SumKernel().arguments;
      && Count(args[..1], In) == 0 && Count(args[..2], In) == 1 && Count(args, In) == 2
      && Count(args[..3], Out) == 0
  {
    var args := SumKernel().arguments;
    assert args[..0] == [] && args[..4] == args;
    CountStep(args, 0, In);
    CountStep(args, 1, In);
    CountStep(args, 2, In);
    CountStep(args, 3, In);
    CountStep(args, 0, Out);
    CountStep(args, 1, Out);
    CountStep(args, 2, Out);
  }

  /** The arguments `initialize_kernels` leaves for `example_sum`. */
  lemma SumArguments()
    ensures FirstFailure(KernelNews(SumKernel())).None?
    ensures Expected(SumKernel()).arguments
      == InitializedArguments(SumKernel().arguments, map["n" := 'N', "n+5" := 'M'])
  {
    SumTable();
    assert Expected(SumKernel()).arguments == ExpectedArguments(SumKernel());
  }

  /** Four arguments: one not numbered, two inputs, then an output. */
  lemma NumbersOfFour(args: seq<Arg>, table: map<string, char>)
    requires |args| == 4
    requires !IsInany(args[0].intent) && !IsOutany(args[0].intent)
    requires args[0].inputIndex.None? && args[0].outputIndex.None?
    requires IsInany(args[1].intent) && IsInany(args[2].intent) && IsOutany(args[3].intent)
    requires Count(args[..1], In) == 0 && Count(args[..2], In) == 1 && Count(args, In) == 2
    requires Count(args[..3], Out) == 0
    ensures var e := InitializedArguments(args, table);
      && e[0].inputIndex.None? && e[0].outputIndex.None?
      && e[1].inputIndex == Some(0) && e[2].inputIndex == Some(1)
      && e[3].outputIndex == Some(2)
  {
    InitializedAt(args, table, 0);
    InitializedAt(args, table, 1);
    InitializedAt(args, table, 2);
    InitializedAt(args, table, 3);
  }

  /** `x` and `y` are inputs 0 and 1; `r` is output 0 shifted by the two
      inputs; `n` gets no number. */
  lemma ExampleSumNumbers()
    ensures FirstFailure(KernelNews(SumKernel())).None?
    ensures var e := Expected(SumKernel()).arguments;
      && |e| == 4
      && e[0].inputIndex.None? && e[0].outputIndex.None?
      && e[1].inputIndex == Some(0) && e[2].inputIndex == Some(1)
      && e[3].outputIndex == Some(2)
  {
    SumArguments();
    SumCounts();
    NumbersOfFour(SumKernel().arguments, map["n" := 'N', "n+5" := 'M']);
  }

  /** The shapes carry their letters and `y` has two factors. */
  lemma ExampleSumShapes()
    ensures FirstFailure(KernelNews(SumKernel())).None?
    ensures var e := Expected(SumKernel()).arguments;
      && |e| == 4
      && e[1].shape == Some([Dim("n", Some("N"))])
      && e[2].shape == Some([Dim("n+5", Some("M")), Dim("n", Some("N"))])
      && e[2].nofitems == Some("(n+5)*(n)")
  {
    SumArguments();
    var args := SumKernel().arguments;
    var table := map["n" := 'N', "n+5" := 'M'];
    InitializedAt(args, table, 1);
    InitializedAt(args, table, 2);
    var e := Expected(SumKernel()).arguments;
    assert e[1].shape == Some(SetDimensions(args[1].shape.value, table));
    assert e[2].shape == Some(SetDimensions(args[2].shape.value, table));
    assert e[2].nofitems == Some(Nofitems(args[2].shape.value));
    SumDimensions(table);
  }

  lemma SumDimensions(table: map<string, char>)
    requires table == map["n" := 'N', "n+5" := 'M']
    ensures SetDimensions([Dim("n", None)], table) == [Dim("n", Some("N"))]
    ensures SetDimensions([Dim("n+5", None), Dim("n", None)], table) == [Dim("n+5", Some("M")), Dim("n", Some("N"))]
    ensures Nofitems([Dim("n+5", None), Dim("n", None)]) == "(n+5)*(n)"
  {
    SymbolicNames();
    var ys := [Dim("n+5", None), Dim("n", None)];
    assert DimValues(ys) == ["n+5", "n"];
    assert Join(")*(", ["n+5", "n"]) == "n+5" + ")*(" + "n";
  }

  /** A kernel without arguments returning a value gains one argument, its
      return value, and no symbols. */
  lemma ReturnOnly(k: Kernel)
    requires k.arguments == [] && k.typ != "void"
    ensures FirstFailure(KernelNews(k)).None?
    ensures Expected(k) == KernelInfo([ReturnArgument(k)], "", 0, 0, "")
  {
    assert KernelNews(k) == [];
    var e := Expected(k);
    assert e.arguments == [] + [ReturnArgument(k)];
  }

  /** The return argument of `foo`: output 0, named after the function. */
  lemma FooReturnArgument()
    ensures ReturnArgument(FooKernel())
      == Arg("d_foo_return_value_", {Output}, Some("double"), None, None, None, None, None, None, Some(0), None)
  {
    assert FooKernel().arguments == [];
    assert "d_foo" + ReturnValueSuffix == "d_foo_return_value_";
  }

  /** `foo` gains one argument, its return value, which is output 0. */
  lemma ExampleFoo()
    ensures FirstFailure(KernelNews(FooKernel())).None?
    ensures Expected(FooKernel()) == KernelInfo(
      [Arg("d_foo_return_value_", {Output}, Some("double"), None, None, None, None, None, None, Some(0), None)],
      "", 0, 0, "")
  {
    ReturnOnly(FooKernel());
    FooReturnArgument();
  }
}
