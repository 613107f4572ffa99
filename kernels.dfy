/** `initialize_kernels` (xndtools/kernel_generator/kernel_source_template.py,
    lines 140-205): the pass that numbers a kernel's arguments, names its
    symbolic dimensions, collects the shape constraints of its outputs and
    adds the argument that receives the wrapped function's return value.

    The source mutates the argument dictionaries in place; here the pass
    builds the updated argument records and returns them with the kernel's
    new entries, or the exception the source would raise. */
module Kernels {
  import opened Strings
  import opened Collections
  import opened Intents
  import opened Arguments

  /** The letters handed to symbolic dimensions, in order (line 148). */
  const DimensionSymbols: string := "NMLKPQRSVWXYZBCDFGHJAEIOU"

  /** No letter is handed out twice. */
  lemma DimensionSymbolsDistinct()
    ensures |DimensionSymbols| == 25 && Distinct(DimensionSymbols)
  {
    var front, back := "NMLKPQRSVWXY", "ZBCDFGHJAEIOU";
    FrontLettersDistinct();
    BackLettersDistinct();
    HalvesDisjoint();
    DistinctConcat(front, back);
    assert DimensionSymbols == front + back;
  }

  lemma FrontLettersDistinct()
    ensures Distinct("NMLKPQRSVWXY")
  {
  }

  lemma BackLettersDistinct()
    ensures Distinct("ZBCDFGHJAEIOU")
  {
  }

  lemma HalvesDisjoint()
    ensures forall x :: x in "NMLKPQRSVWXY" ==> x !in "ZBCDFGHJAEIOU"
  {
  }

  /** The entries of a kernel description the pass reads. */
  datatype Kernel = Kernel(
    kernelName: string,
    functionName: string,
    typ: string,
    leftModifier: Option<string>,
    rightModifier: Option<string>,
    arguments: seq<Arg>)

  /** What the pass adds to the kernel: the updated arguments, `symbols`,
      `nin_symbols`, `nout_symbols` and `constraints`. */
  datatype KernelInfo = KernelInfo(
    arguments: seq<Arg>,
    symbols: string,
    ninSymbols: nat,
    noutSymbols: nat,
    constraints: string)

  /** The exceptions the pass can raise: `IndexError` for a 26th distinct
      symbolic dimension, `KeyError` for an output argument without
      `depends` that introduces one. */
  datatype Failure = SymbolOverflow(value: string) | MissingDepends(argName: string, value: string)

  datatype Outcome = Initialized(info: KernelInfo) | Failed(failure: Failure)

  // ----- argument numbering (lines 157-164) -----

  /** The two numberings: `input_index` over the `is_inany` arguments,
      `output_index` over the `is_outany` ones. */
  datatype Direction = In | Out

  predicate Directed(a: Arg, d: Direction)
  {
    if d == In then IsInany(a.intent) else IsOutany(a.intent)
  }

  /** How many of `args` the numbering `d` counts. */
  function Count(args: seq<Arg>, d: Direction): (n: nat)
    ensures n <= |args|
  {
    if |args| == 0 then 0
    else Count(args[..|args| - 1], d) + (if Directed(args[|args| - 1], d) then 1 else 0)
  }

  // ----- symbolic dimensions (lines 165-183) -----

  /** One symbolic (not all-digit) dimension as the loop meets it, with the
      argument it belongs to. */
  datatype Occ = Occ(argName: string, value: string, out: bool, depends: Option<string>)

  /** The symbolic dimensions of a shape, in order. */
  function DimOccs(dims: seq<Dim>, a: Arg): seq<Occ>
  {
    if |dims| == 0 then []
    else
      DimOccs(dims[..|dims| - 1], a)
        + (if IsDigits(dims[|dims| - 1].value) then []
           else [Occ(a.name, dims[|dims| - 1].value, IsOutany(a.intent), a.depends)])
  }

  function ArgOccs(a: Arg): seq<Occ>
  {
    if a.shape.Some? then DimOccs(a.shape.value, a) else []
  }

  /** The symbolic dimensions of all arguments, in the order the loop meets them. */
  function Occurrences(args: seq<Arg>): seq<Occ>
  {
    if |args| == 0 then [] else Occurrences(args[..|args| - 1]) + ArgOccs(args[|args| - 1])
  }

  function Values(os: seq<Occ>): (vs: seq<string>)
    ensures |vs| == |os| && forall i :: 0 <= i < |os| ==> vs[i] == os[i].value
  {
    if |os| == 0 then [] else Values(os[..|os| - 1]) + [os[|os| - 1].value]
  }

  /** The first occurrence of each symbolic name, in first-seen order: the
      insertion order of `dims_map`. */
  function NewOccs(occs: seq<Occ>): seq<Occ>
  {
    if |occs| == 0 then []
    else
      var r := NewOccs(occs[..|occs| - 1]);
      var o := occs[|occs| - 1];
      if o.value in Values(r) then r else r + [o]
  }

  /** No name is new twice. */
  lemma {:induction false} NewOccsDistinct(occs: seq<Occ>)
    ensures Distinct(Values(NewOccs(occs)))
  {
    if |occs| > 0 {
      var init := occs[..|occs| - 1];
      var o := occs[|occs| - 1];
      var r := NewOccs(init);
      NewOccsDistinct(init);
      if o.value !in Values(r) {
        assert (r + [o])[..|r|] == r;
        assert Values(r + [o]) == Values(r) + [o.value];
        DistinctAppend(Values(r), o.value);
      }
    }
  }

  /** `dims_map`: the `i`-th new name gets the `i`-th letter. */
  function LetterTable(news: seq<Occ>): (m: map<string, char>)
    requires |news| <= 25
    ensures forall v :: v in m <==> v in Values(news)
  {
    if |news| == 0 then map[]
    else LetterTable(news[..|news| - 1])[news[|news| - 1].value := DimensionSymbols[|news| - 1]]
  }

  /** `in_symbols`: the letters of the names first met in a non-output argument. */
  function InLetters(news: seq<Occ>): seq<char>
    requires |news| <= 25
  {
    if |news| == 0 then []
    else InLetters(news[..|news| - 1]) + (if news[|news| - 1].out then [] else [DimensionSymbols[|news| - 1]])
  }

  /** `out_symbols`: the letters of the names first met in an output argument. */
  function OutLetters(news: seq<Occ>): seq<char>
    requires |news| <= 25
  {
    if |news| == 0 then []
    else OutLetters(news[..|news| - 1]) + (if news[|news| - 1].out then [DimensionSymbols[|news| - 1]] else [])
  }

  /** `'gmk_shapes[{}] = {};'.format(k, value)`. */
  function ShapeConstraint(k: nat, value: string): string
  {
    "gmk_shapes[" + NatToString(k) + "] = " + value + ";"
  }

  /** `constraints`: for each name first met in an output argument whose
      `depends` string contains it, the constraint on its slot among the
      output symbols. */
  function Constraints(news: seq<Occ>): seq<string>
    requires |news| <= 25
  {
    if |news| == 0 then []
    else
      var init := news[..|news| - 1];
      var o := news[|news| - 1];
      Constraints(init)
        + (if o.out && o.depends.Some? && IsInfix(o.value, o.depends.value)
           then [ShapeConstraint(|OutLetters(init)|, o.value)] else [])
  }

  /** The exception the loop raises, if any: at the first new name that
      finds the alphabet used up or belongs to an output without `depends`. */
  function FirstFailure(news: seq<Occ>): Option<Failure>
  {
    if |news| == 0 then None
    else
      var init := news[..|news| - 1];
      var o := news[|news| - 1];
      if FirstFailure(init).Some? then FirstFailure(init)
      else if |init| >= |DimensionSymbols| then Some(SymbolOverflow(o.value))
      else if o.out && o.depends.None? then Some(MissingDepends(o.argName, o.value))
      else None
  }

  lemma {:induction false} NoFailureFitsAlphabet(news: seq<Occ>)
    requires FirstFailure(news).None?
    ensures |news| <= 25
  {
    if |news| > 0 {
      NoFailureFitsAlphabet(news[..|news| - 1]);
    }
  }

  /** The symbol state of the loop: `dims_map`, `in_symbols`,
      `out_symbols`, `constraints`. */
  datatype Symbols = Symbols(dims: map<string, char>, inSymbols: seq<char>, outSymbols: seq<char>, constraints: seq<string>)

  function SymbolsOf(news: seq<Occ>): Symbols
    requires |news| <= 25
  {
    Symbols(LetterTable(news), InLetters(news), OutLetters(news), Constraints(news))
  }

  /** `dim['dimension']`: the value itself for an all-digit dimension, its
      letter for a symbolic one.  The pass only sets a symbolic dimension
      once its name has a letter (`ArgLettered`); the last case keeps the
      function total and is never reached. */
  function SetDimension(d: Dim, table: map<string, char>): Dim
  {
    Dim(d.value, Some(if IsDigits(d.value) then d.value
                      else if d.value in table then [table[d.value]]
                      else d.value))
  }

  /** `'(' + ')*('.join(values) + ')'`: the number of items of a shape. */
  function Nofitems(dims: seq<Dim>): string
  {
    "(" + Join(")*(", DimValues(dims)) + ")"
  }

  function DimValues(dims: seq<Dim>): seq<string>
  {
    seq(|dims|, i requires 0 <= i < |dims| => dims[i].value)
  }

  function SetDimensions(dims: seq<Dim>, table: map<string, char>): (r: seq<Dim>)
    ensures |r| == |dims|
  {
    seq(|dims|, m requires 0 <= m < |dims| => SetDimension(dims[m], table))
  }

  /** The symbolic dimensions of an argument all have a letter in `table`. */
  predicate Lettered(a: Arg, table: map<string, char>)
  {
    a.shape.Some? ==> forall d :: d in a.shape.value && !IsDigits(d.value) ==> d.value in table
  }

  /** An argument as the first loop leaves it: numbered, its dimensions
      set, its `nofitems` computed. */
  function Numbered(a: Arg, inputIndex: nat, outputIndex: nat, table: map<string, char>): Arg
  {
    a.(inputIndex := if IsInany(a.intent) then Some(inputIndex) else a.inputIndex,
       outputIndex := if IsOutany(a.intent) then Some(outputIndex) else a.outputIndex,
       shape := if a.shape.Some? then Some(SetDimensions(a.shape.value, table)) else None,
       nofitems := if a.shape.Some? then Some(Nofitems(a.shape.value)) else a.nofitems)
  }

  /** The argument that receives the return value of a non-`void` function. */
  function ReturnArgument(k: Kernel): Arg
  {
    Arg(k.functionName + ReturnValueSuffix, {Output}, Some(k.typ), k.leftModifier, k.rightModifier,
        None, None, None, None, Some(Count(k.arguments, In) + Count(k.arguments, Out)), None)
  }

  /** `data['symbols']`: the quoted letters, joined by `", "`. */
  function SymbolList(letters: seq<char>): string
  {
    Join(", ", seq(|letters|, i requires 0 <= i < |letters| => "\"" + [letters[i]] + "\""))
  }

  /** The names the loop meets, first occurrences only. */
  function KernelNews(k: Kernel): seq<Occ>
  {
    NewOccs(Occurrences(k.arguments))
  }

  /** What the pass computes for a kernel it does not reject: the `j`-th
      argument gets the input index counting the `is_inany` arguments
      before it and the output index counting all `is_inany` arguments and
      the `is_outany` ones before it; the return argument comes last. */
  function Expected(k: Kernel): KernelInfo
    requires FirstFailure(KernelNews(k)).None?
  {
    var news := KernelNews(k);
    NoFailureFitsAlphabet(news);
    KernelInfo(
      ExpectedArguments(k),
      SymbolList(InLetters(news) + OutLetters(news)),
      |InLetters(news)|,
      |OutLetters(news)|,
      Join("\n  ", Constraints(news)))
  }

  /** The updated arguments, the return argument last. */
  function ExpectedArguments(k: Kernel): seq<Arg>
    requires FirstFailure(KernelNews(k)).None?
  {
    var news := KernelNews(k);
    NoFailureFitsAlphabet(news);
    InitializedArguments(k.arguments, LetterTable(news)) + (if k.typ != "void" then [ReturnArgument(k)] else [])
  }

  function InitializedArguments(args: seq<Arg>, table: map<string, char>): (r: seq<Arg>)
    ensures |r| == |args|
  {
    InitializedPrefix(args, |args|, table)
  }

  /** The first `n` arguments as the pass leaves them. */
  function InitializedPrefix(args: seq<Arg>, n: nat, table: map<string, char>): (r: seq<Arg>)
    requires n <= |args|
    ensures |r| == n
  {
    if n == 0 then [] else InitializedPrefix(args, n - 1, table) + [ArgumentAt(args, n - 1, table)]
  }

  /** The `j`-th argument as the pass leaves it. */
  function ArgumentAt(args: seq<Arg>, j: nat, table: map<string, char>): Arg
    requires j < |args|
  {
    Numbered(args[j], Count(args[..j], In), Count(args, In) + Count(args[..j], Out), table)
  }

  // ----- how the loop state grows -----

  lemma {:induction false} NewOccsAppend(occs: seq<Occ>, o: Occ)
    ensures NewOccs(occs + [o]) ==
      if o.value in Values(NewOccs(occs)) then NewOccs(occs) else NewOccs(occs) + [o]
  {
    assert (occs + [o])[..|occs|] == occs;
  }

  lemma {:induction false} NewsAppend(news: seq<Occ>, o: Occ)
    requires |news| < 25
    ensures LetterTable(news + [o]) == LetterTable(news)[o.value := DimensionSymbols[|news|]]
    ensures InLetters(news + [o]) == InLetters(news) + (if o.out then [] else [DimensionSymbols[|news|]])
    ensures OutLetters(news + [o]) == OutLetters(news) + (if o.out then [DimensionSymbols[|news|]] else [])
    ensures Constraints(news + [o]) == Constraints(news)
      + (if o.out && o.depends.Some? && IsInfix(o.value, o.depends.value)
         then [ShapeConstraint(|OutLetters(news)|, o.value)] else [])
    ensures FirstFailure(news + [o]) ==
      if FirstFailure(news).Some? then FirstFailure(news)
      else if o.out && o.depends.None? then Some(MissingDepends(o.argName, o.value))
      else None
  {
    assert (news + [o])[..|news|] == news;
  }

  lemma {:induction false} NewsOverflow(news: seq<Occ>, o: Occ)
    requires |news| == 25 && FirstFailure(news).None?
    ensures FirstFailure(news + [o]) == Some(SymbolOverflow(o.value))
  {
    assert (news + [o])[..|news|] == news;
  }

  lemma {:induction false} LetterTableCard(news: seq<Occ>)
    requires |news| <= 25 && Distinct(Values(news))
    ensures |LetterTable(news)| == |news|
  {
    if |news| > 0 {
      var init := news[..|news| - 1];
      assert forall i :: 0 <= i < |init| ==> Values(init)[i] == Values(news)[i];
      LetterTableCard(init);
      forall i | 0 <= i < |init| ensures Values(init)[i] != news[|news| - 1].value {
        assert Values(news)[i] != Values(news)[|news| - 1];
      }
    }
  }

  lemma {:induction false} DimOccsStep(dims: seq<Dim>, a: Arg, j: nat)
    requires j < |dims|
    ensures DimOccs(dims[..j + 1], a) == DimOccs(dims[..j], a)
      + (if IsDigits(dims[j].value) then [] else [Occ(a.name, dims[j].value, IsOutany(a.intent), a.depends)])
  {
    assert dims[..j + 1][..j] == dims[..j];
  }

  lemma {:induction false} OccurrencesStep(args: seq<Arg>, i: nat)
    requires i < |args|
    ensures Occurrences(args[..i + 1]) == Occurrences(args[..i]) + ArgOccs(args[i])
  {
    assert args[..i + 1][..i] == args[..i];
  }

  lemma {:induction false} CountStep(args: seq<Arg>, i: nat, d: Direction)
    requires i < |args|
    ensures Count(args[..i + 1], d) == Count(args[..i], d) + (if Directed(args[i], d) then 1 else 0)
  {
    assert args[..i + 1][..i] == args[..i];
  }

  lemma {:induction false} OccurrencesPrefix(args: seq<Arg>, n: nat)
    requires n <= |args|
    ensures Occurrences(args[..n]) <= Occurrences(args)
    decreases |args|
  {
    if n < |args| {
      var init := args[..|args| - 1];
      OccurrencesPrefix(init, n);
      assert init[..n] == args[..n];
    } else {
      assert args[..n] == args;
    }
  }

  lemma {:induction false} NewOccsPrefix(x: seq<Occ>, y: seq<Occ>)
    requires x <= y
    ensures NewOccs(x) <= NewOccs(y)
    decreases |y|
  {
    if |x| < |y| {
      NewOccsPrefix(x, y[..|y| - 1]);
    } else {
      assert x == y;
    }
  }

  lemma {:induction false} FailurePersists(p: seq<Occ>, q: seq<Occ>)
    requires p <= q && FirstFailure(p).Some?
    ensures FirstFailure(q) == FirstFailure(p)
    decreases |q|
  {
    if |p| < |q| {
      FailurePersists(p, q[..|q| - 1]);
    } else {
      assert p == q;
    }
  }

  /** A failure met on a prefix of the arguments is the pass's failure. */
  lemma {:induction false} FailureOfPrefix(args: seq<Arg>, n: nat)
    requires n <= |args| && FirstFailure(NewOccs(Occurrences(args[..n]))).Some?
    ensures FirstFailure(NewOccs(Occurrences(args))) == FirstFailure(NewOccs(Occurrences(args[..n])))
  {
    OccurrencesPrefix(args, n);
    NewOccsPrefix(Occurrences(args[..n]), Occurrences(args));
    FailurePersists(NewOccs(Occurrences(args[..n])), NewOccs(Occurrences(args)));
  }

  /** Every name that occurs is among the first occurrences. */
  lemma {:induction false} OccurrenceIsNamed(occs: seq<Occ>, i: nat)
    requires i < |occs|
    ensures occs[i].value in Values(NewOccs(occs))
  {
    var init := occs[..|occs| - 1];
    if i < |occs| - 1 {
      OccurrenceIsNamed(init, i);
      assert init[i] == occs[i];
      var r := NewOccs(init);
      var k :| 0 <= k < |r| && Values(r)[k] == occs[i].value;
      assert Values(NewOccs(occs))[k] == occs[i].value;
    } else if occs[i].value !in Values(NewOccs(init)) {
      assert Values(NewOccs(occs))[|NewOccs(init)|] == occs[i].value;
    }
  }

  lemma {:induction false} DimOccsCover(dims: seq<Dim>, a: Arg, m: nat)
    requires m < |dims| && !IsDigits(dims[m].value)
    ensures Occ(a.name, dims[m].value, IsOutany(a.intent), a.depends) in DimOccs(dims, a)
  {
    if m < |dims| - 1 {
      DimOccsCover(dims[..|dims| - 1], a, m);
    }
  }

  lemma {:induction false} OccurrencesCover(args: seq<Arg>, j: nat, o: Occ)
    requires j < |args| && o in ArgOccs(args[j])
    ensures o in Occurrences(args)
  {
    if j < |args| - 1 {
      OccurrencesCover(args[..|args| - 1], j, o);
    }
  }

  /** Every symbolic dimension of every argument gets a letter. */
  lemma {:induction false} ArgLettered(args: seq<Arg>, j: nat, table: map<string, char>)
    requires j < |args|
    requires forall v :: v in table <==> v in Values(NewOccs(Occurrences(args)))
    ensures Lettered(args[j], table)
  {
    if args[j].shape.Some? {
      var dims := args[j].shape.value;
      forall m | 0 <= m < |dims| && !IsDigits(dims[m].value) ensures dims[m].value in table {
        var o := Occ(args[j].name, dims[m].value, IsOutany(args[j].intent), args[j].depends);
        DimOccsCover(dims, args[j], m);
        OccurrencesCover(args, j, o);
        var p :| 0 <= p < |Occurrences(args)| && Occurrences(args)[p] == o;
        OccurrenceIsNamed(Occurrences(args), p);
      }
    }
  }

  lemma {:induction false} AllLettered(args: seq<Arg>, table: map<string, char>)
    requires forall v :: v in table <==> v in Values(NewOccs(Occurrences(args)))
    ensures forall j :: 0 <= j < |args| ==> Lettered(args[j], table)
  {
    forall j | 0 <= j < |args| ensures Lettered(args[j], table) {
      ArgLettered(args, j, table);
    }
  }

  // ----- the pass -----

  /** The outcome of the inner loop over one shape. */
  datatype ShapeOutcome = Assigned(shape: seq<Dim>, syms: Symbols) | ShapeFailed(failure: Failure)

  /** The occurrences after meeting dimension `d` of argument `a`. */
  function Meet(occs: seq<Occ>, d: Dim, a: Arg): seq<Occ>
  {
    occs + (if IsDigits(d.value) then [] else [Occ(a.name, d.value, IsOutany(a.intent), a.depends)])
  }

  /** `syms` is the symbol state after meeting `occs` without an exception. */
  predicate Tracks(syms: Symbols, occs: seq<Occ>)
  {
    FirstFailure(NewOccs(occs)).None? && |NewOccs(occs)| <= 25 && syms == SymbolsOf(NewOccs(occs))
  }

  /** `dims` keeps every letter of `dims0`. */
  predicate Extends(dims: map<string, char>, dims0: map<string, char>)
  {
    forall v :: v in dims0 ==> v in dims && dims[v] == dims0[v]
  }

  datatype StepOutcome = Stepped(dim: Dim, syms: Symbols) | StepFailed(failure: Failure)

  /** One pass of the inner loop (lines 168-181): an all-digit dimension is
      its own `dimension`; a symbolic one takes the letter of its name, and a
      new name takes the next letter and joins the input or the output
      symbols, with a constraint when its output argument `depends` on it. */
  method AssignDimension(a: Arg, d: Dim, syms0: Symbols, ghost occs: seq<Occ>) returns (r: StepOutcome)
    requires Tracks(syms0, occs)
    ensures r.StepFailed? <==> FirstFailure(NewOccs(Meet(occs, d, a))).Some?
    ensures r.StepFailed? ==> Some(r.failure) == FirstFailure(NewOccs(Meet(occs, d, a)))
    ensures r.Stepped? ==> Tracks(r.syms, Meet(occs, d, a)) && Extends(r.syms.dims, syms0.dims)
    ensures r.Stepped? ==> (!IsDigits(d.value) ==> d.value in r.syms.dims) && r.dim == SetDimension(d, r.syms.dims)
  {
    if IsDigits(d.value) {
      assert Meet(occs, d, a) == occs;
      return Stepped(Dim(d.value, Some(d.value)), syms0);
    }
    ghost var news := NewOccs(occs);
    var o := Occ(a.name, d.value, IsOutany(a.intent), a.depends);
    assert Meet(occs, d, a) == occs + [o];
    NewOccsAppend(occs, o);
    if d.value in syms0.dims {
      return Stepped(Dim(d.value, Some([syms0.dims[d.value]])), syms0);
    }
    r := AddSymbol(a, d, syms0, occs);
  }

  /** A symbolic name met for the first time (lines 172-173): it takes the
      next letter, or raises `IndexError` once all 25 are taken. */
  method AddSymbol(a: Arg, d: Dim, syms0: Symbols, ghost occs: seq<Occ>) returns (r: StepOutcome)
    requires Tracks(syms0, occs) && !IsDigits(d.value) && d.value !in syms0.dims
    ensures r.StepFailed? <==> FirstFailure(NewOccs(Meet(occs, d, a))).Some?
    ensures r.StepFailed? ==> Some(r.failure) == FirstFailure(NewOccs(Meet(occs, d, a)))
    ensures r.Stepped? ==> Tracks(r.syms, Meet(occs, d, a)) && Extends(r.syms.dims, syms0.dims)
    ensures r.Stepped? ==> d.value in r.syms.dims && r.dim == SetDimension(d, r.syms.dims)
  {
    ghost var news := NewOccs(occs);
    var o := Occ(a.name, d.value, IsOutany(a.intent), a.depends);
    assert Meet(occs, d, a) == occs + [o];
    NewOccsAppend(occs, o);
    NewOccsDistinct(occs);
    LetterTableCard(news);
    if |syms0.dims| >= |DimensionSymbols| {
      NewsOverflow(news, o);
      return StepFailed(SymbolOverflow(d.value));
    }
    assert o.value !in Values(news);
    assert NewOccs(Meet(occs, d, a)) == news + [o];
    var letter := DimensionSymbols[|syms0.dims|];
    var filed := FileSymbol(o, letter, syms0, news);
    if filed.None? {
      return StepFailed(MissingDepends(a.name, d.value));
    }
    NewsAppend(news, o);
    assert filed.value.dims == syms0.dims[d.value := letter];
    r := Stepped(Dim(d.value, Some([letter])), filed.value);
  }

  /** Files a new name among the output symbols, with its constraint when
      the argument `depends` on it, or among the input symbols (lines
      174-179); `None` is the `KeyError` of an output without `depends`. */
  method FileSymbol(o: Occ, letter: char, syms0: Symbols, ghost news: seq<Occ>) returns (r: Option<Symbols>)
    requires |news| < 25 && Distinct(Values(news)) && FirstFailure(news).None?
    requires syms0 == SymbolsOf(news) && o.value !in Values(news) && letter == DimensionSymbols[|news|]
    ensures r.None? <==> FirstFailure(news + [o]).Some?
    ensures r.None? ==> FirstFailure(news + [o]) == Some(MissingDepends(o.argName, o.value))
    ensures r.Some? ==> r.value == SymbolsOf(news + [o])
  {
    NewsAppend(news, o);
    var dims := syms0.dims[o.value := letter];
    if o.out {
      if o.depends.None? {
        return None;
      }
      var constraints := syms0.constraints;
      if IsInfix(o.value, o.depends.value) {
        constraints := constraints + [ShapeConstraint(|syms0.outSymbols|, o.value)];
      }
      r := Some(Symbols(dims, syms0.inSymbols, syms0.outSymbols + [letter], constraints));
    } else {
      r := Some(Symbols(dims, syms0.inSymbols + [letter], syms0.outSymbols, syms0.constraints));
    }
  }

  /** The inner loop (lines 167-181) over one shape. */
  method AssignDimensions(a: Arg, shape: seq<Dim>, syms0: Symbols, ghost occs0: seq<Occ>) returns (r: ShapeOutcome)
    requires Tracks(syms0, occs0)
    ensures r.ShapeFailed? <==> FirstFailure(NewOccs(occs0 + DimOccs(shape, a))).Some?
    ensures r.ShapeFailed? ==> Some(r.failure) == FirstFailure(NewOccs(occs0 + DimOccs(shape, a)))
    ensures r.Assigned? ==> Tracks(r.syms, occs0 + DimOccs(shape, a)) && Extends(r.syms.dims, syms0.dims)
    ensures r.Assigned? ==> forall d :: d in shape && !IsDigits(d.value) ==> d.value in r.syms.dims
    ensures r.Assigned? ==> r.shape == SetDimensions(shape, r.syms.dims)
  {
    var syms := syms0;
    var newShape: seq<Dim> := [];
    assert shape[..0] == [] && occs0 + DimOccs(shape[..0], a) == occs0;
    var j := 0;
    while j < |shape|
      invariant 0 <= j <= |shape|
      invariant Tracks(syms, occs0 + DimOccs(shape[..j], a)) && Extends(syms.dims, syms0.dims)
      invariant ShapeSet(shape, j, newShape, syms.dims)
    {
      ghost var occs := occs0 + DimOccs(shape[..j], a);
      DimOccsMeet(occs0, shape, a, j);
      var s := AssignDimension(a, shape[j], syms, occs);
      if s.StepFailed? {
        ShapeFailure(occs0, shape, a, j + 1);
        return ShapeFailed(s.failure);
      }
      ShapeGrows(shape, j, newShape, syms.dims, s.dim, s.syms.dims);
      ExtendsTransitive(s.syms.dims, syms.dims, syms0.dims);
      syms := s.syms;
      newShape := newShape + [s.dim];
      j := j + 1;
    }
    assert shape[..j] == shape;
    ShapeComplete(shape, newShape, syms.dims);
    return Assigned(newShape, syms);
  }

  lemma ShapeComplete(shape: seq<Dim>, newShape: seq<Dim>, dims: map<string, char>)
    requires ShapeSet(shape, |shape|, newShape, dims)
    ensures forall d :: d in shape && !IsDigits(d.value) ==> d.value in dims
    ensures newShape == SetDimensions(shape, dims)
  {
    forall d | d in shape && !IsDigits(d.value) ensures d.value in dims {
      var m :| 0 <= m < |shape| && shape[m] == d;
    }
    var full := SetDimensions(shape, dims);
    forall m | 0 <= m < |shape| ensures newShape[m] == full[m] {
    }
  }

  lemma {:induction false} DimOccsMeet(occs0: seq<Occ>, shape: seq<Dim>, a: Arg, j: nat)
    requires j < |shape|
    ensures occs0 + DimOccs(shape[..j + 1], a) == Meet(occs0 + DimOccs(shape[..j], a), shape[j], a)
  {
    DimOccsStep(shape, a, j);
  }

  lemma ExtendsTransitive(d2: map<string, char>, d1: map<string, char>, d0: map<string, char>)
    requires Extends(d2, d1) && Extends(d1, d0)
    ensures Extends(d2, d0)
  {
  }

  /** A failure met within a shape is the failure of the whole shape. */
  lemma {:induction false} ShapeFailure(occs0: seq<Occ>, shape: seq<Dim>, a: Arg, n: nat)
    requires n <= |shape| && FirstFailure(NewOccs(occs0 + DimOccs(shape[..n], a))).Some?
    ensures FirstFailure(NewOccs(occs0 + DimOccs(shape, a))) == FirstFailure(NewOccs(occs0 + DimOccs(shape[..n], a)))
  {
    PrefixDimOccs(shape, a, n);
    var p := occs0 + DimOccs(shape[..n], a);
    var q := occs0 + DimOccs(shape, a);
    assert p <= q;
    NewOccsPrefix(p, q);
    FailurePersists(NewOccs(p), NewOccs(q));
  }

  /** The first `j` entries of `shape` have their letters in `dims` and
      `newShape` holds them with their `dimension` set. */
  predicate ShapeSet(shape: seq<Dim>, j: nat, newShape: seq<Dim>, dims: map<string, char>)
  {
    j <= |shape| && |newShape| == j
    && (forall m :: 0 <= m < j && !IsDigits(shape[m].value) ==> shape[m].value in dims)
    && (forall m :: 0 <= m < j ==> newShape[m] == SetDimension(shape[m], dims))
  }

  lemma {:induction false} ShapeGrows(shape: seq<Dim>, j: nat, newShape: seq<Dim>, dims: map<string, char>, dim: Dim, dims1: map<string, char>)
    requires j < |shape| && ShapeSet(shape, j, newShape, dims) && Extends(dims1, dims)
    requires !IsDigits(shape[j].value) ==> shape[j].value in dims1
    requires dim == SetDimension(shape[j], dims1)
    ensures ShapeSet(shape, j + 1, newShape + [dim], dims1)
  {
    forall m | 0 <= m < j
      ensures (!IsDigits(shape[m].value) ==> shape[m].value in dims1)
      ensures newShape[m] == SetDimension(shape[m], dims1)
    {
      if !IsDigits(shape[m].value) {
        assert shape[m].value in dims;
      }
    }
  }

  lemma {:induction false} PrefixDimOccs(dims: seq<Dim>, a: Arg, n: nat)
    requires n <= |dims|
    ensures DimOccs(dims[..n], a) <= DimOccs(dims, a)
    decreases |dims|
  {
    if n < |dims| {
      PrefixDimOccs(dims[..|dims| - 1], a, n);
      assert dims[..|dims| - 1][..n] == dims[..n];
    } else {
      assert dims[..n] == dims;
    }
  }

  // ----- the outer loop and the output-index shift -----

  /** `output_args` as positions in the argument list: those of the
      arguments numbering `d` counts. */
  function Positions(args: seq<Arg>, d: Direction): seq<nat>
  {
    if |args| == 0 then []
    else Positions(args[..|args| - 1], d) + (if Directed(args[|args| - 1], d) then [|args| - 1] else [])
  }

  /** The positions are those of the counted arguments, each once. */
  lemma {:induction false} PositionsExact(args: seq<Arg>, d: Direction)
    ensures forall p :: p in Positions(args, d) <==> 0 <= p < |args| && Directed(args[p], d)
    ensures Distinct(Positions(args, d))
  {
    if |args| > 0 {
      var n := |args| - 1;
      var init := args[..n];
      PositionsExact(init, d);
      var ps := Positions(init, d);
      if Directed(args[n], d) {
        DistinctAppend(ps, n);
      }
      forall p | p in Positions(args, d) ensures 0 <= p < |args| && Directed(args[p], d) {
        if p in ps {
          assert init[p] == args[p];
        }
      }
      forall p | 0 <= p < |args| && Directed(args[p], d) ensures p in Positions(args, d) {
        if p < n {
          assert init[p] == args[p];
        }
      }
    }
  }

  lemma {:induction false} PositionsStep(args: seq<Arg>, i: nat, d: Direction)
    requires i < |args|
    ensures Positions(args[..i + 1], d) == Positions(args[..i], d) + (if Directed(args[i], d) then [i] else [])
  {
    assert args[..i + 1][..i] == args[..i];
  }

  /** The first `i` arguments have their letters in `dims`, and `newArgs`
      holds them as the first loop leaves them. */
  predicate ArgsSet(args: seq<Arg>, i: nat, newArgs: seq<Arg>, dims: map<string, char>)
  {
    i <= |args| && |newArgs| == i
    && (forall j :: 0 <= j < i ==> ArgSetAt(args, newArgs, dims, j))
    && (forall j :: 0 <= j < i && IsOutany(args[j].intent) ==> newArgs[j].outputIndex.Some?)
  }

  /** `args[j]` has its letters in `dims` and `newArgs[j]` is it as the
      first loop leaves it. */
  predicate ArgSetAt(args: seq<Arg>, newArgs: seq<Arg>, dims: map<string, char>, j: nat)
    requires j < |args| && j < |newArgs|
  {
    Lettered(args[j], dims)
    && newArgs[j] == Numbered(args[j], Count(args[..j], In), Count(args[..j], Out), dims)
  }

  lemma {:induction false} SetDimensionsStable(dims: seq<Dim>, t0: map<string, char>, t1: map<string, char>)
    requires forall d :: d in dims && !IsDigits(d.value) ==> d.value in t0
    requires Extends(t1, t0)
    ensures SetDimensions(dims, t0) == SetDimensions(dims, t1)
  {
    forall m | 0 <= m < |dims| ensures SetDimensions(dims, t0)[m] == SetDimensions(dims, t1)[m] {
      if !IsDigits(dims[m].value) {
        assert dims[m] in dims;
      }
    }
  }

  lemma {:induction false} ArgsGrow(args: seq<Arg>, i: nat, newArgs: seq<Arg>, dims: map<string, char>, b: Arg, dims1: map<string, char>)
    requires i < |args| && ArgsSet(args, i, newArgs, dims) && Extends(dims1, dims)
    requires Lettered(args[i], dims1)
    requires b == Numbered(args[i], Count(args[..i], In), Count(args[..i], Out), dims1)
    ensures ArgsSet(args, i + 1, newArgs + [b], dims1)
  {
    var next := newArgs + [b];
    forall j | 0 <= j < i + 1 ensures ArgSetAt(args, next, dims1, j) {
      if j < i {
        assert ArgSetAt(args, newArgs, dims, j);
        ArgSetExtends(args[j], dims, dims1);
      }
    }
    forall j | 0 <= j < i + 1 && IsOutany(args[j].intent) ensures next[j].outputIndex.Some? {
      if j < i {
        assert next[j] == newArgs[j];
      }
    }
  }

  /** A larger table leaves a lettered argument as it was. */
  lemma ArgSetExtends(a: Arg, dims: map<string, char>, dims1: map<string, char>)
    requires Lettered(a, dims) && Extends(dims1, dims)
    ensures Lettered(a, dims1)
    ensures forall i, o :: Numbered(a, i, o, dims) == Numbered(a, i, o, dims1)
  {
    if a.shape.Some? {
      SetDimensionsStable(a.shape.value, dims, dims1);
    }
  }

  /** `arg['output_index'] += input_index`. */
  function Shifted(a: Arg, n: nat): Arg
    requires a.outputIndex.Some?
  {
    a.(outputIndex := Some(a.outputIndex.value + n))
  }

  datatype ArgOutcome = ArgDone(arg: Arg, syms: Symbols) | ArgFailed(failure: Failure)

  /** One pass of the outer loop over `args[i]` (lines 157-182). */
  method NumberArgument(args: seq<Arg>, i: nat, inputIndex: nat, outputIndex: nat, syms0: Symbols)
    returns (r: ArgOutcome)
    requires i < |args| && inputIndex == Count(args[..i], In) && outputIndex == Count(args[..i], Out)
    requires Tracks(syms0, Occurrences(args[..i]))
    ensures r.ArgFailed? <==> FirstFailure(NewOccs(Occurrences(args[..i + 1]))).Some?
    ensures r.ArgFailed? ==> Some(r.failure) == FirstFailure(NewOccs(Occurrences(args[..i + 1])))
    ensures r.ArgDone? ==> Tracks(r.syms, Occurrences(args[..i + 1])) && Extends(r.syms.dims, syms0.dims)
    ensures r.ArgDone? ==> Lettered(args[i], r.syms.dims)
    ensures r.ArgDone? ==> r.arg == Numbered(args[i], inputIndex, outputIndex, r.syms.dims)
  {
    var a := args[i];
    OccurrencesStep(args, i);
    var b := a;
    if IsInany(a.intent) {
      b := b.(inputIndex := Some(inputIndex));
    }
    if IsOutany(a.intent) {
      b := b.(outputIndex := Some(outputIndex));
    }
    var syms := syms0;
    if a.shape.Some? {
      var s := AssignDimensions(a, a.shape.value, syms0, Occurrences(args[..i]));
      if s.ShapeFailed? {
        return ArgFailed(s.failure);
      }
      syms := s.syms;
      b := b.(shape := Some(s.shape), nofitems := Some(Nofitems(a.shape.value)));
    } else {
      assert Occurrences(args[..i + 1]) == Occurrences(args[..i]);
    }
    r := ArgDone(b, syms);
  }

  /** `initialize_kernels` for one kernel (lines 140-198): the exception it
      raises, or the updated arguments and the symbol entries it sets. */
  method InitializeKernel(k: Kernel) returns (r: Outcome)
    ensures r.Failed? <==> FirstFailure(KernelNews(k)).Some?
    ensures r.Failed? ==> Some(r.failure) == FirstFailure(KernelNews(k))
    ensures r.Initialized? ==> FirstFailure(KernelNews(k)).None? && r.info == Expected(k)
  {
    var args := k.arguments;
    var inputIndex := 0;
    var outputIndex := 0;
    var outputArgs: seq<nat> := [];
    var newArgs: seq<Arg> := [];
    var syms := Symbols(map[], [], [], []);
    assert args[..0] == [];
    var i := 0;
    while i < |args|
      invariant 0 <= i <= |args|
      invariant inputIndex == Count(args[..i], In) && outputIndex == Count(args[..i], Out)
      invariant outputArgs == Positions(args[..i], Out)
      invariant Tracks(syms, Occurrences(args[..i]))
      invariant ArgsSet(args, i, newArgs, syms.dims)
    {
      var s := NumberArgument(args, i, inputIndex, outputIndex, syms);
      if s.ArgFailed? {
        FailureOfPrefix(args, i + 1);
        return Failed(s.failure);
      }
      ArgsGrow(args, i, newArgs, syms.dims, s.arg, s.syms.dims);
      CountStep(args, i, In);
      CountStep(args, i, Out);
      PositionsStep(args, i, Out);
      if IsInany(args[i].intent) {
        inputIndex := inputIndex + 1;
      }
      if IsOutany(args[i].intent) {
        outputArgs := outputArgs + [i];
        outputIndex := outputIndex + 1;
      }
      newArgs := newArgs + [s.arg];
      syms := s.syms;
      i := i + 1;
    }
    assert args[..i] == args;
    var info := Finish(k, newArgs, syms, inputIndex, outputIndex, outputArgs);
    r := Initialized(info);
  }

  /** The rest of the pass (lines 182-199): the symbol entries, the return
      argument, and the shift of every output index by the number of
      inputs. */
  method Finish(k: Kernel, numbered: seq<Arg>, syms: Symbols, inputIndex: nat, outputIndex: nat, outputArgs: seq<nat>)
    returns (info: KernelInfo)
    requires Tracks(syms, Occurrences(k.arguments))
    requires ArgsSet(k.arguments, |k.arguments|, numbered, syms.dims)
    requires inputIndex == Count(k.arguments, In) && outputIndex == Count(k.arguments, Out)
    requires outputArgs == Positions(k.arguments, Out)
    ensures FirstFailure(KernelNews(k)).None? && info == Expected(k)
  {
    var symbols := SymbolList(syms.inSymbols + syms.outSymbols);
    var constraints := Join("\n  ", syms.constraints);
    var newArgs := numbered;
    var positions := outputArgs;
    if k.typ != "void" {
      var ret := Arg(k.functionName + ReturnValueSuffix, {Output}, Some(k.typ), k.leftModifier, k.rightModifier,
                     None, None, None, None, Some(outputIndex), None);
      newArgs := newArgs + [ret];
      positions := positions + [|k.arguments|];
    }
    OutputsNumbered(k, numbered, syms.dims, newArgs, positions);
    var shifted := ShiftOutputs(newArgs, positions, inputIndex);
    ShiftedOutputs(k, numbered, syms.dims, newArgs, positions, shifted);
    ExpectedOfLoop(k, numbered, shifted, syms);
    info := KernelInfo(shifted, symbols, |syms.inSymbols|, |syms.outSymbols|, constraints);
  }

  /** The arguments and the `output_args` positions before the shift. */
  predicate BeforeShift(k: Kernel, numbered: seq<Arg>, newArgs: seq<Arg>, positions: seq<nat>)
  {
    var args := k.arguments;
    |numbered| == |args|
    && newArgs == numbered + (if k.typ != "void" then [ReturnArgument(k).(outputIndex := Some(Count(args, Out)))] else [])
    && positions == Positions(args, Out) + (if k.typ != "void" then [|args|] else [])
  }

  lemma {:induction false} OutputsNumbered(k: Kernel, numbered: seq<Arg>, table: map<string, char>,
                                           newArgs: seq<Arg>, positions: seq<nat>)
    requires ArgsSet(k.arguments, |k.arguments|, numbered, table)
    requires BeforeShift(k, numbered, newArgs, positions)
    ensures Distinct(positions)
    ensures forall p :: p in positions ==> p < |newArgs| && newArgs[p].outputIndex.Some?
  {
    var args := k.arguments;
    var ps := Positions(args, Out);
    PositionsExact(args, Out);
    forall p | p in ps ensures p < |numbered| && numbered[p].outputIndex.Some? {
      assert ArgSetAt(args, numbered, table, p);
    }
    if k.typ != "void" {
      assert forall q :: 0 <= q < |ps| ==> ps[q] in ps;
    }
  }

  lemma {:induction false} ShiftedOutputs(k: Kernel, numbered: seq<Arg>, table: map<string, char>,
                                          newArgs: seq<Arg>, positions: seq<nat>, shifted: seq<Arg>)
    requires ArgsSet(k.arguments, |k.arguments|, numbered, table)
    requires BeforeShift(k, numbered, newArgs, positions)
    requires forall p :: p in positions ==> p < |newArgs| && newArgs[p].outputIndex.Some?
    requires |shifted| == |newArgs|
    requires forall j :: 0 <= j < |newArgs| ==>
      shifted[j] == if j in positions then Shifted(newArgs[j], Count(k.arguments, In)) else newArgs[j]
    ensures |shifted| == |k.arguments| + (if k.typ != "void" then 1 else 0)
    ensures forall j :: 0 <= j < |k.arguments| ==>
      shifted[j] == if IsOutany(k.arguments[j].intent) then Shifted(numbered[j], Count(k.arguments, In)) else numbered[j]
    ensures k.typ != "void" ==> shifted[|k.arguments|] == ReturnArgument(k)
  {
    var args := k.arguments;
    PositionsExact(args, Out);
    forall j | 0 <= j < |args|
      ensures shifted[j] == if IsOutany(args[j].intent) then Shifted(numbered[j], Count(args, In)) else numbered[j]
    {
      assert j in positions <==> IsOutany(args[j].intent);
      assert newArgs[j] == numbered[j];
    }
    if k.typ != "void" {
      assert |args| in positions;
    }
  }

  /** The loop over `output_args` (lines 198-199): adds `n` to the output
      index of each argument it lists. */
  method ShiftOutputs(args0: seq<Arg>, positions: seq<nat>, n: nat) returns (args: seq<Arg>)
    requires Distinct(positions)
    requires forall p :: p in positions ==> p < |args0| && args0[p].outputIndex.Some?
    ensures |args| == |args0|
    ensures forall j :: 0 <= j < |args0| ==> args[j] == if j in positions then Shifted(args0[j], n) else args0[j]
  {
    args := args0;
    var m := 0;
    while m < |positions|
      invariant 0 <= m <= |positions| && |args| == |args0|
      invariant forall j :: 0 <= j < |args0| ==>
        args[j] == if j in positions[..m] then Shifted(args0[j], n) else args0[j]
    {
      var p := positions[m];
      assert p !in positions[..m];
      assert positions[..m + 1] == positions[..m] + [p];
      args := args[p := args[p].(outputIndex := Some(args[p].outputIndex.value + n))];
      m := m + 1;
    }
    assert positions[..m] == positions;
  }

  /** What the loops leave is what `Expected` describes. */
  lemma {:induction false} ExpectedOfLoop(k: Kernel, numbered: seq<Arg>, final: seq<Arg>, syms: Symbols)
    requires Tracks(syms, Occurrences(k.arguments))
    requires ArgsSet(k.arguments, |k.arguments|, numbered, syms.dims)
    requires |final| == |k.arguments| + (if k.typ != "void" then 1 else 0)
    requires forall j :: 0 <= j < |k.arguments| ==>
      final[j] == if IsOutany(k.arguments[j].intent) then Shifted(numbered[j], Count(k.arguments, In)) else numbered[j]
    requires k.typ != "void" ==> final[|k.arguments|] == ReturnArgument(k)
    ensures FirstFailure(KernelNews(k)).None?
    ensures KernelInfo(final, SymbolList(syms.inSymbols + syms.outSymbols), |syms.inSymbols|, |syms.outSymbols|,
                       Join("\n  ", syms.constraints)) == Expected(k)
  {
    FinalArguments(k, numbered, final, syms.dims);
    InfoOfSymbols(k, final, syms);
  }

  /** The arguments the loops leave are `ExpectedArguments`. */
  lemma FinalArguments(k: Kernel, numbered: seq<Arg>, final: seq<Arg>, table: map<string, char>)
    requires FirstFailure(KernelNews(k)).None? && table == LetterTable(KernelNews(k))
    requires ArgsSet(k.arguments, |k.arguments|, numbered, table)
    requires |final| == |k.arguments| + (if k.typ != "void" then 1 else 0)
    requires forall j :: 0 <= j < |k.arguments| ==>
      final[j] == if IsOutany(k.arguments[j].intent) then Shifted(numbered[j], Count(k.arguments, In)) else numbered[j]
    requires k.typ != "void" ==> final[|k.arguments|] == ReturnArgument(k)
    ensures final == ExpectedArguments(k)
  {
    var args := k.arguments;
    ShiftedArguments(args, numbered, final[..|args|], table);
    var tail := if k.typ != "void" then [ReturnArgument(k)] else [];
    assert ExpectedArguments(k) == InitializedArguments(args, table) + tail;
    assert final == final[..|args|] + tail;
  }

  /** The counts, symbol list and constraints come from the loop's symbols. */
  lemma InfoOfSymbols(k: Kernel, final: seq<Arg>, syms: Symbols)
    requires Tracks(syms, Occurrences(k.arguments)) && final == ExpectedArguments(k)
    ensures FirstFailure(KernelNews(k)).None?
    ensures KernelInfo(final, SymbolList(syms.inSymbols + syms.outSymbols), |syms.inSymbols|, |syms.outSymbols|,
                       Join("\n  ", syms.constraints)) == Expected(k)
  {
  }

  lemma {:induction false} ShiftedArguments(args: seq<Arg>, numbered: seq<Arg>, final: seq<Arg>, table: map<string, char>)
    requires ArgsSet(args, |args|, numbered, table) && |final| == |args|
    requires forall j :: 0 <= j < |args| ==>
      final[j] == if IsOutany(args[j].intent) then Shifted(numbered[j], Count(args, In)) else numbered[j]
    ensures final == InitializedArguments(args, table)
  {
    var e := InitializedArguments(args, table);
    forall j | 0 <= j < |args| ensures final[j] == e[j] {
      ShiftedAt(args, numbered, table, j);
    }
  }

  lemma ShiftedAt(args: seq<Arg>, numbered: seq<Arg>, table: map<string, char>, j: nat)
    requires ArgsSet(args, |args|, numbered, table) && j < |args|
    ensures numbered[j].outputIndex.Some? || !IsOutany(args[j].intent)
    ensures (if IsOutany(args[j].intent) then Shifted(numbered[j], Count(args, In)) else numbered[j])
      == InitializedArguments(args, table)[j]
  {
    var ci, co, n := Count(args[..j], In), Count(args[..j], Out), Count(args, In);
    assert ArgSetAt(args, numbered, table, j);
    InitializedAt(args, table, j);
    assert ArgumentAt(args, j, table) == Numbered(args[j], ci, n + co, table);
    NumberedShift(args[j], ci, co, n, table);
  }

  lemma InitializedAt(args: seq<Arg>, table: map<string, char>, j: nat)
    requires j < |args|
    ensures InitializedArguments(args, table)[j] == ArgumentAt(args, j, table)
  {
    PrefixAt(args, |args|, table, j);
  }

  lemma {:induction false} PrefixAt(args: seq<Arg>, n: nat, table: map<string, char>, j: nat)
    requires j < n <= |args|
    ensures InitializedPrefix(args, n, table)[j] == ArgumentAt(args, j, table)
  {
    if j < n - 1 {
      PrefixAt(args, n - 1, table, j);
    }
  }

  /** The shift moves only the output index of an `is_outany` argument. */
  lemma NumberedShift(a: Arg, i: nat, o: nat, n: nat, table: map<string, char>)
    ensures IsOutany(a.intent) ==> Numbered(a, i, o, table).outputIndex.Some?
    ensures (if IsOutany(a.intent) then Shifted(Numbered(a, i, o, table), n) else Numbered(a, i, o, table))
      == Numbered(a, i, n + o, table)
  {
  }

  // ----- properties of the numbering -----

  lemma CountMonotone(args: seq<Arg>, i: nat, j: nat, d: Direction)
    requires i <= j <= |args|
    ensures Count(args[..i], d) <= Count(args[..j], d)
  {
    CountOfPrefix(args[..j], i, d);
    assert args[..j][..i] == args[..i];
  }

  /** A prefix counts no more than the whole. */
  lemma {:induction false} CountOfPrefix(args: seq<Arg>, i: nat, d: Direction)
    requires i <= |args|
    ensures Count(args[..i], d) <= Count(args, d)
  {
    if i < |args| {
      var init := args[..|args| - 1];
      CountOfPrefix(init, i, d);
      assert init[..i] == args[..i];
    } else {
      assert args[..i] == args;
    }
  }

  /** A numbered argument's number is below that of every later position. */
  lemma {:induction false} NumberingIncreases(args: seq<Arg>, i: nat, j: nat, d: Direction)
    requires i < j <= |args| && Directed(args[i], d)
    ensures Count(args[..i], d) < Count(args[..j], d)
  {
    CountStep(args, i, d);
    CountMonotone(args, i + 1, j, d);
  }

  /** Every number below the count belongs to some numbered argument. */
  lemma {:induction false} NumberingOnto(args: seq<Arg>, d: Direction, n: nat)
    requires n < Count(args, d)
    ensures exists j :: 0 <= j < |args| && Directed(args[j], d) && Count(args[..j], d) == n
  {
    var init := args[..|args| - 1];
    if n < Count(init, d) {
      NumberingOnto(init, d, n);
      var j :| 0 <= j < |init| && Directed(init[j], d) && Count(init[..j], d) == n;
      assert init[..j] == args[..j];
    } else {
      assert args[..|args| - 1] == init;
    }
  }

  /** `out` carries the numbering the pass gives `args`, followed by the
      return argument when `ret` holds. */
  predicate NumberedAs(args: seq<Arg>, out: seq<Arg>, ret: bool)
  {
    && |out| == |args| + (if ret then 1 else 0)
    && (forall j :: 0 <= j < |args| ==> NumberedAt(args, out, j))
    && (ret ==> out[|args|].intent == {Output} && out[|args|].outputIndex == Some(Count(args, In) + Count(args, Out)))
  }

  /** `out[j]` keeps the intent of `args[j]` and carries its numbers. */
  predicate NumberedAt(args: seq<Arg>, out: seq<Arg>, j: nat)
    requires j < |args| && j < |out|
  {
    && out[j].intent == args[j].intent
    && (IsInany(args[j].intent) ==> out[j].inputIndex == Some(Count(args[..j], In)))
    && (IsOutany(args[j].intent) ==> out[j].outputIndex == Some(Count(args, In) + Count(args[..j], Out)))
  }

  lemma {:induction false} ExpectedNumbered(k: Kernel)
    requires FirstFailure(KernelNews(k)).None?
    ensures NumberedAs(k.arguments, Expected(k).arguments, k.typ != "void")
  {
    ArgumentsNumbered(k);
    assert Expected(k).arguments == ExpectedArguments(k);
  }

  lemma {:induction false} ArgumentsNumbered(k: Kernel)
    requires FirstFailure(KernelNews(k)).None?
    ensures NumberedAs(k.arguments, ExpectedArguments(k), k.typ != "void")
  {
    var news := KernelNews(k);
    NoFailureFitsAlphabet(news);
    var table := LetterTable(news);
    AllLettered(k.arguments, table);
    InitializedNumbered(k.arguments, table, if k.typ != "void" then [ReturnArgument(k)] else []);
  }

  lemma {:induction false} InitializedNumbered(args: seq<Arg>, table: map<string, char>, tail: seq<Arg>)
    requires forall j :: 0 <= j < |args| ==> Lettered(args[j], table)
    requires |tail| <= 1
    requires |tail| == 1 ==> tail[0].intent == {Output} && tail[0].outputIndex == Some(Count(args, In) + Count(args, Out))
    ensures NumberedAs(args, InitializedArguments(args, table) + tail, |tail| == 1)
  {
    var init := InitializedArguments(args, table);
    var out := init + tail;
    forall j | 0 <= j < |args| ensures NumberedAt(args, out, j) {
      InitializedAt(args, table, j);
      assert out[j] == init[j];
      NumberedFields(args[j], Count(args[..j], In), Count(args, In) + Count(args[..j], Out), table);
    }
    if |tail| == 1 {
      assert out[|args|] == tail[0];
    }
    assert |out| == |args| + (if |tail| == 1 then 1 else 0);
  }

  lemma NumberedFields(a: Arg, inputIndex: nat, outputIndex: nat, table: map<string, char>)
    requires Lettered(a, table)
    ensures Numbered(a, inputIndex, outputIndex, table).intent == a.intent
    ensures IsInany(a.intent) ==> Numbered(a, inputIndex, outputIndex, table).inputIndex == Some(inputIndex)
    ensures IsOutany(a.intent) ==> Numbered(a, inputIndex, outputIndex, table).outputIndex == Some(outputIndex)
  {
  }

  /** Some `is_inany` argument of `out` has input index `n`. */
  predicate HasInputIndex(out: seq<Arg>, n: int)
  {
    exists j :: 0 <= j < |out| && IsInany(out[j].intent) && out[j].inputIndex == Some(n)
  }

  /** Some `is_outany` argument of `out` has output index `n`. */
  predicate HasOutputIndex(out: seq<Arg>, n: int)
  {
    exists j :: 0 <= j < |out| && IsOutany(out[j].intent) && out[j].outputIndex == Some(n)
  }

  /** The input numbering: `0 .. nin-1`, one each, in argument order. */
  lemma {:induction false} InputNumbering(args: seq<Arg>, out: seq<Arg>, ret: bool)
    requires NumberedAs(args, out, ret)
    ensures forall j :: 0 <= j < |out| && IsInany(out[j].intent) ==>
      out[j].inputIndex.Some? && 0 <= out[j].inputIndex.value < Count(args, In)
    ensures forall j1, j2 :: 0 <= j1 < j2 < |out| && IsInany(out[j1].intent) && IsInany(out[j2].intent) ==>
      out[j1].inputIndex.Some? && out[j2].inputIndex.Some? && out[j1].inputIndex.value < out[j2].inputIndex.value
    ensures forall n :: 0 <= n < Count(args, In) ==> HasInputIndex(out, n)
  {
    assert args[..|args|] == args;
    forall j | 0 <= j < |out| && IsInany(out[j].intent)
      ensures j < |args| && IsInany(args[j].intent) && out[j].inputIndex == Some(Count(args[..j], In))
      ensures Count(args[..j], In) < Count(args, In)
    {
      if j < |args| {
        assert NumberedAt(args, out, j);
      }
      NumberingIncreases(args, j, |args|, In);
    }
    forall j1, j2 | 0 <= j1 < j2 < |out| && IsInany(out[j1].intent) && IsInany(out[j2].intent)
      ensures out[j1].inputIndex.Some? && out[j2].inputIndex.Some? && out[j1].inputIndex.value < out[j2].inputIndex.value
    {
      NumberingIncreases(args, j1, j2, In);
    }
    forall n | 0 <= n < Count(args, In) ensures HasInputIndex(out, n)
    {
      NumberingOnto(args, In, n);
      var j :| 0 <= j < |args| && Directed(args[j], In) && Count(args[..j], In) == n;
      assert NumberedAt(args, out, j);
      assert 0 <= j < |out| && IsInany(out[j].intent) && out[j].inputIndex == Some(n);
    }
  }

  /** The output numbering: `nin .. nin+nout-1`, one each, in argument
      order, the return argument last. */
  lemma {:induction false} OutputNumbering(args: seq<Arg>, out: seq<Arg>, ret: bool)
    requires NumberedAs(args, out, ret)
    ensures var nin := Count(args, In); var nout := Count(args, Out) + (if ret then 1 else 0);
      forall j :: 0 <= j < |out| && IsOutany(out[j].intent) ==>
        out[j].outputIndex.Some? && nin <= out[j].outputIndex.value < nin + nout
    ensures forall j1, j2 :: 0 <= j1 < j2 < |out| && IsOutany(out[j1].intent) && IsOutany(out[j2].intent) ==>
      out[j1].outputIndex.Some? && out[j2].outputIndex.Some? && out[j1].outputIndex.value < out[j2].outputIndex.value
    ensures var nin := Count(args, In); var nout := Count(args, Out) + (if ret then 1 else 0);
      forall n :: nin <= n < nin + nout ==> HasOutputIndex(out, n)
  {
    OutputIndexOf(args, out, ret);
    forall j1, j2 | 0 <= j1 < j2 < |out| && IsOutany(out[j1].intent) && IsOutany(out[j2].intent)
      ensures out[j1].outputIndex.Some? && out[j2].outputIndex.Some? && out[j1].outputIndex.value < out[j2].outputIndex.value
    {
      assert j1 < |args| && NumberedAt(args, out, j1);
      NumberingIncreases(args, j1, j2, Out);
    }
    OutputIndicesOnto(args, out, ret);
  }

  /** Every output index, the return argument's included, is `nin` plus the
      number of `is_outany` arguments before it. */
  lemma {:induction false} OutputIndexOf(args: seq<Arg>, out: seq<Arg>, ret: bool)
    requires NumberedAs(args, out, ret)
    ensures forall j :: 0 <= j < |out| && IsOutany(out[j].intent) ==>
      j <= |args| && out[j].outputIndex == Some(Count(args, In) + Count(args[..j], Out))
      && Count(args[..j], Out) < Count(args, Out) + (if ret then 1 else 0)
  {
    assert args[..|args|] == args;
    forall j | 0 <= j < |out| && IsOutany(out[j].intent)
      ensures j <= |args| && out[j].outputIndex == Some(Count(args, In) + Count(args[..j], Out))
      ensures Count(args[..j], Out) < Count(args, Out) + (if ret then 1 else 0)
    {
      if j < |args| {
        assert NumberedAt(args, out, j);
        NumberingIncreases(args, j, |args|, Out);
      }
    }
  }

  lemma {:induction false} OutputIndicesOnto(args: seq<Arg>, out: seq<Arg>, ret: bool)
    requires NumberedAs(args, out, ret)
    ensures var nin := Count(args, In); var nout := Count(args, Out) + (if ret then 1 else 0);
      forall n :: nin <= n < nin + nout ==> HasOutputIndex(out, n)
  {
    var nin := Count(args, In);
    var nout := Count(args, Out) + (if ret then 1 else 0);
    forall n | nin <= n < nin + nout ensures HasOutputIndex(out, n) {
      if n - nin < Count(args, Out) {
        NumberingOnto(args, Out, n - nin);
        var j :| 0 <= j < |args| && Directed(args[j], Out) && Count(args[..j], Out) == n - nin;
        assert NumberedAt(args, out, j);
        assert IsOutany(out[j].intent) && out[j].outputIndex == Some(n);
      } else {
        assert args[..|args|] == args;
        assert IsOutany(out[|args|].intent) && out[|args|].outputIndex == Some(n);
      }
    }
  }

  /** A non-`void` function adds one last argument, `<function_name>_return_value_`,
      an output only, which `is_argument` excludes. */
  lemma {:induction false} ReturnArgumentAdded(k: Kernel)
    requires FirstFailure(KernelNews(k)).None?
    ensures |Expected(k).arguments| == |k.arguments| + (if k.typ != "void" then 1 else 0)
    ensures k.typ != "void" ==>
      var ret := Expected(k).arguments[|k.arguments|];
      && ret.name == k.functionName + ReturnValueSuffix && !IsArgument(ret)
      && ret.intent == {Output} && IsOutany(ret.intent) && !IsInany(ret.intent) && ret.typ == Some(k.typ)
  {
    if k.typ != "void" {
      var ret := Expected(k).arguments[|k.arguments|];
      assert ret == ReturnArgument(k);
      var n := ret.name;
      assert n[|n| - |ReturnValueSuffix|..] == ReturnValueSuffix;
    }
  }

  // ----- properties of the symbols -----

  /** `news[i]` belongs to an output argument that has no `depends`. */
  predicate MissingAt(news: seq<Occ>, i: nat)
    requires i < |news|
  {
    news[i].out && news[i].depends.None?
  }

  /** The pass raises nothing exactly when there are at most 25 names and
      none of them is first met in an output argument without `depends`. */
  lemma {:induction false} FailureIff(news: seq<Occ>)
    ensures FirstFailure(news).None? <==> |news| <= 25 && forall i :: 0 <= i < |news| ==> !MissingAt(news, i)
  {
    if |news| > 0 {
      var n := |news| - 1;
      var init := news[..n];
      FailureIff(init);
      forall i | 0 <= i < n ensures MissingAt(init, i) == MissingAt(news, i) {
        assert init[i] == news[i];
      }
      if FirstFailure(init).Some? {
        if |init| <= 25 {
          var i :| 0 <= i < n && MissingAt(init, i);
          assert MissingAt(news, i);
        }
      } else if |init| < 25 && !MissingAt(news, n) {
        forall i | 0 <= i < |news| ensures !MissingAt(news, i) {
          if i < n {
            assert !MissingAt(init, i);
          }
        }
      }
    }
  }

  /** The exception raised is the one of the first name that finds the
      alphabet used up or lacks `depends`. */
  lemma {:induction false} FailureAt(news: seq<Occ>, i: nat)
    requires i <= 25 && i < |news| && (i == 25 || MissingAt(news, i))
    requires forall j :: 0 <= j < i ==> !MissingAt(news, j)
    ensures FirstFailure(news) ==
      Some(if i == 25 then SymbolOverflow(news[i].value) else MissingDepends(news[i].argName, news[i].value))
  {
    var p := news[..i];
    forall j | 0 <= j < i ensures !MissingAt(p, j) {
      assert p[j] == news[j] && !MissingAt(news, j);
    }
    FailureIff(p);
    assert news[..i + 1] == p + [news[i]];
    if i == 25 {
      NewsOverflow(p, news[i]);
    } else {
      NewsAppend(p, news[i]);
    }
    FailurePersists(news[..i + 1], news);
  }

  /** The `i`-th new name is given the `i`-th letter. */
  lemma {:induction false} LetterOfNew(news: seq<Occ>, i: nat)
    requires |news| <= 25 && Distinct(Values(news)) && i < |news|
    ensures LetterTable(news)[news[i].value] == DimensionSymbols[i]
  {
    if i < |news| - 1 {
      var init := news[..|news| - 1];
      assert forall m :: 0 <= m < |init| ==> Values(init)[m] == Values(news)[m];
      LetterOfNew(init, i);
      assert Values(news)[i] != Values(news)[|news| - 1];
    }
  }

  /** Distinct names get distinct letters. */
  lemma {:induction false} LettersDistinct(news: seq<Occ>, v: string, w: string)
    requires |news| <= 25 && Distinct(Values(news))
    requires v in LetterTable(news) && w in LetterTable(news) && v != w
    ensures LetterTable(news)[v] != LetterTable(news)[w]
  {
    var i :| 0 <= i < |news| && Values(news)[i] == v;
    var j :| 0 <= j < |news| && Values(news)[j] == w;
    LetterOfNew(news, i);
    LetterOfNew(news, j);
    DimensionSymbolsDistinct();
  }

  /** The input and output symbols together are the first `|news|`
      letters, each handed out once. */
  lemma {:induction false} LettersPartition(news: seq<Occ>)
    requires |news| <= 25
    ensures multiset(InLetters(news) + OutLetters(news)) == multiset(DimensionSymbols[..|news|])
  {
    if |news| > 0 {
      var n := |news| - 1;
      var init := news[..n];
      LettersPartition(init);
      LettersStep(news);
      TakeOneMore(DimensionSymbols, n);
    }
  }

  lemma LettersStep(news: seq<Occ>)
    requires 0 < |news| <= 25
    ensures var init := news[..|news| - 1];
      multiset(InLetters(news) + OutLetters(news))
      == multiset(InLetters(init) + OutLetters(init)) + multiset{DimensionSymbols[|news| - 1]}
  {
    var init := news[..|news| - 1];
    var d := DimensionSymbols[|news| - 1];
    var i0, o0 := InLetters(init), OutLetters(init);
    if news[|news| - 1].out {
      assert InLetters(news) + OutLetters(news) == (i0 + o0) + [d];
    } else {
      assert InLetters(news) + OutLetters(news) == i0 + [d] + o0;
    }
  }

  lemma TakeOneMore<T>(s: seq<T>, n: nat)
    requires n < |s|
    ensures s[..n + 1] == s[..n] + [s[n]]
  {
  }

  lemma {:induction false} LettersCount(news: seq<Occ>)
    requires |news| <= 25
    ensures |InLetters(news)| + |OutLetters(news)| == |news|
  {
    if |news| > 0 {
      LettersCount(news[..|news| - 1]);
    }
  }

  /** A name's letter is an output symbol when the name was first met in an
      output argument, an input symbol otherwise. */
  lemma {:induction false} LetterBucket(news: seq<Occ>, i: nat)
    requires |news| <= 25 && i < |news|
    ensures if news[i].out then DimensionSymbols[i] in OutLetters(news) else DimensionSymbols[i] in InLetters(news)
  {
    var n := |news| - 1;
    if i < n {
      var init := news[..n];
      LetterBucket(init, i);
      assert init[i] == news[i];
    }
  }

  lemma {:induction false} OutLettersPrefix(news: seq<Occ>, n: nat)
    requires |news| <= 25 && n <= |news|
    ensures OutLetters(news[..n]) <= OutLetters(news)
    decreases |news|
  {
    if n < |news| {
      var init := news[..|news| - 1];
      OutLettersPrefix(init, n);
      assert init[..n] == news[..n];
    } else {
      assert news[..n] == news;
    }
  }

  /** The letter of a name first met in an output argument sits at slot
      `|OutLetters(news[..i])|` of the output symbols: the slot its
      constraint names. */
  lemma {:induction false} OutSlot(news: seq<Occ>, i: nat)
    requires |news| <= 25 && i < |news| && news[i].out
    ensures |OutLetters(news[..i])| < |OutLetters(news)|
    ensures OutLetters(news)[|OutLetters(news[..i])|] == DimensionSymbols[i]
  {
    OutLettersPrefix(news, i + 1);
    assert news[..i + 1][..i] == news[..i];
    assert OutLetters(news[..i + 1]) == OutLetters(news[..i]) + [DimensionSymbols[i]];
  }

  /** `news[i]` draws a constraint: first met in an output argument whose
      `depends` string contains it. */
  predicate ConstrainedAt(news: seq<Occ>, i: nat)
    requires i < |news|
  {
    news[i].out && news[i].depends.Some? && IsInfix(news[i].value, news[i].depends.value)
  }

  predicate HasConstraintSource(news: seq<Occ>, c: string)
    requires |news| <= 25
  {
    exists i :: 0 <= i < |news| && ConstrainedAt(news, i) && c == ShapeConstraint(|OutLetters(news[..i])|, news[i].value)
  }

  /** Every constrained name yields its constraint. */
  lemma {:induction false} ConstraintsComplete(news: seq<Occ>)
    requires |news| <= 25
    ensures forall i :: 0 <= i < |news| && ConstrainedAt(news, i) ==>
      ShapeConstraint(|OutLetters(news[..i])|, news[i].value) in Constraints(news)
  {
    if |news| > 0 {
      var init := news[..|news| - 1];
      ConstraintsComplete(init);
      forall i | 0 <= i < |news| - 1 && ConstrainedAt(news, i)
        ensures ShapeConstraint(|OutLetters(news[..i])|, news[i].value) in Constraints(news)
      {
        assert init[i] == news[i] && init[..i] == news[..i];
        assert ConstrainedAt(init, i);
      }
    }
  }

  /** Every constraint comes from a constrained name. */
  lemma {:induction false} ConstraintsSound(news: seq<Occ>)
    requires |news| <= 25
    ensures forall c :: c in Constraints(news) ==> HasConstraintSource(news, c)
  {
    if |news| > 0 {
      var n := |news| - 1;
      var init := news[..n];
      ConstraintsSound(init);
      forall c | c in Constraints(news) ensures HasConstraintSource(news, c) {
        if c in Constraints(init) {
          var i :| 0 <= i < n && ConstrainedAt(init, i) && c == ShapeConstraint(|OutLetters(init[..i])|, init[i].value);
          assert init[i] == news[i] && init[..i] == news[..i];
          assert ConstrainedAt(news, i);
        } else {
          assert ConstrainedAt(news, n) && c == ShapeConstraint(|OutLetters(news[..n])|, news[n].value);
        }
      }
    }
  }

  /** `occs[p]` is the first occurrence of its name. */
  predicate FirstAt(occs: seq<Occ>, p: nat)
    requires p < |occs|
  {
    forall q :: 0 <= q < p ==> occs[q].value != occs[p].value
  }

  predicate IsFirstOcc(occs: seq<Occ>, o: Occ)
  {
    exists p :: 0 <= p < |occs| && FirstAt(occs, p) && occs[p] == o
  }

  /** Every new name is the first occurrence of its name. */
  lemma NewOccsAreFirst(occs: seq<Occ>)
    ensures forall o :: o in NewOccs(occs) ==> IsFirstOcc(occs, o)
  {
    forall o | o in NewOccs(occs) ensures IsFirstOcc(occs, o) {
      var m :| 0 <= m < |NewOccs(occs)| && NewOccs(occs)[m] == o;
      NewOccIsFirst(occs, m);
    }
  }

  lemma {:induction false} NewOccIsFirst(occs: seq<Occ>, m: nat)
    requires m < |NewOccs(occs)|
    ensures IsFirstOcc(occs, NewOccs(occs)[m])
  {
    var n := |occs| - 1;
    var init := occs[..n];
    var r := NewOccs(init);
    if m < |r| {
      NewOccIsFirst(init, m);
      assert NewOccs(occs)[m] == r[m];
      var p :| 0 <= p < n && FirstAt(init, p) && init[p] == r[m];
      FirstAtPrefix(occs, n, p);
      assert FirstAt(occs, p) && occs[p] == r[m];
    } else {
      assert occs[n].value !in Values(r);
      LastIsFirst(occs);
      assert NewOccs(occs)[m] == occs[n];
    }
  }

  lemma FirstAtPrefix(occs: seq<Occ>, n: nat, p: nat)
    requires p < n <= |occs| && FirstAt(occs[..n], p)
    ensures FirstAt(occs, p) && occs[p] == occs[..n][p]
  {
    forall q | 0 <= q < p ensures occs[q].value != occs[p].value {
      assert occs[..n][q] == occs[q];
    }
  }

  lemma {:induction false} LastIsFirst(occs: seq<Occ>)
    requires |occs| > 0 && occs[|occs| - 1].value !in Values(NewOccs(occs[..|occs| - 1]))
    ensures FirstAt(occs, |occs| - 1)
  {
    var n := |occs| - 1;
    forall q | 0 <= q < n ensures occs[q].value != occs[n].value {
      OccurrenceIsNamed(occs[..n], q);
      assert occs[..n][q] == occs[q];
    }
  }

  /** The new names all occur. */
  lemma {:induction false} NewOccIn(occs: seq<Occ>, m: nat)
    requires m < |NewOccs(occs)|
    ensures NewOccs(occs)[m] in occs
  {
    var n := |occs| - 1;
    var init := occs[..n];
    var r := NewOccs(init);
    if m < |r| {
      NewOccIn(init, m);
      assert NewOccs(occs)[m] == r[m];
      var q :| 0 <= q < n && init[q] == r[m];
      assert occs[q] == r[m];
    } else {
      assert NewOccs(occs)[m] == occs[n];
    }
  }

  /** Every first occurrence is a new name. */
  lemma {:induction false} FirstOccIsNew(occs: seq<Occ>, p: nat)
    requires p < |occs| && FirstAt(occs, p)
    ensures occs[p] in NewOccs(occs)
  {
    var n := |occs| - 1;
    var init := occs[..n];
    if p < n {
      FirstAtOfPrefix(occs, p);
      FirstOccIsNew(init, p);
      assert init[p] == occs[p];
    } else {
      LastFirstIsNew(occs);
    }
  }

  lemma FirstAtOfPrefix(occs: seq<Occ>, p: nat)
    requires p < |occs| - 1 && FirstAt(occs, p)
    ensures FirstAt(occs[..|occs| - 1], p)
  {
    var init := occs[..|occs| - 1];
    forall q | 0 <= q < p ensures init[q].value != init[p].value {
      assert init[q] == occs[q] && init[p] == occs[p];
    }
  }

  lemma {:induction false} LastFirstIsNew(occs: seq<Occ>)
    requires |occs| > 0 && FirstAt(occs, |occs| - 1)
    ensures occs[|occs| - 1].value !in Values(NewOccs(occs[..|occs| - 1]))
  {
    var n := |occs| - 1;
    var init := occs[..n];
    var r := NewOccs(init);
    forall m | 0 <= m < |r| ensures Values(r)[m] != occs[n].value {
      NewOccIn(init, m);
      var q :| 0 <= q < n && init[q] == r[m];
      assert occs[q] == init[q];
      assert occs[q].value != occs[n].value;
    }
  }

  /** `nofitems` multiplies one factor per dimension. */
  lemma NofitemsFactors(dims: seq<Dim>)
    requires |dims| > 0 && forall d :: d in dims ==> '*' !in d.value
    ensures CountChar(Nofitems(dims), '*') == |dims| - 1
  {
    var vs := DimValues(dims);
    forall v | v in vs ensures '*' !in v {
      var m :| 0 <= m < |vs| && vs[m] == v;
      assert dims[m] in dims;
    }
    JoinCountsSeparators(")*(", vs, '*');
    assert CountChar(")*(", '*') == 1;
    CountCharConcat("(" + Join(")*(", vs), ")", '*');
    CountCharConcat("(", Join(")*(", vs), '*');
  }
}
