/** The body table of the argument template
    (xndtools/kernel_generator/kernel_source_template.py, lines 438-538).

    Every body fragment is a piece of C text (with `{name}`, `{ctype}`,
    `{value}` placeholders and `{{`/`}}` escapes left as the source writes
    them) that contains a `...` marker: the text before it goes to the code
    run before the wrapped call, the text after it to the code run after
    the call.  The model keeps each entry already split at that marker. */
module Bodies {
  import opened Strings
  import opened Intents
  import opened Arguments

  /** The memory layout kinds a wrapper is generated for. */
  datatype Kind = C | Fortran | Strided | Xnd

  /** The two contiguity orders the C and Fortran input entries test for. */
  datatype Order = RowMajor | ColumnMajor

  /** The pieces of C text the table is made of. */
  datatype Fragment =
    | NoCode
    | AliasOrCopy(order: Order)   // use the caller's buffer if contiguous, else copy it
    | FreeIfCopied(order: Order)  // free the copy, under the negated contiguity test
    | CopyInput                   // always copy the input (`Xnd` kind)
    | FreeCopy                    // always free that copy
    | AliasOutputCopyInput        // write into the output buffer, seeded from the input
    | AliasOutput                 // write into the output buffer
    | AssignDefault               // scalar: `{name} = {value};`
    | ReadOrDefault               // scalar: the input, or `{value}` when it is missing
    | ReadInput                   // scalar: the input
    | WriteBackInput              // scalar: store into the input slot
    | WriteBackOutput             // scalar: store into the output slot

  /** One table entry: real code split at its marker, or the deliberately
      uncompilable `NOTIMPLEMENTED_...` sentinel naming the combination. */
  datatype Body = Implemented(enter: Fragment, exit: Fragment) | NotImplemented(sentinel: string)

  const Marker: string := "..."

  // The argument's slots in the kernel's stack of inputs and outputs.
  const InputSlot: string := "gmk_input_{name}"
  const OutputSlot: string := "gmk_output_{name}"

  /** The name of the contiguity test in each order. */
  function TestName(o: Order): string
  {
    match o
    case RowMajor => "ndt_is_c_contiguous"
    case ColumnMajor => "ndt_is_f_contiguous"
  }

  /** The contiguity test of the array type in a slot. */
  function ContiguityTest(o: Order, slot: string): string
  {
    TestName(o) + "(" + slot + ".type)"
  }

  /** The function that makes a contiguous copy in that order. */
  function Copier(o: Order): string
  {
    match o
    case RowMajor => "xndtools_copy"
    case ColumnMajor => "xndtools_fcopy"
  }

  /** The data pointer of the fixed-size array in a slot. */
  function ArrayData(slot: string): string
  {
    "GMK_FIXED_ARRAY_DATA({ctype}, " + slot + ")"
  }

  /** The scalar value in a slot. */
  function ScalarData(slot: string): string
  {
    "*GMK_SCALAR_DATA({ctype}, " + slot + ")"
  }

  /** A contiguous copy of the input in order `o`, as an element pointer. */
  function CopyCall(o: Order): string
  {
    "({ctype}*)" + Copier(o) + "(&" + InputSlot + ", gmk_ctx);"
  }

  function AliasGuard(o: Order): string
  {
    "if (" + ContiguityTest(o, InputSlot) + ")"
  }

  function FreeGuard(o: Order): string
  {
    "if (!" + ContiguityTest(o, InputSlot) + ")\n  free({name});"
  }

  // The block that runs the call only when the array pointer is set.
  const NullCheckHead: string := "if ({name} != NULL) {{\n"
  const NullCheckComment: string := " /* if ({name} != NULL) */\n"
  const NullCheckTail: string := "\n}} else gmk_success = -1;" + NullCheckComment

  /** The C text of each fragment. */
  function FragmentText(f: Fragment): string
  {
    match f
    case NoCode => ""
    case AliasOrCopy(o) =>
      AliasGuard(o) + "\n  {name} = " + ArrayData(InputSlot) + ";\nelse\n  {name} = " + CopyCall(o) + "\n" + NullCheckHead
    case FreeIfCopied(o) => "\n" + FreeGuard(o) + NullCheckTail
    case CopyInput => "{name} = " + CopyCall(RowMajor) + "\n" + NullCheckHead
    case FreeCopy => "\n  free({name});" + NullCheckTail
    case AliasOutputCopyInput =>
      "{name} = " + ArrayData(OutputSlot) + ";\n"
        + "xndtools_cpy((char*){name}, &" + InputSlot + ", " + ContiguityTest(ColumnMajor, OutputSlot) + ");"
    case AliasOutput => "{name} = " + ArrayData(OutputSlot) + ";"
    case AssignDefault => "{name} = {value};"
    case ReadOrDefault => "{name} = (xnd_is_na(&" + InputSlot + ") ? {value} : " + ScalarData(InputSlot) + ");"
    case ReadInput => "{name} = " + ScalarData(InputSlot) + ";"
    case WriteBackInput => ScalarData(InputSlot) + " = {name};"
    case WriteBackOutput => ScalarData(OutputSlot) + " = {name};"
  }

  /** The code an entry puts before the wrapped call, and after it. */
  function Enter(b: Body): string
  {
    match b
    case Implemented(e, _) => FragmentText(e)
    case NotImplemented(l) => l
  }

  function Exit(b: Body): string
  {
    match b
    case Implemented(_, x) => FragmentText(x)
    case NotImplemented(_) => ""
  }

  /** The entry's text as the source writes it: both halves around the marker. */
  function Text(b: Body): (s: string)
    ensures s == Enter(b) + Marker + Exit(b)
  {
    match b
    case Implemented(e, x) => FragmentText(e) + Marker + FragmentText(x)
    case NotImplemented(l) => l + Marker
  }

  // ----- cutting an entry at its marker -----

  /** `Marker` starts at index `i` of `s`. */
  predicate MarkerAt(s: string, i: int)
  {
    0 <= i && i + |Marker| <= |s| && s[i..i + |Marker|] == Marker
  }

  /** The index of the first marker of `s` at or after `i`, `|s|` when there is none. */
  function FindMarker(s: string, i: nat): (r: nat)
    requires i <= |s|
    ensures i <= r <= |s|
    ensures r < |s| ==> MarkerAt(s, r)
    ensures forall j :: i <= j < r ==> !MarkerAt(s, j)
    decreases |s| - i
  {
    if i == |s| then |s|
    else if MarkerAt(s, i) then i
    else FindMarker(s, i + 1)
  }

  /** An entry's text cut at its first marker into the code before the call
      and the code after it; `None` when the text holds no marker. */
  function CutAtMarker(s: string): (r: Option<(string, string)>)
    ensures r.Some? ==> s == r.value.0 + Marker + r.value.1
    ensures r.Some? ==> forall j :: 0 <= j < |r.value.0| ==> !MarkerAt(s, j)
    ensures r.None? <==> forall j :: !MarkerAt(s, j)
  {
    var i := FindMarker(s, 0);
    if i == |s| then None else Some((s[..i], s[i + |Marker|..]))
  }

  /** Every dot of `s` is followed by a character other than a dot: `s`
      holds no marker and does not end in a dot. */
  predicate LoneDots(s: string)
  {
    forall j :: 0 <= j < |s| && s[j] == '.' ==> j + 1 < |s| && s[j + 1] != '.'
  }

  lemma LoneDotsConcat(a: string, b: string)
    requires LoneDots(a) && LoneDots(b)
    ensures LoneDots(a + b)
  {
    forall j | 0 <= j < |a + b| && (a + b)[j] == '.'
      ensures j + 1 < |a + b| && (a + b)[j + 1] != '.'
    {
      if j < |a| {
        assert a[j] == '.';
      } else {
        assert b[j - |a|] == '.';
      }
    }
  }

  /** Text whose dots stand alone meets no marker before its end, so a
      marker written right after it is the first one: the cut gives back
      the text and whatever follows the marker. */
  lemma {:induction false} CutAfterLoneDots(e: string, x: string)
    requires LoneDots(e)
    ensures CutAtMarker(e + Marker + x) == Some((e, x))
  {
    var s := e + Marker + x;
    assert |Marker| == 3 && Marker[0] == '.' && Marker[1] == '.';
    forall j | 0 <= j < |e|
      ensures !MarkerAt(s, j)
    {
      assert s[j] == e[j] && s[j..j + 3][0] == s[j] && s[j..j + 3][1] == s[j + 1];
      if e[j] == '.' {
        assert s[j + 1] == e[j + 1];
      }
    }
    assert s[|e|..|e| + 3] == Marker;
    assert MarkerAt(s, |e|);
    var i := FindMarker(s, 0);
    assert i == |e|;
    assert s[..|e|] == e;
    assert s[|e| + 3..] == x;
  }

  lemma LoneDots3(a: string, b: string, c: string)
    requires LoneDots(a) && LoneDots(b) && LoneDots(c)
    ensures LoneDots(a + b + c)
  {
    LoneDotsConcat(a, b);
    LoneDotsConcat(a + b, c);
  }

  lemma LoneDots5(a: string, b: string, c: string, d: string, e: string)
    requires LoneDots(a) && LoneDots(b) && LoneDots(c) && LoneDots(d) && LoneDots(e)
    ensures LoneDots(a + b + c + d + e)
  {
    LoneDots3(a, b, c);
    LoneDots3(a + b + c, d, e);
  }

  lemma SlotsLoneDots()
    ensures LoneDots(InputSlot) && LoneDots(OutputSlot)
  {
  }

  lemma ContiguityTestPhrases()
    ensures LoneDots("ndt_is_c_contiguous") && LoneDots("ndt_is_f_contiguous")
    ensures LoneDots("(") && LoneDots(".type)")
  {
  }

  lemma ContiguityTestLoneDots(o: Order, slot: string)
    requires LoneDots(slot)
    ensures LoneDots(ContiguityTest(o, slot))
  {
    ContiguityTestPhrases();
    LoneDots3(TestName(o), "(", slot);
    LoneDotsConcat(TestName(o) + "(" + slot, ".type)");
  }

  lemma DataPhrases()
    ensures LoneDots("GMK_FIXED_ARRAY_DATA({ctype}, ") && LoneDots(")") && LoneDots("*GMK_SCALAR_DATA({ctype}, ")
  {
  }

  lemma DataLoneDots(slot: string)
    requires LoneDots(slot)
    ensures LoneDots(ArrayData(slot)) && LoneDots(ScalarData(slot))
  {
    DataPhrases();
    LoneDots3("GMK_FIXED_ARRAY_DATA({ctype}, ", slot, ")");
    LoneDots3("*GMK_SCALAR_DATA({ctype}, ", slot, ")");
  }

  lemma CopyCallPhrases()
    ensures LoneDots("xndtools_copy") && LoneDots("xndtools_fcopy")
    ensures LoneDots("({ctype}*)") && LoneDots("(&") && LoneDots(", gmk_ctx);")
  {
  }

  lemma CopyCallLoneDots(o: Order)
    ensures LoneDots(CopyCall(o))
  {
    SlotsLoneDots();
    CopyCallPhrases();
    LoneDots3("({ctype}*)", Copier(o), "(&");
    LoneDots3("({ctype}*)" + Copier(o) + "(&", InputSlot, ", gmk_ctx);");
  }

  lemma GuardsPhrases()
    ensures LoneDots("if (") && LoneDots(")") && LoneDots("if (!") && LoneDots(")\n  free({name});")
  {
  }

  lemma GuardsLoneDots(o: Order)
    ensures LoneDots(AliasGuard(o)) && LoneDots(FreeGuard(o))
  {
    SlotsLoneDots();
    var t := ContiguityTest(o, InputSlot);
    ContiguityTestLoneDots(o, InputSlot);
    GuardsPhrases();
    LoneDots3("if (", t, ")");
    LoneDots3("if (!", t, ")\n  free({name});");
  }

  lemma NullCheckPhrases()
    ensures LoneDots(NullCheckHead) && LoneDots("\n}} else gmk_success = -1;") && LoneDots(NullCheckComment)
  {
  }

  lemma NullCheckLoneDots()
    ensures LoneDots(NullCheckHead) && LoneDots(NullCheckTail)
  {
    NullCheckPhrases();
    LoneDotsConcat("\n}} else gmk_success = -1;", NullCheckComment);
  }

  lemma AliasBranchPhrases()
    ensures LoneDots("\n  {name} = ")
  {
  }

  lemma AliasBranchLoneDots(o: Order)
    ensures LoneDots(AliasGuard(o) + "\n  {name} = " + ArrayData(InputSlot))
  {
    SlotsLoneDots();
    GuardsLoneDots(o);
    DataLoneDots(InputSlot);
    AliasBranchPhrases();
    LoneDots3(AliasGuard(o), "\n  {name} = ", ArrayData(InputSlot));
  }

  lemma AliasOrCopyPhrases()
    ensures LoneDots(";\nelse\n  {name} = ") && LoneDots("\n")
  {
  }

  lemma AliasOrCopyLoneDots(o: Order)
    ensures LoneDots(FragmentText(AliasOrCopy(o)))
  {
    AliasBranchLoneDots(o);
    NullCheckLoneDots();
    CopyCallLoneDots(o);
    AliasOrCopyPhrases();
    LoneDots5(AliasGuard(o) + "\n  {name} = " + ArrayData(InputSlot), ";\nelse\n  {name} = ", CopyCall(o), "\n", NullCheckHead);
  }

  lemma CopyInputPhrases()
    ensures LoneDots("{name} = ") && LoneDots("\n")
  {
  }

  lemma CopyInputLoneDots()
    ensures LoneDots(FragmentText(CopyInput))
  {
    NullCheckLoneDots();
    CopyCallLoneDots(RowMajor);
    CopyInputPhrases();
    LoneDots3("{name} = ", CopyCall(RowMajor), "\n");
    LoneDotsConcat("{name} = " + CopyCall(RowMajor) + "\n", NullCheckHead);
  }

  lemma FreePhrases()
    ensures LoneDots("\n") && LoneDots("\n  free({name});")
  {
  }

  lemma FreeLoneDots(o: Order)
    ensures LoneDots(FragmentText(FreeIfCopied(o))) && LoneDots(FragmentText(FreeCopy))
  {
    NullCheckLoneDots();
    GuardsLoneDots(o);
    FreePhrases();
    LoneDots3("\n", FreeGuard(o), NullCheckTail);
    LoneDotsConcat("\n  free({name});", NullCheckTail);
  }

  lemma AliasOutputCopyInputPhrases()
    ensures LoneDots("{name} = ") && LoneDots(";\n") && LoneDots("xndtools_cpy((char*){name}, &") && LoneDots(", ") && LoneDots(");")
  {
  }

  lemma AliasOutputCopyInputLoneDots()
    ensures LoneDots(FragmentText(AliasOutputCopyInput))
  {
    var d, t := ArrayData(OutputSlot), ContiguityTest(ColumnMajor, OutputSlot);
    SlotsLoneDots();
    DataLoneDots(OutputSlot);
    ContiguityTestLoneDots(ColumnMajor, OutputSlot);
    AliasOutputCopyInputPhrases();
    LoneDots3("{name} = ", d, ";\n");
    LoneDots3("{name} = " + d + ";\n", "xndtools_cpy((char*){name}, &", InputSlot);
    LoneDots3("{name} = " + d + ";\n" + "xndtools_cpy((char*){name}, &" + InputSlot, ", ", t);
    LoneDotsConcat("{name} = " + d + ";\n" + "xndtools_cpy((char*){name}, &" + InputSlot + ", " + t, ");");
  }

  lemma AssignmentsPhrases()
    ensures LoneDots("{name} = ") && LoneDots(";") && LoneDots("{name} = {value};")
  {
  }

  lemma AssignmentsLoneDots()
    ensures LoneDots(FragmentText(AliasOutput)) && LoneDots(FragmentText(AssignDefault))
    ensures LoneDots(FragmentText(ReadInput))
  {
    SlotsLoneDots();
    DataLoneDots(OutputSlot);
    DataLoneDots(InputSlot);
    AssignmentsPhrases();
    LoneDots3("{name} = ", ArrayData(OutputSlot), ";");
    LoneDots3("{name} = ", ScalarData(InputSlot), ";");
  }

  lemma ReadOrDefaultPhrases()
    ensures LoneDots("{name} = (xnd_is_na(&") && LoneDots(") ? {value} : ") && LoneDots(");")
  {
  }

  lemma ReadOrDefaultLoneDots()
    ensures LoneDots(FragmentText(ReadOrDefault))
  {
    SlotsLoneDots();
    DataLoneDots(InputSlot);
    ReadOrDefaultPhrases();
    LoneDots3("{name} = (xnd_is_na(&", InputSlot, ") ? {value} : ");
    LoneDots3("{name} = (xnd_is_na(&" + InputSlot + ") ? {value} : ", ScalarData(InputSlot), ");");
  }

  lemma WriteBacksPhrases()
    ensures LoneDots(" = {name};")
  {
  }

  lemma WriteBacksLoneDots()
    ensures LoneDots(FragmentText(WriteBackInput)) && LoneDots(FragmentText(WriteBackOutput))
  {
    SlotsLoneDots();
    DataLoneDots(InputSlot);
    DataLoneDots(OutputSlot);
    WriteBacksPhrases();
    LoneDotsConcat(ScalarData(InputSlot), " = {name};");
    LoneDotsConcat(ScalarData(OutputSlot), " = {name};");
  }

  /** The dots of every fragment stand alone: none holds a marker or ends in a dot. */
  lemma FragmentLoneDots(f: Fragment)
    ensures LoneDots(FragmentText(f))
  {
    match f
    case NoCode =>
    case AliasOrCopy(o) => AliasOrCopyLoneDots(o);
    case FreeIfCopied(o) => FreeLoneDots(o);
    case CopyInput => CopyInputLoneDots();
    case FreeCopy => FreeLoneDots(RowMajor);
    case AliasOutputCopyInput => AliasOutputCopyInputLoneDots();
    case AliasOutput => AssignmentsLoneDots();
    case AssignDefault => AssignmentsLoneDots();
    case ReadOrDefault => ReadOrDefaultLoneDots();
    case ReadInput => AssignmentsLoneDots();
    case WriteBackInput => WriteBacksLoneDots();
    case WriteBackOutput => WriteBacksLoneDots();
  }

  // ----- the array half of the table (lines 465-534) -----

  /** The class part of a `NOTIMPLEMENTED_<class>_<kind>` label. */
  function ClassLabel(c: IntentClass): string
  {
    match c
    case InputClass => "INPUT"
    case InOutClass => "INOUT"
    case InplaceClass => "INPLACE"
    case InputOutputClass => "INPUT_OUTPUT"
    case InplaceOutputClass => "INPLACE_OUTPUT"
    case InOutOutputClass => "INOUT_OUTPUT"
    case OutputClass => "OUTPUT"
    case HideClass => "HIDE"
  }

  /** The kind part of a `NOTIMPLEMENTED_<class>_<kind>` label. */
  function KindLabel(k: Kind): string
  {
    match k
    case C => "C"
    case Fortran => "F"
    case Strided => "STRIDED"
    case Xnd => "XND"
  }

  function Unimplemented(c: IntentClass, k: Kind): Body
  {
    NotImplemented("NOTIMPLEMENTED_" + ClassLabel(c) + "_" + KindLabel(k))
  }

  /** The `NOTIMPLEMENTED_<class>_VALUE` sentinel of a compound scalar with a default. */
  function ValueSentinel(c: IntentClass): Body
  {
    NotImplemented("NOTIMPLEMENTED_" + ClassLabel(c) + "_VALUE")
  }

  /** The array body of each (intent class, kind) pair. */
  function ArrayBody(c: IntentClass, k: Kind): Body
  {
    match (c, k)
    case (InputClass, C) => Implemented(AliasOrCopy(RowMajor), FreeIfCopied(RowMajor))
    case (InputClass, Fortran) => Implemented(AliasOrCopy(ColumnMajor), FreeIfCopied(ColumnMajor))
    case (InputClass, Xnd) => Implemented(CopyInput, FreeCopy)
    case (InputOutputClass, Xnd) => Implemented(AliasOutputCopyInput, NoCode)
    case (OutputClass, Xnd) => Implemented(AliasOutput, NoCode)
    case _ => Unimplemented(c, k)
  }

  const AllKinds: seq<Kind> := [C, Fortran, Strided, Xnd]
  const AllClasses: seq<IntentClass> := DirectionClasses + [HideClass]

  /** Exactly five of the 8 x 4 entries are real code; every other one is the
      sentinel that names its class and kind. */
  lemma ArrayTableEntries(c: IntentClass, k: Kind)
    ensures ArrayBody(c, k).Implemented? <==>
      (c == InputClass && k != Strided) || (k == Xnd && (c == InputOutputClass || c == OutputClass))
    ensures ArrayBody(c, k).NotImplemented? ==> ArrayBody(c, k) == Unimplemented(c, k)
  {
  }

  /** In the C and Fortran input entries the copy is freed under the negation
      of the very test that chose to alias the caller's buffer. */
  lemma FreeGuardedByNegatedTest(k: Kind)
    requires k == C || k == Fortran
    ensures var o := if k == C then RowMajor else ColumnMajor;
      && ArrayBody(InputClass, k) == Implemented(AliasOrCopy(o), FreeIfCopied(o))
      && "if (" + ContiguityTest(o, InputSlot) + ")" <= Enter(ArrayBody(InputClass, k))
      && IsInfix("if (!" + ContiguityTest(o, InputSlot) + ")\n  free({name});", Exit(ArrayBody(InputClass, k)))
  {
    var o := if k == C then RowMajor else ColumnMajor;
    AliasGuardOpens(o);
    FreeGuardInExit(o);
  }

  lemma PrefixOfSeven(a: string, b: string, c: string, d: string, e: string, f: string, g: string)
    ensures a <= a + b + c + d + e + f + g
  {
    assert (a + b + c + d + e + f + g)[..|a|] == a;
  }

  lemma AliasGuardOpens(o: Order)
    ensures "if (" + ContiguityTest(o, InputSlot) + ")" <= FragmentText(AliasOrCopy(o))
  {
    PrefixOfSeven(AliasGuard(o), "\n  {name} = ", ArrayData(InputSlot), ";\nelse\n  {name} = ", CopyCall(o), "\n", NullCheckHead);
  }

  lemma FreeGuardInExit(o: Order)
    ensures IsInfix("if (!" + ContiguityTest(o, InputSlot) + ")\n  free({name});", FragmentText(FreeIfCopied(o)))
  {
    var x := FragmentText(FreeIfCopied(o));
    assert x == "\n" + FreeGuard(o) + NullCheckTail;
    assert x[1..1 + |FreeGuard(o)|] == FreeGuard(o);
    InfixAt(FreeGuard(o), x, 1);
  }

  /** The array bodies whose guard holds for an argument with intent tags `t`,
      in table order; the whole array half is guarded by `-has('value')`. */
  function MatchingArrayBodies(t: Tags, hasValue: bool, k: Kind): (r: seq<Body>)
    ensures hasValue ==> r == []
    ensures !hasValue ==> |r| == |MatchingClasses(t)| + (if IsHide(t) then 1 else 0)
    ensures !hasValue ==> forall i :: 0 <= i < |MatchingClasses(t)| ==> r[i] == ArrayBody(MatchingClasses(t)[i], k)
    ensures !hasValue && IsHide(t) ==> r[|r| - 1] == ArrayBody(HideClass, k)
  {
    if hasValue then []
    else ArrayBodiesOf(MatchingClasses(t), k) + (if IsHide(t) then [ArrayBody(HideClass, k)] else [])
  }

  function ArrayBodiesOf(cs: seq<IntentClass>, k: Kind): (r: seq<Body>)
    ensures |r| == |cs|
    ensures forall i :: 0 <= i < |cs| ==> r[i] == ArrayBody(cs[i], k)
  {
    if |cs| == 0 then [] else [ArrayBody(cs[0], k)] + ArrayBodiesOf(cs[1..], k)
  }

  /** Without a default, an array argument draws the entry of every class whose
      predicate holds of its tags, and nothing else. */
  lemma ArrayBodiesOfApplicableClasses(t: Tags, k: Kind)
    ensures forall c :: c in AllClasses && Holds(c, t) ==> ArrayBody(c, k) in MatchingArrayBodies(t, false, k)
    ensures forall b :: b in MatchingArrayBodies(t, false, k) ==>
      exists c :: c in AllClasses && Holds(c, t) && b == ArrayBody(c, k)
  {
    forall c | c in AllClasses && Holds(c, t)
      ensures ArrayBody(c, k) in MatchingArrayBodies(t, false, k)
    {
      ApplicableClassDrawn(t, k, c);
    }
    forall b | b in MatchingArrayBodies(t, false, k)
      ensures exists c :: c in AllClasses && Holds(c, t) && b == ArrayBody(c, k)
    {
      var i :| 0 <= i < |MatchingArrayBodies(t, false, k)| && MatchingArrayBodies(t, false, k)[i] == b;
      var c := DrawnClass(t, k, i);
    }
  }

  lemma ApplicableClassDrawn(t: Tags, k: Kind, c: IntentClass)
    requires c in AllClasses && Holds(c, t)
    ensures ArrayBody(c, k) in MatchingArrayBodies(t, false, k)
  {
    var cs, r := MatchingClasses(t), MatchingArrayBodies(t, false, k);
    if c == HideClass {
      assert r[|r| - 1] == ArrayBody(c, k);
    } else {
      assert c in cs;
      var i :| 0 <= i < |cs| && cs[i] == c;
      assert r[i] == ArrayBody(c, k);
    }
  }

  /** The class whose entry sits at index `i` of the drawn array bodies. */
  lemma DrawnClass(t: Tags, k: Kind, i: nat) returns (c: IntentClass)
    requires i < |MatchingArrayBodies(t, false, k)|
    ensures c in AllClasses && Holds(c, t) && MatchingArrayBodies(t, false, k)[i] == ArrayBody(c, k)
  {
    var cs := MatchingClasses(t);
    if i < |cs| {
      c := cs[i];
      assert c in cs;
    } else {
      c := HideClass;
    }
  }

  /** An array argument without a default, without `hide` and with one in-tag
      at most, that is `is_inany` or `is_outany`, matches exactly one entry of
      the table: the entry of its class. */
  lemma ArrayBodyUnique(t: Tags, k: Kind)
    requires InTagCount(t) <= 1 && Hide !in t && (IsInany(t) || IsOutany(t))
    ensures |MatchingArrayBodies(t, false, k)| == 1
    ensures var c := MatchingClasses(t)[0];
            Holds(c, t) && MatchingArrayBodies(t, false, k) == [ArrayBody(c, k)]
  {
    ClassesPartitionTags(t);
  }

  /** A hidden array output matches two entries: its output entry and the
      `hide` sentinel. */
  lemma HiddenOutputArrayMatchesTwo(k: Kind)
    ensures MatchingArrayBodies({Hide, Output}, false, k)
         == [ArrayBody(OutputClass, k), Unimplemented(HideClass, k)]
  {
    assert MatchingClasses({Hide, Output}) == [OutputClass];
  }

  // ----- the scalar half of the table (lines 446-462) -----

  /** The guards of the scalar rows, as the source writes them. */
  datatype ScalarGuard =
    | HideOrOutput        // is_hide + is_output
    | AnyIn               // is_inany
    | InputOutputOnly     // is_input_output
    | InOutOutputOnly     // is_inout_output
    | InplaceOutputOnly   // is_inplace_output
    | WritesInputSlot     // is_inplace + is_inout + is_inplace_output + is_inout_output
    | AnyOut              // is_outany

  predicate GuardHolds(g: ScalarGuard, t: Tags)
  {
    match g
    case HideOrOutput => IsHide(t) || IsOutput(t)
    case AnyIn => IsInany(t)
    case InputOutputOnly => IsInputOutput(t)
    case InOutOutputOnly => IsInOutOutput(t)
    case InplaceOutputOnly => IsInplaceOutput(t)
    case WritesInputSlot => IsInplace(t) || IsInOut(t) || IsInplaceOutput(t) || IsInOutOutput(t)
    case AnyOut => IsOutany(t)
  }

  /** Whether a row applies to arguments with a default `value`, without
      one, or to both. */
  datatype ValueGuard = WithValue | WithoutValue | Always

  datatype ScalarRow = ScalarRow(onValue: ValueGuard, guard: ScalarGuard, body: Body)

  // The scalar rows, named after what they do.
  const DefaultRow := ScalarRow(WithValue, HideOrOutput, Implemented(AssignDefault, NoCode))
  const ReadOrDefaultRow := ScalarRow(WithValue, AnyIn, Implemented(ReadOrDefault, NoCode))
  const InputOutputValueRow := ScalarRow(WithValue, InputOutputOnly, ValueSentinel(InputOutputClass))
  const InOutOutputValueRow := ScalarRow(WithValue, InOutOutputOnly, ValueSentinel(InOutOutputClass))
  const InplaceOutputValueRow := ScalarRow(WithValue, InplaceOutputOnly, ValueSentinel(InplaceOutputClass))
  const ReadRow := ScalarRow(WithoutValue, AnyIn, Implemented(ReadInput, NoCode))
  const WriteBackInputRow := ScalarRow(Always, WritesInputSlot, Implemented(NoCode, WriteBackInput))
  const WriteBackOutputRow := ScalarRow(Always, AnyOut, Implemented(NoCode, WriteBackOutput))

  /** The scalar rows in source order. */
  const ScalarRows: seq<ScalarRow> := [
    DefaultRow, ReadOrDefaultRow, InputOutputValueRow, InOutOutputValueRow,
    InplaceOutputValueRow, ReadRow, WriteBackInputRow, WriteBackOutputRow
  ]

  predicate RowApplies(row: ScalarRow, t: Tags, hasValue: bool)
  {
    (match row.onValue
     case WithValue => hasValue
     case WithoutValue => !hasValue
     case Always => true)
    && GuardHolds(row.guard, t)
  }

  /** A row's body when the row applies. */
  function Pick(row: ScalarRow, t: Tags, hasValue: bool): seq<Body>
  {
    if RowApplies(row, t, hasValue) then [row.body] else []
  }

  /** The bodies of the rows from the `i`-th on that apply, in row order. */
  function PickFrom(rows: seq<ScalarRow>, i: nat, t: Tags, hasValue: bool): seq<Body>
    decreases |rows| - i
  {
    if i >= |rows| then [] else Pick(rows[i], t, hasValue) + PickFrom(rows, i + 1, t, hasValue)
  }

  /** The scalar bodies whose guards hold for tags `t`, in source order. */
  function MatchingScalarBodies(t: Tags, hasValue: bool): seq<Body>
  {
    PickFrom(ScalarRows, 0, t, hasValue)
  }

  /** From the `i`-th row on, a body is picked exactly when a row that
      applies carries it. */
  lemma {:induction false} PickFromIff(rows: seq<ScalarRow>, i: nat, t: Tags, hasValue: bool)
    ensures forall j :: i <= j < |rows| && RowApplies(rows[j], t, hasValue) ==> rows[j].body in PickFrom(rows, i, t, hasValue)
    ensures forall b :: b in PickFrom(rows, i, t, hasValue) ==>
      exists j :: i <= j < |rows| && rows[j].body == b && RowApplies(rows[j], t, hasValue)
    decreases |rows| - i
  {
    if i < |rows| {
      PickFromIff(rows, i + 1, t, hasValue);
      var head := Pick(rows[i], t, hasValue);
      var tail := PickFrom(rows, i + 1, t, hasValue);
      assert PickFrom(rows, i, t, hasValue) == head + tail;
      forall b | b in PickFrom(rows, i, t, hasValue)
        ensures exists j :: i <= j < |rows| && rows[j].body == b && RowApplies(rows[j], t, hasValue)
      {
        if b in head {
          assert rows[i].body == b && RowApplies(rows[i], t, hasValue);
        }
      }
    }
  }

  /** The scalar rows tried one after the other, in source order. */
  lemma ScalarRowsInOrder(t: Tags, hasValue: bool)
    ensures MatchingScalarBodies(t, hasValue)
      == Pick(DefaultRow, t, hasValue) + (Pick(ReadOrDefaultRow, t, hasValue)
      + (Pick(InputOutputValueRow, t, hasValue) + (Pick(InOutOutputValueRow, t, hasValue)
      + (Pick(InplaceOutputValueRow, t, hasValue) + (Pick(ReadRow, t, hasValue)
      + (Pick(WriteBackInputRow, t, hasValue) + Pick(WriteBackOutputRow, t, hasValue)))))))
  {
    var r := ScalarRows;
    assert PickFrom(r, 8, t, hasValue) == [];
    assert PickFrom(r, 7, t, hasValue) == Pick(r[7], t, hasValue) + [];
    assert PickFrom(r, 6, t, hasValue) == Pick(r[6], t, hasValue) + PickFrom(r, 7, t, hasValue);
    assert PickFrom(r, 5, t, hasValue) == Pick(r[5], t, hasValue) + PickFrom(r, 6, t, hasValue);
    assert PickFrom(r, 4, t, hasValue) == Pick(r[4], t, hasValue) + PickFrom(r, 5, t, hasValue);
    assert PickFrom(r, 3, t, hasValue) == Pick(r[3], t, hasValue) + PickFrom(r, 4, t, hasValue);
    assert PickFrom(r, 2, t, hasValue) == Pick(r[2], t, hasValue) + PickFrom(r, 3, t, hasValue);
    assert PickFrom(r, 1, t, hasValue) == Pick(r[1], t, hasValue) + PickFrom(r, 2, t, hasValue);
  }

  /** An argument draws the body of every scalar row that applies to it, and
      only those. */
  lemma ScalarBodiesOfApplicableRows(t: Tags, hasValue: bool)
    ensures forall row :: row in ScalarRows && RowApplies(row, t, hasValue) ==> row.body in MatchingScalarBodies(t, hasValue)
    ensures forall b :: b in MatchingScalarBodies(t, hasValue) ==>
      exists row :: row in ScalarRows && row.body == b && RowApplies(row, t, hasValue)
  {
    PickFromIff(ScalarRows, 0, t, hasValue);
    forall row | row in ScalarRows && RowApplies(row, t, hasValue)
      ensures row.body in MatchingScalarBodies(t, hasValue)
    {
      var j :| 0 <= j < |ScalarRows| && ScalarRows[j] == row;
    }
  }

  /** Every implemented scalar row is one half only: reads and the default
      run before the call, write-backs after it. */
  lemma ScalarRowsAreOneSided(i: nat)
    requires i < |ScalarRows|
    ensures ScalarRows[i].body.Implemented? ==>
      (ScalarRows[i].body.exit == NoCode <==> ScalarRows[i].guard != WritesInputSlot && ScalarRows[i].guard != AnyOut)
    ensures ScalarRows[i].body.Implemented? ==> (ScalarRows[i].body.enter == NoCode <==> ScalarRows[i].body.exit != NoCode)
  {
  }

  /** A compound input-and-output scalar with a default always draws a
      `NOTIMPLEMENTED_..._VALUE` sentinel. */
  lemma CompoundScalarDefaultRejected(t: Tags)
    requires IsInputOutput(t) || IsInOutOutput(t) || IsInplaceOutput(t)
    ensures exists b :: b in MatchingScalarBodies(t, true) && b.NotImplemented?
  {
    var row := if IsInputOutput(t) then InputOutputValueRow
               else if IsInOutOutput(t) then InOutOutputValueRow else InplaceOutputValueRow;
    assert row in ScalarRows && RowApplies(row, t, true);
    ScalarBodiesOfApplicableRows(t, true);
  }

  /** What the scalar rows give for a plain input, with and without a default. */
  lemma ScalarBodiesOfInput()
    ensures MatchingScalarBodies({Input}, true) == [ReadOrDefaultRow.body]
    ensures MatchingScalarBodies({Input}, false) == [ReadRow.body]
  {
    ScalarRowsInOrder({Input}, true);
    ScalarRowsInOrder({Input}, false);
  }

  /** An `inout` scalar is read before the call and written back after it. */
  lemma ScalarBodiesOfInOut()
    ensures MatchingScalarBodies({InOut}, false) == [ReadRow.body, WriteBackInputRow.body]
  {
    ScalarRowsInOrder({InOut}, false);
  }

  /** A plain output is only written back. */
  lemma ScalarBodiesOfOutput()
    ensures MatchingScalarBodies({Output}, false) == [WriteBackOutputRow.body]
  {
    ScalarRowsInOrder({Output}, false);
  }

  /** A hidden scalar only takes its default, and draws nothing without one. */
  lemma ScalarBodiesOfHide()
    ensures MatchingScalarBodies({Hide}, true) == [DefaultRow.body]
    ensures MatchingScalarBodies({Hide}, false) == []
  {
    ScalarRowsInOrder({Hide}, true);
    ScalarRowsInOrder({Hide}, false);
  }

  // ----- the whole body entry of an argument -----

  /** The bodies an argument draws: the scalar rows for `is_scalar +
      is_scalar_ptr`, the array entries for `is_array` without a default. */
  function ArgumentBodies(a: Arg, k: Kind): (r: seq<Body>)
    ensures IsScalar(a) || IsScalarPtr(a) ==> r == MatchingScalarBodies(a.intent, a.value.Some?)
    ensures IsArray(a) ==> r == MatchingArrayBodies(a.intent, a.value.Some?, k)
    ensures !(IsScalar(a) || IsScalarPtr(a) || IsArray(a)) ==> r == []
    ensures IsArray(a) && a.value.Some? ==> r == []
  {
    if IsScalar(a) || IsScalarPtr(a) then MatchingScalarBodies(a.intent, a.value.Some?)
    else if IsArray(a) then MatchingArrayBodies(a.intent, a.value.Some?, k)
    else []
  }

  /** A body is drawn by an argument exactly when a scalar row that applies
      carries it (for the scalar family) or it is the entry of a class whose
      predicate holds (for an array without a default). */
  lemma ArgumentBodyMembership(a: Arg, k: Kind, b: Body)
    ensures b in ArgumentBodies(a, k) <==>
      || ((IsScalar(a) || IsScalarPtr(a))
          && exists row :: row in ScalarRows && row.body == b && RowApplies(row, a.intent, a.value.Some?))
      || (IsArray(a) && a.value.None?
          && exists c :: c in AllClasses && Holds(c, a.intent) && b == ArrayBody(c, k))
  {
    ScalarAndArrayDisjoint(a);
    ScalarBodiesOfApplicableRows(a.intent, a.value.Some?);
    ArrayBodiesOfApplicableClasses(a.intent, k);
  }

  // ----- every entry is cut back into its halves (line 438) -----

  lemma ClassLabelLoneDots(c: IntentClass)
    ensures LoneDots(ClassLabel(c))
  {
  }

  lemma KindLabelLoneDots(k: Kind)
    ensures LoneDots(KindLabel(k))
  {
  }

  lemma LabelsPhrases()
    ensures LoneDots("NOTIMPLEMENTED_") && LoneDots("_") && LoneDots("_VALUE")
  {
  }

  lemma LabelsLoneDots(c: IntentClass, k: Kind)
    ensures LoneDots(Enter(Unimplemented(c, k))) && LoneDots(Enter(ValueSentinel(c)))
  {
    ClassLabelLoneDots(c);
    KindLabelLoneDots(k);
    LabelsPhrases();
    LoneDots3("NOTIMPLEMENTED_", ClassLabel(c), "_");
    LoneDotsConcat("NOTIMPLEMENTED_" + ClassLabel(c) + "_", KindLabel(k));
    LoneDots3("NOTIMPLEMENTED_", ClassLabel(c), "_VALUE");
  }

  /** Cutting the text of real code at its first marker gives back both fragments. */
  lemma ImplementedCutsIntoHalves(e: Fragment, x: Fragment)
    ensures CutAtMarker(Text(Implemented(e, x))) == Some((FragmentText(e), FragmentText(x)))
  {
    FragmentLoneDots(e);
    CutAfterLoneDots(FragmentText(e), FragmentText(x));
  }

  /** Every array entry, code or sentinel, is cut at its own marker: the cut
      gives back the code before the call and the code after it. */
  lemma ArrayBodyCutsIntoHalves(c: IntentClass, k: Kind)
    ensures var b := ArrayBody(c, k); CutAtMarker(Text(b)) == Some((Enter(b), Exit(b)))
  {
    var b := ArrayBody(c, k);
    if b.Implemented? {
      FragmentLoneDots(b.enter);
    } else {
      LabelsLoneDots(c, k);
    }
    CutAfterLoneDots(Enter(b), Exit(b));
  }

  /** The same for every scalar row. */
  lemma ScalarRowCutsIntoHalves(row: ScalarRow)
    requires row in ScalarRows
    ensures CutAtMarker(Text(row.body)) == Some((Enter(row.body), Exit(row.body)))
  {
    if row.body.Implemented? {
      FragmentLoneDots(row.body.enter);
    } else {
      LabelsLoneDots(InputOutputClass, C);
      LabelsLoneDots(InOutOutputClass, C);
      LabelsLoneDots(InplaceOutputClass, C);
    }
    CutAfterLoneDots(Enter(row.body), Exit(row.body));
  }

  /** Every body an argument draws is cut at its first marker back into its
      before-call and after-call code. */
  lemma ArgumentBodiesCutIntoHalves(a: Arg, k: Kind)
    ensures forall b :: b in ArgumentBodies(a, k) ==> CutAtMarker(Text(b)) == Some((Enter(b), Exit(b)))
  {
    forall b | b in ArgumentBodies(a, k)
      ensures CutAtMarker(Text(b)) == Some((Enter(b), Exit(b)))
    {
      ArgumentBodyMembership(a, k, b);
      if IsScalar(a) || IsScalarPtr(a) {
        var row :| row in ScalarRows && row.body == b && RowApplies(row, a.intent, a.value.Some?);
        ScalarRowCutsIntoHalves(row);
      } else {
        var c :| c in AllClasses && Holds(c, a.intent) && b == ArrayBody(c, k);
        ArrayBodyCutsIntoHalves(c, k);
      }
    }
  }
}
