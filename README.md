# A model of the xndtools kernel-source generator core

`xndtools/kernel_generator/kernel_source_template.py` turns a kernel
description into C source for gumath wrappers. The description lists each
kernel's arguments, their intents, shapes and types. Around its C template
texts, the file holds the generator's Python logic, and this project models
that logic in Dafny:

- **Intent predicates** (`Intents`). These are the boolean predicates over an
  argument's intent tags: `is_input`, `is_inout`, `is_inplace`, `is_output`,
  the compound `is_input_output`, `is_inout_output` and `is_inplace_output`,
  `is_hide`, and the summaries `is_inany` and `is_outany`. The source writes
  them with an overloaded algebra, where `*` is and, `+` is or and `-` is not.
  Here they are plain predicates over a set of tags.
- **Argument records** (`Arguments`). These are the shape predicates
  `is_scalar`, `is_scalar_ptr`, `is_array` and `is_argument`, and the `cfmt`
  table of `initialize_argument`.
- **`sorted_list`** (`Sequencer`). It orders `[statement, name, dependencies]`
  triples so that a name comes after its dependencies. It works in three
  imperative steps: collect the dictionaries, add the names known only as
  dependencies, then place names pass after pass until a pass adds nothing.
- **The join functions** (`Joins`). These are `join_kernels_list`,
  `join_constraints_list`, `join_dimension_list` and `join_signatures_list`.
  The last one parses the `name|sig|nout|kind_value` lines written by the
  signature format, groups them by `(name, sig, int(nout))` in first-seen
  order, renders one C table row per group and appends the NULL sentinel row.
  The wrapper-name and signature-line formats are modelled with it.
- **The body table** (`Bodies`). This is the scalar rows and the
  8 × 4 array matrix of the argument template. Each entry is either real code
  around its `...` marker, with a before-call half and an after-call half, or
  the `NOTIMPLEMENTED_<class>_<kind>` sentinel followed by the marker. Cutting
  any entry an argument draws at its first marker gives back its two halves.
- **`initialize_kernels`** (`Kernels`). This is the per-kernel pass:
  - it numbers inputs and outputs, shifting output indices by the input count;
  - it hands each distinct symbolic dimension one letter of
    `NMLKPQRSVWXYZBCDFGHJAEIOU`, with the input or output bucket decided by
    its first owner;
  - it collects the `gmk_shapes[k] = value;` constraints and the `nofitems`
    products;
  - it appends the `<function_name>_return_value_` argument.

  The pass is a method over the argument records. It returns the updated
  records and the new kernel entries, or the exception the source raises.
  A specification function `Expected` states the result, and lemmas prove the
  numbering, lettering and constraint properties of `Expected`.
- **Worked examples** (`Samples`). These are the two kernels of the
  generator's own `test()` data, `example_sum` and `foo`.

`Strings` and `Collections` hold the Python string operations the source
relies on, and sequence helpers: `split`, `join`, `strip`,
`replace(c, '')`, `isdigit`, `in`, `int()` and `str()`.

Behaviour worth noting:

- **Output indices** are shifted by the input count. Lines 198-199 add the
  number of inputs to every output index, so the first output's index is the
  number of inputs.
- **Dependency cycles.** `sorted_list` leaves the names of a cycle out of its
  result (lines 91-102). Every name it returns comes after its dependencies.
- **Repeated signature lines** each add their kind value to their group again
  (line 113), so a group can list a kind value twice.
- **`example_sum` has two input symbols.** `n` takes `N`. `n+5` is not all
  digits, so it is a symbolic name of its own and takes `M`. So `nin_symbols`
  is 2.
- **Unclassified arguments raise nothing.** An argument whose tags match no
  intent class draws no guarded entry; one whose tags match two classes draws
  the entries of both.

## Model

All source paths are in `xndtools/kernel_generator/kernel_source_template.py`.

| member | source | states |
|---|---|---|
| Intents.MatchingClasses | xndtools/kernel_generator/kernel_source_template.py:34-41 | a class is listed exactly when it is one of the seven non-hide classes and its intent predicate holds of the tags |
| Intents.ClassesPartitionTags | xndtools/kernel_generator/kernel_source_template.py:34-44 | with at most one of input/inout/inplace, at most one non-hide class holds; exactly one holds iff the tags are `is_inany` or `is_outany`; `hide` never changes which |
| Intents.TwoInTagsOverlap | xndtools/kernel_generator/kernel_source_template.py:34-41 | tags with two in-tags satisfy two non-hide classes at once |
| Intents.ClassOfEachTagSet | xndtools/kernel_generator/kernel_source_template.py:34-41 | each class's own tag set selects that class alone; the empty set and `{hide}` select none of the seven, while `is_hide({hide})` holds |
| Arguments.ScalarAndArrayDisjoint | xndtools/kernel_generator/kernel_source_template.py:27-29 | an `is_scalar` or `is_scalar_ptr` argument is never `is_array` |
| Arguments.UncoveredPointer | xndtools/kernel_generator/kernel_source_template.py:27-29 | a `*` pointer with a right modifier and no shape is none of scalar, scalar pointer or array |
| Arguments.Cfmt | xndtools/kernel_generator/kernel_source_template.py:207-211 | non-scalars get `%p`; a scalar gets the entry of the type-to-format dictionary: int32 gives `%d`, int64 gives `%ld`, float32 and float64 give `%f`, and a missing or other type gives no format (the `KeyError`) |
| Strings.Split | xndtools/kernel_generator/kernel_source_template.py:112 | `split(c)` gives one more piece than there are separators, and no piece holds the separator |
| Strings.SplitPiecesWithin | xndtools/kernel_generator/kernel_source_template.py:112 | a character absent from the string is absent from every piece |
| Strings.JoinOfSplit | xndtools/kernel_generator/kernel_source_template.py:112 | joining the pieces with the separator restores the string |
| Strings.SplitOfJoin | xndtools/kernel_generator/kernel_source_template.py:112 | splitting a join of separator-free pieces gives back those pieces |
| Strings.SplitAfterPiece | xndtools/kernel_generator/kernel_source_template.py:112 | a separator-free first piece followed by the separator splits off as the first piece |
| Strings.RemoveChar | xndtools/kernel_generator/kernel_source_template.py:81 | `replace(c, '')` leaves no `c`, shortens the string by the number of `c`s and adds no character |
| Strings.RemoveCharOfJoin | xndtools/kernel_generator/kernel_source_template.py:81 | removing a character absent from the pieces only removes it from the separator |
| Strings.TrimLeft | xndtools/kernel_generator/kernel_source_template.py:121 | the left strip is a suffix that starts with a non-space, and everything cut off is whitespace |
| Strings.TrimRight | xndtools/kernel_generator/kernel_source_template.py:121 | the right strip is a prefix that ends with a non-space, and everything cut off is whitespace |
| Strings.NatToString | xndtools/kernel_generator/kernel_source_template.py:394 | `str(n)` of a count is a non-empty string of digits |
| Strings.NatToStringValue | xndtools/kernel_generator/kernel_source_template.py:394 | the digits of `str(n)` denote `n` |
| Strings.ParseUnsigned | xndtools/kernel_generator/kernel_source_template.py:113 | an unsigned literal is accepted exactly when it is digit groups joined by single underscores |
| Strings.ParseInt | xndtools/kernel_generator/kernel_source_template.py:113 | `int()` accepts only a string that is not blank once stripped |
| Strings.IntOfString | xndtools/kernel_generator/kernel_source_template.py:113 | `int(str(n)) == n`, so the `nout` written at line 394 reads back unchanged |
| Strings.StripOfDigits | xndtools/kernel_generator/kernel_source_template.py:113 | a digit string is unchanged by `strip()` |
| Sequencer.ParseDeps | xndtools/kernel_generator/kernel_source_template.py:80-83 | the dependency set is empty exactly for the empty string, and no name in it holds a space or a comma |
| Sequencer.DepsOfJoinedNames | xndtools/kernel_generator/kernel_source_template.py:80-81 | names written as `"a, b, c"` read back as exactly the set of those names |
| Sequencer.Names | xndtools/kernel_generator/kernel_source_template.py:77-84 | the dictionary keys, in insertion order, hold no name twice |
| Sequencer.NamesAreDeclared | xndtools/kernel_generator/kernel_source_template.py:77-84 | the keys are exactly the names of the triples |
| Sequencer.StmtMap | xndtools/kernel_generator/kernel_source_template.py:79 | `stmts` has an entry for exactly the declared names |
| Sequencer.DepMap | xndtools/kernel_generator/kernel_source_template.py:84 | `d` has an entry for exactly the declared names |
| Sequencer.LastEntryWins | xndtools/kernel_generator/kernel_source_template.py:78-84 | a name given twice keeps the statements and the dependencies of its last triple |
| Sequencer.DepsWithinAllDeps | xndtools/kernel_generator/kernel_source_template.py:84-85 | every declared dependency is in `all_deps` |
| Sequencer.DependencyGraph | xndtools/kernel_generator/kernel_source_template.py:86-88 | after lines 86-88 the graph's nodes are the declared names plus every dependency |
| Sequencer.DependencyGraphClosed | xndtools/kernel_generator/kernel_source_template.py:86-88 | every dependency of every node is itself a node |
| Sequencer.Roots | xndtools/kernel_generator/kernel_source_template.py:89 | a name is a root exactly when it is listed and has no dependencies; roots keep the key order and are distinct when the keys are |
| Sequencer.RootsOfConcat | xndtools/kernel_generator/kernel_source_template.py:89 | the roots of two key runs are the roots of the first run followed by those of the second |
| Sequencer.RootsOrdered | xndtools/kernel_generator/kernel_source_template.py:89 | the starting list already places every name after its dependencies |
| Sequencer.OrderedAppend | xndtools/kernel_generator/kernel_source_template.py:99-100 | appending a name whose dependencies are all placed keeps every name after its dependencies |
| Sequencer.CollectEntries | xndtools/kernel_generator/kernel_source_template.py:74-85 | the loop builds exactly `stmts`, `d`, the key order and `all_deps` of the triples |
| Sequencer.CollectStep | xndtools/kernel_generator/kernel_source_template.py:78-85 | one more triple overwrites its name's statements and dependencies, appends the name only if new, and adds its dependencies to `all_deps` |
| Sequencer.AddDependencyOnlyNames | xndtools/kernel_generator/kernel_source_template.py:86-88 | for every set order, the old keys stay first; each added key is a new dependency-only name with no dependencies; the nodes are the old keys plus `all_deps` |
| Sequencer.PlacePass | xndtools/kernel_generator/kernel_source_template.py:96-101 | one pass extends the list, keeps it duplicate-free and ordered by dependencies, and a pass that adds nothing leaves no name ready |
| Sequencer.PlaceNames | xndtools/kernel_generator/kernel_source_template.py:89-101 | the loop ends with a duplicate-free, dependency-ordered list that starts with the roots, and no unplaced name is ready |
| Sequencer.SortedList | xndtools/kernel_generator/kernel_source_template.py:64-103 | the result is the statements of the placed names in placed order; the placed names are distinct, each after all its dependencies, the declared roots first in first-seen order, and no unplaced name is ready |
| Sequencer.CompletedGraph | xndtools/kernel_generator/kernel_source_template.py:86-88 | a graph with the declared names' dependencies and empty sets for the other dependencies is the dependency graph |
| Sequencer.DeclaredRootsFirst | xndtools/kernel_generator/kernel_source_template.py:86-89 | names added at lines 86-88 never displace the declared roots from the front of the list |
| Sequencer.PlacedByRank | xndtools/kernel_generator/kernel_source_template.py:91-101 | when the dependencies have a rank that decreases along every edge, a stuck list holds every node |
| Sequencer.AcyclicAllPlaced | xndtools/kernel_generator/kernel_source_template.py:91-101 | for acyclic dependencies, `sorted_list` places every name, so each declared statement list appears once |
| Sequencer.DependencyPlacedEarlier | xndtools/kernel_generator/kernel_source_template.py:99-100 | a dependency of a placed name sits at an earlier position |
| Sequencer.CycleReachesLast | xndtools/kernel_generator/kernel_source_template.py:99-100 | if one name of a cycle is placed, its last name is placed at or before it |
| Sequencer.CycleNeverPlaced | xndtools/kernel_generator/kernel_source_template.py:91-102 | no name on a dependency cycle is ever placed, so its statements are left out |
| Sequencer.UndeclaredContributesNothing | xndtools/kernel_generator/kernel_source_template.py:102 | a name known only as a dependency adds no statements wherever it is placed |
| Joins.JoinDistinct | xndtools/kernel_generator/kernel_source_template.py:52-62 | the result concatenates every distinct entry of the list exactly once, in an order that may be any order |
| Joins.DimensionProductStars | xndtools/kernel_generator/kernel_source_template.py:127-129 | `k` star-free dimensions give a product with `k - 1` multiplication signs |
| Joins.WrapperNameSeparatesKinds | xndtools/kernel_generator/kernel_source_template.py:386 | with the other fields fixed, different kinds give different wrapper names |
| Joins.ParsedLineHasThreeBars | xndtools/kernel_generator/kernel_source_template.py:112 | only a line with exactly three bar separators unpacks into four fields |
| Joins.SignatureRoundTrip | xndtools/kernel_generator/kernel_source_template.py:111-113 | a line written by the signature format of line 394, with no bar in any field, parses back into exactly its name, sig, nout and kind value |
| Joins.KindRecovered | xndtools/kernel_generator/kernel_source_template.py:121 | `s.split('=')[0].strip()[1:]` gives back the kind when the kind has no `=` and no trailing space |
| Joins.GroupKeysDistinct | xndtools/kernel_generator/kernel_source_template.py:109-116 | each `(name, sig, nout)` key is listed once |
| Joins.GroupKeysOfLines | xndtools/kernel_generator/kernel_source_template.py:111-116 | the listed keys are exactly the keys of the lines |
| Joins.KindValues | xndtools/kernel_generator/kernel_source_template.py:113 | a group holds no more kind values than there are lines |
| Joins.KindValuesPartitionLines | xndtools/kernel_generator/kernel_source_template.py:111-113 | every line's kind value lands in its group: the group sizes add up to the number of lines |
| Joins.KindValuesOfNewKey | xndtools/kernel_generator/kernel_source_template.py:113 | a key no line carries has no kind values |
| Joins.GroupStep | xndtools/kernel_generator/kernel_source_template.py:113 | one more line appends its key only if new and appends its kind value to its own group only |
| Joins.ConstraintRefIff | xndtools/kernel_generator/kernel_source_template.py:117-120 | a row contains `.constraint = &gmk_<name>_constraint` iff `nout > 0` |
| Joins.KeyRows | xndtools/kernel_generator/kernel_source_template.py:116-120 | one row per key |
| Joins.KeyRowAt | xndtools/kernel_generator/kernel_source_template.py:116-120 | the `i`-th row renders the `i`-th key with its kind values |
| Joins.RowsOfGroups | xndtools/kernel_generator/kernel_source_template.py:115-124 | there is one row per distinct key in first-seen order, each with all its kind values, then the NULL row; the count is keys plus one |
| Joins.ParseEach | xndtools/kernel_generator/kernel_source_template.py:111-112 | a successful parse gives one signature per line |
| Joins.ParseAllIff | xndtools/kernel_generator/kernel_source_template.py:111-112 | the lines parse exactly when every line does |
| Joins.ParseAllInOrder | xndtools/kernel_generator/kernel_source_template.py:111-112 | the `i`-th signature is the parse of the `i`-th line |
| Joins.AddToGroup | xndtools/kernel_generator/kernel_source_template.py:113 | appending to the `defaultdict` keeps the key order and the kind lists equal to those of the lines seen |
| Joins.GroupSignatures | xndtools/kernel_generator/kernel_source_template.py:109-113 | the loop fails exactly when some line does not parse; otherwise it leaves the keys in first-seen order, each with its kind values |
| Joins.RenderRows | xndtools/kernel_generator/kernel_source_template.py:115-124 | the second loop plus the sentinel yields exactly the rows of the groups |
| Joins.JoinSignatures | xndtools/kernel_generator/kernel_source_template.py:105-125 | `join_signatures_list` fails exactly when a line does not parse, and otherwise returns the group rows and the NULL row joined by `",\n  "` |
| Bodies.FindMarker | xndtools/kernel_generator/kernel_source_template.py:438 | the index of the first `...` at or after a position: a marker starts there and none starts between the position and it; the text's length when there is none |
| Bodies.CutAtMarker | xndtools/kernel_generator/kernel_source_template.py:438 | cutting at the first marker: the two parts around the marker rebuild the text, no marker starts inside the first part, and the cut fails exactly when the text holds no marker |
| Bodies.CutAfterLoneDots | xndtools/kernel_generator/kernel_source_template.py:438 | a before-call half whose dots stand alone, followed by the marker and any after-call half, is cut back into exactly those two halves |
| Bodies.FragmentLoneDots | xndtools/kernel_generator/kernel_source_template.py:446-533 | no fragment text of the table holds `...` or ends in a dot |
| Bodies.ImplementedCutsIntoHalves | xndtools/kernel_generator/kernel_source_template.py:438-533 | the text of any two fragments around the marker is cut back into those two fragments |
| Bodies.ArrayBodyCutsIntoHalves | xndtools/kernel_generator/kernel_source_template.py:465-533 | every array entry, code or sentinel, is cut at its first marker into its before-call and after-call code |
| Bodies.ScalarRowCutsIntoHalves | xndtools/kernel_generator/kernel_source_template.py:446-462 | every scalar row's entry is cut at its first marker into its before-call and after-call code |
| Bodies.ArgumentBodiesCutIntoHalves | xndtools/kernel_generator/kernel_source_template.py:438-534 | every body an argument draws is cut at its first marker back into its before-call and after-call code |
| Bodies.ArrayTableEntries | xndtools/kernel_generator/kernel_source_template.py:465-534 | exactly five of the 8 × 4 entries are code (input × C, Fortran, Xnd; input_output × Xnd; output × Xnd); every other is the sentinel naming its class and kind |
| Bodies.FreeGuardedByNegatedTest | xndtools/kernel_generator/kernel_source_template.py:466-487 | in the C and Fortran input entries, the copy is freed under the negation of the contiguity test that chose to alias |
| Bodies.AliasGuardOpens | xndtools/kernel_generator/kernel_source_template.py:466-481 | the alias-or-copy text opens with `if (<contiguity test>)` |
| Bodies.FreeGuardInExit | xndtools/kernel_generator/kernel_source_template.py:473-485 | the free-if-copied text contains `if (!<contiguity test>)` followed by `free({name});` |
| Bodies.MatchingArrayBodies | xndtools/kernel_generator/kernel_source_template.py:465-534 | with a default, no array body; without one, the entry of each matching direction class in table order, followed by the hide sentinel exactly when the argument is hidden |
| Bodies.ArrayBodiesOfApplicableClasses | xndtools/kernel_generator/kernel_source_template.py:465-534 | without a default, an array draws the entry of every class whose predicate holds of its tags, and every body it draws is such an entry |
| Bodies.ArrayBodiesOf | xndtools/kernel_generator/kernel_source_template.py:465-533 | one body per listed class, that class's entry for the kind |
| Bodies.ArrayBodyUnique | xndtools/kernel_generator/kernel_source_template.py:465-534 | a non-hidden array argument with one in-tag (or only `output`) draws exactly one body, the entry of its class |
| Bodies.HiddenOutputArrayMatchesTwo | xndtools/kernel_generator/kernel_source_template.py:524-532 | a hidden array output draws its output entry and the hide sentinel |
| Bodies.PickFromIff | xndtools/kernel_generator/kernel_source_template.py:446-462 | from a row on, a body is drawn exactly when an applicable row carries it |
| Bodies.ScalarRowsInOrder | xndtools/kernel_generator/kernel_source_template.py:446-462 | the scalar rows are tried in source order, each contributing its body when it applies |
| Bodies.ScalarBodiesOfApplicableRows | xndtools/kernel_generator/kernel_source_template.py:446-462 | a scalar draws the body of every applicable row and only those |
| Bodies.ScalarRowsAreOneSided | xndtools/kernel_generator/kernel_source_template.py:449-460 | an implemented scalar row has exactly one non-empty half: reads and defaults before the call, write-backs after it |
| Bodies.CompoundScalarDefaultRejected | xndtools/kernel_generator/kernel_source_template.py:451-454 | a compound input-and-output scalar with a default always draws a `NOTIMPLEMENTED_..._VALUE` sentinel |
| Bodies.ScalarBodiesOfInput | xndtools/kernel_generator/kernel_source_template.py:450-456 | a plain input scalar reads its input, falling back on the default when it has one |
| Bodies.ScalarBodiesOfInOut | xndtools/kernel_generator/kernel_source_template.py:456-459 | an `inout` scalar is read before the call and written back to its input slot after it |
| Bodies.ScalarBodiesOfOutput | xndtools/kernel_generator/kernel_source_template.py:455-460 | a plain output scalar is only written back to its output slot |
| Bodies.ScalarBodiesOfHide | xndtools/kernel_generator/kernel_source_template.py:449-457 | a hidden scalar only takes its default, and draws nothing without one |
| Bodies.ArgumentBodies | xndtools/kernel_generator/kernel_source_template.py:446-534 | a scalar or scalar pointer draws the scalar rows, an array draws the array entries (none with a default), and any other argument draws nothing |
| Bodies.ArgumentBodyMembership | xndtools/kernel_generator/kernel_source_template.py:446-534 | a body is drawn exactly when an applicable scalar row carries it (scalar family) or it is the entry of a class whose predicate holds (array without a default) |
| Kernels.DimensionSymbolsDistinct | xndtools/kernel_generator/kernel_source_template.py:148 | the alphabet has 25 letters and none twice |
| Kernels.Count | xndtools/kernel_generator/kernel_source_template.py:158-163 | a counter never exceeds the number of arguments |
| Kernels.NewOccsDistinct | xndtools/kernel_generator/kernel_source_template.py:171-173 | `dims_map` never receives a name twice |
| Kernels.NewOccsAppend | xndtools/kernel_generator/kernel_source_template.py:171-173 | a met name is new exactly when `dims_map` does not hold it yet |
| Kernels.LetterTable | xndtools/kernel_generator/kernel_source_template.py:171-173 | the names with letters are exactly the new names |
| Kernels.NoFailureFitsAlphabet | xndtools/kernel_generator/kernel_source_template.py:173 | a pass that raises nothing meets at most 25 names |
| Kernels.NewsAppend | xndtools/kernel_generator/kernel_source_template.py:171-179 | a new name takes the next letter, enters the output or the input bucket by its owner, adds its constraint when its output `depends` contains it, and raises `KeyError` for an output without `depends` |
| Kernels.NewsOverflow | xndtools/kernel_generator/kernel_source_template.py:173 | a 26th new name raises the `IndexError` |
| Kernels.LetterTableCard | xndtools/kernel_generator/kernel_source_template.py:173 | `len(dims_map)` equals the number of new names |
| Kernels.SetDimensions | xndtools/kernel_generator/kernel_source_template.py:167-180 | setting dimensions keeps the shape's length |
| Kernels.SetDimensionsStable | xndtools/kernel_generator/kernel_source_template.py:180 | letters handed out later do not change a shape whose names already have letters |
| Kernels.InitializedArguments | xndtools/kernel_generator/kernel_source_template.py:157-181 | the pass leaves one record per argument |
| Kernels.DimOccsStep | xndtools/kernel_generator/kernel_source_template.py:167-171 | each dimension is met in order and is symbolic exactly when not all digits |
| Kernels.OccurrencesStep | xndtools/kernel_generator/kernel_source_template.py:157-167 | the arguments' dimensions are met argument by argument |
| Kernels.CountStep | xndtools/kernel_generator/kernel_source_template.py:158-163 | each counter grows by one exactly at an argument of its direction |
| Kernels.FailureOfPrefix | xndtools/kernel_generator/kernel_source_template.py:157-180 | an exception met on some arguments is the exception of the whole pass |
| Kernels.OccurrenceIsNamed | xndtools/kernel_generator/kernel_source_template.py:171-173 | a name met again reuses the letter of its first occurrence |
| Kernels.ArgLettered | xndtools/kernel_generator/kernel_source_template.py:167-180 | every symbolic dimension of each argument gets a letter |
| Kernels.AllLettered | xndtools/kernel_generator/kernel_source_template.py:165-180 | every symbolic dimension of every argument gets a letter |
| Kernels.AssignDimension | xndtools/kernel_generator/kernel_source_template.py:168-180 | one inner step raises exactly the pass's first exception; otherwise it keeps the symbol state in step with the names met and sets the dimension to its letter, or to its value when all digits |
| Kernels.AddSymbol | xndtools/kernel_generator/kernel_source_template.py:171-173 | a first-met name takes the next letter, or raises `IndexError` once 25 are taken |
| Kernels.FileSymbol | xndtools/kernel_generator/kernel_source_template.py:174-179 | a new letter joins the right bucket, with its constraint; an output without `depends` raises `KeyError` |
| Kernels.AssignDimensions | xndtools/kernel_generator/kernel_source_template.py:166-181 | the inner loop raises exactly the first exception of its shape; otherwise every symbolic name has a letter and the shape is set from the table |
| Kernels.ShapeFailure | xndtools/kernel_generator/kernel_source_template.py:167-180 | an exception met partway through a shape is the shape's exception |
| Kernels.PositionsExact | xndtools/kernel_generator/kernel_source_template.py:161-164 | `output_args` holds exactly the `is_outany` arguments, each once |
| Kernels.NumberArgument | xndtools/kernel_generator/kernel_source_template.py:157-181 | one outer step numbers the argument with the current counters and sets its shape and `nofitems`, or raises the pass's first exception |
| Kernels.InitializeKernel | xndtools/kernel_generator/kernel_source_template.py:140-199 | the pass raises exactly the first exception of its names; otherwise it returns exactly the `Expected` arguments and symbol entries |
| Kernels.Finish | xndtools/kernel_generator/kernel_source_template.py:182-199 | the symbol entries, the return argument and the output shift give exactly `Expected` |
| Kernels.ShiftedOutputs | xndtools/kernel_generator/kernel_source_template.py:186-199 | after the shift, each `is_outany` argument's output index is raised by the input count, the others are unchanged, and the return argument comes last |
| Kernels.ShiftOutputs | xndtools/kernel_generator/kernel_source_template.py:198-199 | the shift loop raises the output index of exactly the listed arguments by `n` |
| Kernels.ExpectedOfLoop | xndtools/kernel_generator/kernel_source_template.py:182-199 | what the loops leave is what `Expected` describes |
| Kernels.InfoOfSymbols | xndtools/kernel_generator/kernel_source_template.py:182-185 | `symbols`, `nin_symbols`, `nout_symbols` and `constraints` come from the loop's buckets and constraint list |
| Kernels.ShiftedArguments | xndtools/kernel_generator/kernel_source_template.py:198-199 | shifting the outputs of the numbered arguments gives the initialized arguments |
| Kernels.NumberedShift | xndtools/kernel_generator/kernel_source_template.py:198-199 | the shift moves only the output index of an `is_outany` argument, by the input count |
| Kernels.CountMonotone | xndtools/kernel_generator/kernel_source_template.py:158-163 | counters never decrease along the arguments |
| Kernels.NumberingIncreases | xndtools/kernel_generator/kernel_source_template.py:158-163 | a numbered argument's number is below every later count |
| Kernels.NumberingOnto | xndtools/kernel_generator/kernel_source_template.py:158-163 | every number below the count belongs to some numbered argument |
| Kernels.ExpectedNumbered | xndtools/kernel_generator/kernel_source_template.py:157-199 | the pass's result keeps the intents and carries the numbering of the arguments, with the return argument last |
| Kernels.NumberedFields | xndtools/kernel_generator/kernel_source_template.py:157-163 | an argument keeps its intent, and may hold both an input and an output index |
| Kernels.InputNumbering | xndtools/kernel_generator/kernel_source_template.py:157-160 | input indices are 0 .. nin-1, strictly increasing in argument order, each used |
| Kernels.OutputNumbering | xndtools/kernel_generator/kernel_source_template.py:161-199 | output indices are nin .. nin+nout-1, strictly increasing in argument order, each used |
| Kernels.OutputIndexOf | xndtools/kernel_generator/kernel_source_template.py:161-199 | each output index is nin plus the number of outputs before it |
| Kernels.OutputIndicesOnto | xndtools/kernel_generator/kernel_source_template.py:161-199 | every index from nin to nin+nout-1 belongs to some output |
| Kernels.ReturnArgumentAdded | xndtools/kernel_generator/kernel_source_template.py:186-197 | a non-`void` function gains one last argument, `<function_name>_return_value_`, an output only, typed as the function, which `is_argument` excludes |
| Kernels.FailureIff | xndtools/kernel_generator/kernel_source_template.py:171-176 | the pass raises nothing exactly when there are at most 25 names and none is first met in an output without `depends` |
| Kernels.FailureAt | xndtools/kernel_generator/kernel_source_template.py:171-176 | the exception raised is the one of the earliest name that overflows the alphabet or lacks `depends` |
| Kernels.LetterOfNew | xndtools/kernel_generator/kernel_source_template.py:173 | the `i`-th new name gets the `i`-th letter |
| Kernels.LettersDistinct | xndtools/kernel_generator/kernel_source_template.py:173 | distinct names get distinct letters |
| Kernels.LettersPartition | xndtools/kernel_generator/kernel_source_template.py:171-179 | the input and output buckets together hold the first letters of the alphabet, each once |
| Kernels.LettersCount | xndtools/kernel_generator/kernel_source_template.py:182-184 | `nin_symbols + nout_symbols` is the number of distinct symbolic names |
| Kernels.LetterBucket | xndtools/kernel_generator/kernel_source_template.py:174-179 | a name's letter is an output symbol when its first owner is `is_outany`, an input symbol otherwise |
| Kernels.OutSlot | xndtools/kernel_generator/kernel_source_template.py:175-177 | the slot `k` of an output name's constraint is its position in the output bucket |
| Kernels.ConstraintsComplete | xndtools/kernel_generator/kernel_source_template.py:174-177 | every name first met in an output whose `depends` contains it yields `gmk_shapes[k] = value;` |
| Kernels.ConstraintsSound | xndtools/kernel_generator/kernel_source_template.py:174-177 | every constraint comes from such a name |
| Kernels.NewOccsAreFirst | xndtools/kernel_generator/kernel_source_template.py:171-173 | every new name is the first occurrence of its name |
| Kernels.NewOccIn | xndtools/kernel_generator/kernel_source_template.py:171-173 | every new name occurs among the dimensions met |
| Kernels.FirstOccIsNew | xndtools/kernel_generator/kernel_source_template.py:171-173 | every first occurrence is a new name |
| Kernels.NofitemsFactors | xndtools/kernel_generator/kernel_source_template.py:181 | `nofitems` has one factor per dimension |
| Samples.SymbolicNames | xndtools/kernel_generator/kernel_source_template.py:168 | neither `n` nor `n+5` is all digits, so both are symbolic |
| Samples.SumArgOccs | xndtools/kernel_generator/kernel_source_template.py:572-581 | `x` meets `n` and `y` meets `n+5` then `n`, all in inputs |
| Samples.OccurrencesOfFour | xndtools/kernel_generator/kernel_source_template.py:157-181 | of four arguments, only the middle two contribute dimensions when the others have none |
| Samples.SumOccurrences | xndtools/kernel_generator/kernel_source_template.py:567-585 | `example_sum` meets `n`, `n+5`, `n` in that order |
| Samples.NewsOfRepeat | xndtools/kernel_generator/kernel_source_template.py:171-172 | a name met again is not new |
| Samples.SumNews | xndtools/kernel_generator/kernel_source_template.py:567-585 | the new names of `example_sum` are `n` then `n+5` |
| Samples.SymbolsOfTwoInputs | xndtools/kernel_generator/kernel_source_template.py:171-179 | two names first met in inputs take `N` and `M`, both input symbols, with no constraint |
| Samples.SymbolListOfTwo | xndtools/kernel_generator/kernel_source_template.py:182 | two letters are written as `"N", "M"` |
| Samples.InfoOfNews | xndtools/kernel_generator/kernel_source_template.py:182-185 | the symbol entries of a kernel are those of its new names |
| Samples.SumTable | xndtools/kernel_generator/kernel_source_template.py:171-180 | `example_sum` maps `n` to `N` and `n+5` to `M` without raising |
| Samples.SymbolsOfTwoNews | xndtools/kernel_generator/kernel_source_template.py:182-185 | a kernel with two input names has two input symbols, no output symbols and no constraints |
| Samples.ExampleSumSymbols | xndtools/kernel_generator/kernel_source_template.py:563-589 | `example_sum`: `nin_symbols` 2, `nout_symbols` 0, `symbols` `"N", "M"`, no constraints |
| Samples.SumCounts | xndtools/kernel_generator/kernel_source_template.py:158-163 | in `example_sum`, `x` and `y` are the first and second inputs, and no output comes before `r` |
| Samples.SumArguments | xndtools/kernel_generator/kernel_source_template.py:563-589 | the arguments `example_sum` ends with are its own, initialized from the table `n`→`N`, `n+5`→`M` |
| Samples.NumbersOfFour | xndtools/kernel_generator/kernel_source_template.py:157-164 | one unnumbered argument, two inputs then an output are numbered none, 0, 1 and output 2 |
| Samples.ExampleSumNumbers | xndtools/kernel_generator/kernel_source_template.py:563-589 | `n` is unnumbered, `x` and `y` are inputs 0 and 1, and `r` is output 2 after the shift |
| Samples.ExampleSumShapes | xndtools/kernel_generator/kernel_source_template.py:563-589 | `x`'s shape is `[n→N]`, `y`'s is `[n+5→M, n→N]`, and `y`'s `nofitems` is `(n+5)*(n)` |
| Samples.SumDimensions | xndtools/kernel_generator/kernel_source_template.py:575-581 | the shapes of `x` and `y` with their letters, and `y`'s product |
| Samples.ReturnOnly | xndtools/kernel_generator/kernel_source_template.py:186-197 | a kernel without arguments returning a value gains only its return argument and no symbols |
| Samples.FooReturnArgument | xndtools/kernel_generator/kernel_source_template.py:590-596 | `foo`'s return argument is `d_foo_return_value_`, an output of type double, with output index 0 |
| Samples.ExampleFoo | xndtools/kernel_generator/kernel_source_template.py:590-596 | `foo` ends with exactly one argument, its return value at output index 0, and no symbols |

## Left out

- The templating module (`Template`, `Predicate`, `flatten`, lines 8 and 368-555) is not part of this model. `flatten` is sequence concatenation. Its cut of each body entry at the first `...` (line 438) is `CutAtMarker`. The model does not decide whether a guarded list yields every matching entry or only the first: `ArgumentBodies` lists every entry whose guard holds.
- The predicate builders `has`, `type_is`, `kind_is`, `arraytype_is`, `is_symbolic`, `is_variable`, `debug` and `need_constraint` (lines 14-26, 31) appear only where the body table uses them. `has('value')` is a boolean and `kind_is` is the `Kind` of an entry. The others select template text only.
- The C template texts (lines 217-362) and the declaration, argument, type and dimension entries of the templates (lines 380-555, apart from the body table) are output text for a C compiler.
- The `print` diagnostics (lines 93 and 122) and `test()`'s printing are I/O. The cycle warning is the loop's exit without placing every name.
- The order of `''.join(set(lst))` (lines 52-62) is unspecified: `JoinDistinct` may take any order. The set order of `all_deps` (line 86) is handled the same way.
- `initialize_kernels` updates the argument dictionaries in place, and `output_args` aliases them. The model returns updated records instead. When an exception is raised, the source leaves the earlier arguments already updated; the model returns only the exception.
- The emptying of `arguments-list`, `input_utype-list` and `output_utype-list` (lines 201-205) only resets template state.
- A kernel record without `type` is a `KeyError` in the source (line 186). The model's kernel record always has a type.
- A `sorted_list` input whose length is not a multiple of three fails to unpack at line 78. The model takes a sequence of triples.
- `str.isdigit`, `str.strip` and `int()` are modelled on ASCII digits and whitespace only. Python also accepts other Unicode digits and spaces.
- Intent tags are a set. The source's tuple order and repeats do not affect any predicate.
- `Kernels.SetDimension` has a fallback for a symbolic name without a letter, only to make it total. The pass never reaches it, because `AllLettered` gives every name its letter first.
- Strings.ParseInt: its contract states only that an accepted string is not blank after stripping. The value it gives is stated by `IntOfString` for the strings that line 394 writes.
- Kernels.Count, Joins.KindValues, Kernels.SetDimensions and Kernels.InitializedArguments: their own contracts give only length bounds. What they compute is stated by the lemmas about them (`CountStep`, `NumberingOnto`, `KindValuesPartitionLines`, `ExpectedNumbered` and the rest).
