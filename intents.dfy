/** Intent predicates of the kernel generator
    (xndtools/kernel_generator/kernel_source_template.py, lines 14-44).

    An argument carries a collection of intent tags.  The source builds its
    predicates with an overloaded algebra in which `*` is conjunction, `+`
    disjunction and unary `-` negation; here they are plain predicates over
    the set of tags. */
module Intents {

  datatype Intent = Input | Output | InOut | Inplace | Hide

  type Tags = set<Intent>

  // Pure classes: an in-tag without `output`.
  predicate IsInput(t: Tags) { Input in t && Output !in t }
  predicate IsInOut(t: Tags) { InOut in t && Output !in t }
  predicate IsInplace(t: Tags) { Inplace in t && Output !in t }
  predicate IsHide(t: Tags) { Hide in t }
  // `output` with none of the in-tags.
  predicate IsOutput(t: Tags) { Output in t && !(Input in t || InOut in t || Inplace in t) }
  // Compound classes: an in-tag together with `output`.
  predicate IsInputOutput(t: Tags) { Input in t && Output in t }
  predicate IsInOutOutput(t: Tags) { InOut in t && Output in t }
  predicate IsInplaceOutput(t: Tags) { Inplace in t && Output in t }
  // Summary predicates.
  predicate IsInany(t: Tags) { Input in t || InOut in t || Inplace in t }
  predicate IsOutany(t: Tags) { Output in t }

  /** The eight intent classes that key the body table. */
  datatype IntentClass =
    | InputClass | InOutClass | InplaceClass
    | InputOutputClass | InplaceOutputClass | InOutOutputClass
    | OutputClass | HideClass

  /** The intent predicate of each class. */
  predicate Holds(c: IntentClass, t: Tags)
  {
    match c
    case InputClass => IsInput(t)
    case InOutClass => IsInOut(t)
    case InplaceClass => IsInplace(t)
    case InputOutputClass => IsInputOutput(t)
    case InplaceOutputClass => IsInplaceOutput(t)
    case InOutOutputClass => IsInOutOutput(t)
    case OutputClass => IsOutput(t)
    case HideClass => IsHide(t)
  }

  /** The seven classes other than `hide`, in the order the array body
      table lists them (lines 466-527). */
  const DirectionClasses: seq<IntentClass> :=
    [InputClass, InOutClass, InplaceClass, InputOutputClass,
     InplaceOutputClass, InOutOutputClass, OutputClass]

  /** The direction classes whose predicate holds of `t`, in table order. */
  function MatchingClasses(t: Tags): (r: seq<IntentClass>)
    ensures forall c :: c in r <==> c in DirectionClasses && Holds(c, t)
  {
    (if IsInput(t) then [InputClass] else [])
    + (if IsInOut(t) then [InOutClass] else [])
    + (if IsInplace(t) then [InplaceClass] else [])
    + (if IsInputOutput(t) then [InputOutputClass] else [])
    + (if IsInplaceOutput(t) then [InplaceOutputClass] else [])
    + (if IsInOutOutput(t) then [InOutOutputClass] else [])
    + (if IsOutput(t) then [OutputClass] else [])
  }

  /** How many of `input`, `inout`, `inplace` the tags carry. */
  function InTagCount(t: Tags): nat
  {
    (if Input in t then 1 else 0) + (if InOut in t then 1 else 0) + (if Inplace in t then 1 else 0)
  }

  /** With at most one in-tag, at most one direction class holds, and one holds
      exactly when the argument is `is_inany` or `is_outany`; `hide` plays no
      part in it. */
  lemma ClassesPartitionTags(t: Tags)
    requires InTagCount(t) <= 1
    ensures |MatchingClasses(t)| <= 1
    ensures |MatchingClasses(t)| == 1 <==> IsInany(t) || IsOutany(t)
    ensures MatchingClasses(t) == MatchingClasses(t - {Hide})
  {
  }

  /** With two in-tags, two pure classes (or two compound classes) hold at once. */
  lemma TwoInTagsOverlap(t: Tags)
    requires InTagCount(t) == 2
    ensures |MatchingClasses(t)| == 2
  {
  }

  /** The tag sets of the eight classes map one to one onto them; the empty
      set matches none. */
  lemma ClassOfEachTagSet()
    ensures MatchingClasses({Input}) == [InputClass]
    ensures MatchingClasses({InOut}) == [InOutClass]
    ensures MatchingClasses({Inplace}) == [InplaceClass]
    ensures MatchingClasses({Input, Output}) == [InputOutputClass]
    ensures MatchingClasses({Inplace, Output}) == [InplaceOutputClass]
    ensures MatchingClasses({InOut, Output}) == [InOutOutputClass]
    ensures MatchingClasses({Output}) == [OutputClass]
    ensures MatchingClasses({}) == []
    ensures MatchingClasses({Hide}) == [] && IsHide({Hide})
  {
  }
}
