/** Argument records of a kernel description and the shape predicates over
    them (xndtools/kernel_generator/kernel_source_template.py, lines 27-30
    and 207-211).  An optional dictionary entry of the source is an `Option`
    field here. */
module Arguments {
  import opened Strings
  import opened Intents

  /** One entry of an argument's `shape`: the declared `value` and the
      `dimension` key the generator attaches to it. */
  datatype Dim = Dim(value: string, dimension: Option<string>)

  datatype Arg = Arg(
    name: string,
    intent: Tags,
    typ: Option<string>,
    leftModifier: Option<string>,
    rightModifier: Option<string>,
    shape: Option<seq<Dim>>,
    value: Option<string>,
    depends: Option<string>,
    inputIndex: Option<int>,
    outputIndex: Option<int>,
    nofitems: Option<string>)

  /** Python truthiness of an optional string entry. */
  predicate Truthy(o: Option<string>)
  {
    o.Some? && o.value != ""
  }

  /** `is_scalar`: neither modifier is set. */
  predicate IsScalar(a: Arg)
  {
    !(Truthy(a.leftModifier) || Truthy(a.rightModifier))
  }

  /** `is_scalar_ptr`: a `*` left modifier, no right modifier, no shape. */
  predicate IsScalarPtr(a: Arg)
  {
    a.leftModifier == Some("*") && !Truthy(a.rightModifier) && a.shape.None?
  }

  /** `is_array`: a `*` left modifier and a shape. */
  predicate IsArray(a: Arg)
  {
    a.leftModifier == Some("*") && a.shape.Some?
  }

  const ReturnValueSuffix: string := "_return_value_"

  /** `is_argument`: the name does not end in `_return_value_`. */
  predicate IsArgument(a: Arg)
  {
    !(|a.name| >= |ReturnValueSuffix| && a.name[|a.name| - |ReturnValueSuffix|..] == ReturnValueSuffix)
  }

  /** The scalar family (`is_scalar + is_scalar_ptr`) and `is_array` never
      overlap, so an argument takes its body from at most one of the two
      halves of the body table. */
  lemma ScalarAndArrayDisjoint(a: Arg)
    ensures (IsScalar(a) || IsScalarPtr(a)) ==> !IsArray(a)
  {
  }

  /** A pointer with a right modifier and no shape is neither scalar nor array. */
  lemma UncoveredPointer(a: Arg)
    requires a.leftModifier == Some("*") && Truthy(a.rightModifier) && a.shape.None?
    ensures !IsScalar(a) && !IsScalarPtr(a) && !IsArray(a)
  {
  }

  /** The scalar types `initialize_argument` knows a printf format for. */
  const ScalarTypes: set<string> := {"int32", "int64", "float32", "float64"}

  /** The format table of `initialize_argument`, as a dictionary. */
  const PrintfFormats: map<string, string> :=
    map["int32" := "%d", "int64" := "%ld", "float32" := "%f", "float64" := "%f"]

  /** `initialize_argument`'s `cfmt`: the printf format of a scalar's type,
      `%p` for everything else; `None` is the `KeyError` of a scalar whose
      type is missing or not in the table. */
  function Cfmt(a: Arg): (r: Option<string>)
    ensures !IsScalar(a) ==> r == Some("%p")
    ensures IsScalar(a) ==> (r.Some? <==> a.typ.Some? && a.typ.value in ScalarTypes)
    ensures IsScalar(a) && r.Some? ==> r.value in {"%d", "%ld", "%f"}
    ensures IsScalar(a) && a.typ == Some("int32") ==> r == Some("%d")
    ensures IsScalar(a) && a.typ == Some("int64") ==> r == Some("%ld")
    ensures IsScalar(a) && a.typ.Some? && a.typ.value in {"float32", "float64"} ==> r == Some("%f")
    ensures IsScalar(a) ==>
      r == (if a.typ.Some? && a.typ.value in PrintfFormats then Some(PrintfFormats[a.typ.value]) else None)
  {
    if IsScalar(a) then
      match a.typ
      case None => None
      case Some(t) =>
        if t == "int32" then Some("%d")
        else if t == "int64" then Some("%ld")
        else if t == "float32" || t == "float64" then Some("%f")
        else None
    else Some("%p")
  }
}
