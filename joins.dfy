/** The join functions of the generator
    (xndtools/kernel_generator/kernel_source_template.py, lines 52-129) and
    the two string formats whose output `join_signatures_list` reads back:
    the wrapper name (line 386) and the signature line (line 394). */
module Joins {
  import opened Strings
  import opened Collections

  // ----- join_kernels_list, join_constraints_list (lines 52-62) -----

  /** Concatenation of a list of strings. */
  function Concat(parts: seq<string>): string
  {
    if |parts| == 0 then "" else parts[0] + Concat(parts[1..])
  }

  /** `''.join(set(lst))`: each distinct string once, in an order the source
      leaves to Python's set iteration.  `order` is the order taken; any
      order may be chosen, so what is stated holds for every order. */
  method JoinDistinct(lst: seq<string>) returns (s: string, order: seq<string>)
    ensures Distinct(order) && Elems(order) == Elems(lst)
    ensures s == Concat(order)
  {
    var rest := Elems(lst);
    s, order := "", [];
    while rest != {}
      invariant rest <= Elems(lst)
      invariant Distinct(order) && Elems(order) == Elems(lst) - rest
      invariant s == Concat(order)
      decreases |rest|
    {
      var x :| x in rest;
      ConcatAppend(order, x);
      TakeOne(Elems(lst), rest, order, x);
      s, order := s + x, order + [x];
      rest := rest - {x};
    }
  }

  /** Moving `x` from the strings still to take to the order taken. */
  lemma TakeOne(all: set<string>, rest: set<string>, order: seq<string>, x: string)
    requires rest <= all && x in rest
    requires Distinct(order) && Elems(order) == all - rest
    ensures Distinct(order + [x]) && Elems(order + [x]) == all - (rest - {x})
    ensures rest - {x} <= all && |rest - {x}| < |rest|
  {
    ElemsAppend(order, x);
    DistinctAppend(order, x);
  }

  lemma {:induction false} ConcatAppend(parts: seq<string>, x: string)
    ensures Concat(parts + [x]) == Concat(parts) + x
  {
    if |parts| > 0 {
      assert (parts + [x])[1..] == parts[1..] + [x];
      ConcatAppend(parts[1..], x);
    } else {
      assert parts + [x] == [x];
    }
  }

  // ----- join_dimension_list (lines 127-129) -----

  /** `' * '.join(lst)`. */
  function JoinDimensions(dims: seq<string>): string
  {
    Join(" * ", dims)
  }

  /** With no `*` inside the dimensions, a list of `k` dimensions gives a
      product with `k - 1` multiplication signs. */
  lemma DimensionProductStars(dims: seq<string>)
    requires |dims| >= 1
    requires forall d :: d in dims ==> '*' !in d
    ensures CountChar(JoinDimensions(dims), '*') == |dims| - 1
  {
    JoinCountsSeparators(" * ", dims, '*');
    assert CountChar(" * ", '*') == 1;
  }

  // ----- the wrapper name and the signature line (lines 386, 394) -----

  /** `gmk_{kernel_name}_{ellipses_name}_{arraytype}_{kind}_{function_name}`. */
  function WrapperName(kernelName: string, ellipsesName: string, arraytype: string, kind: string, functionName: string): string
  {
    "gmk_" + kernelName + "_" + ellipsesName + "_" + arraytype + "_" + kind + "_" + functionName
  }

  /** The other four fields fixed, each kind gives its own wrapper name. */
  lemma WrapperNameSeparatesKinds(kernelName: string, ellipsesName: string, arraytype: string, functionName: string, k1: string, k2: string)
    requires WrapperName(kernelName, ellipsesName, arraytype, k1, functionName)
          == WrapperName(kernelName, ellipsesName, arraytype, k2, functionName)
    ensures k1 == k2
  {
    var head := "gmk_" + kernelName + "_" + ellipsesName + "_" + arraytype + "_";
    var tail := "_" + functionName;
    var w1 := WrapperName(kernelName, ellipsesName, arraytype, k1, functionName);
    var w2 := WrapperName(kernelName, ellipsesName, arraytype, k2, functionName);
    assert w1 == head + k1 + tail;
    assert w2 == head + k2 + tail;
    assert |k1| == |k2|;
    assert k1 == w1[|head|..|head| + |k1|];
    assert k2 == w2[|head|..|head| + |k2|];
  }

  /** `'{kernel_name}|{sig}|{nout_symbols}|.{kind} = {wrapper_name}'`. */
  function SignatureLine(kernelName: string, sig: string, noutSymbols: nat, kind: string, wrapperName: string): string
  {
    kernelName + "|" + sig + "|" + NatToString(noutSymbols) + "|" + KindValue(kind, wrapperName)
  }

  /** The kind value of a signature line, `.{kind} = {wrapper_name}`: one
      member initialiser of the C signature table row. */
  function KindValue(kind: string, wrapperName: string): string
  {
    "." + kind + " = " + wrapperName
  }

  // ----- join_signatures_list (lines 105-125) -----

  /** The grouping key `(name, sig, int(nout))`. */
  datatype Key = Key(name: string, sig: string, nout: int)

  /** One signature line split into its key and its kind value. */
  datatype Signature = Signature(key: Key, kindValue: string)

  /** Lines 111-112: `name, sig, nout, kind_value = signature.split('|')` and
      `int(nout)`; `None` where Python raises `ValueError` (not four fields,
      or `nout` not an integer). */
  function ParseSignature(line: string): Option<Signature>
  {
    var f := Split(line, '|');
    if |f| != 4 then None
    else match ParseInt(f[2])
      case None => None
      case Some(n) => Some(Signature(Key(f[0], f[1], n), f[3]))
  }

  /** Only a line with exactly three `|` unpacks into the four names. */
  lemma ParsedLineHasThreeBars(line: string)
    requires ParseSignature(line).Some?
    ensures CountChar(line, '|') == 3
  {
  }

  /** A line written with the format of line 394 parses back into its fields
      when none of them contains `|`. */
  lemma SignatureRoundTrip(kernelName: string, sig: string, noutSymbols: nat, kind: string, wrapperName: string)
    requires '|' !in kernelName && '|' !in sig && '|' !in kind && '|' !in wrapperName
    ensures ParseSignature(SignatureLine(kernelName, sig, noutSymbols, kind, wrapperName))
         == Some(Signature(Key(kernelName, sig, noutSymbols), KindValue(kind, wrapperName)))
  {
    var n := NatToString(noutSymbols);
    var kv := KindValue(kind, wrapperName);
    var fields := [kernelName, sig, n, kv];
    assert forall i :: 0 <= i < |n| ==> n[i] != '|';
    assert '|' !in kv;
    assert Join("|", [n, kv]) == n + "|" + kv;
    assert Join("|", [sig, n, kv]) == sig + "|" + (n + "|" + kv) by {
      assert [sig, n, kv][1..] == [n, kv];
    }
    assert Join("|", fields) == kernelName + "|" + (sig + "|" + (n + "|" + kv)) by {
      assert fields[1..] == [sig, n, kv];
    }
    var line := SignatureLine(kernelName, sig, noutSymbols, kind, wrapperName);
    assert line == kernelName + "|" + (sig + "|" + (n + "|" + kv));
    SplitOfJoin(fields, '|');
    assert Split(line, '|') == fields;
    IntOfString(noutSymbols);
    assert ParseInt(fields[2]) == Some(noutSymbols as int);
  }

  /** Line 121: `s.split('=')[0].strip()[1:]`, the kind named by a kind value. */
  function KindOf(kindValue: string): string
  {
    var t := Strip(Split(kindValue, '=')[0]);
    if |t| == 0 then "" else t[1..]
  }

  /** The kind of a kind value built at line 394 is recovered when it holds no
      `=` and does not end in white space. */
  lemma KindRecovered(kind: string, wrapperName: string)
    requires '=' !in kind
    requires |kind| > 0 ==> !IsSpace(kind[|kind| - 1])
    ensures KindOf(KindValue(kind, wrapperName)) == kind
  {
    KindValueHead(kind, wrapperName);
    StripOfDotted(kind);
    assert ("." + kind)[1..] == kind;
  }

  /** The text before the first `=` of a kind value. */
  lemma KindValueHead(kind: string, wrapperName: string)
    requires '=' !in kind
    ensures Split(KindValue(kind, wrapperName), '=')[0] == "." + kind + " "
  {
    var head := "." + kind + " ";
    assert KindValue(kind, wrapperName) == head + ['='] + (" " + wrapperName);
    SplitAfterPiece(head, '=', " " + wrapperName);
  }

  /** `.{kind} ` strips to `.{kind}` when `kind` does not end in white space. */
  lemma StripOfDotted(kind: string)
    requires |kind| > 0 ==> !IsSpace(kind[|kind| - 1])
    ensures Strip("." + kind + " ") == "." + kind
  {
    var head := "." + kind + " ";
    var x := "." + kind;
    assert TrimLeft(head) == head;
    assert head[..|head| - 1] == x;
    assert TrimRight(head) == TrimRight(x);
    assert !IsSpace(x[|x| - 1]);
    assert TrimRight(x) == x;
  }

  /** The distinct keys in first-seen order: the key order of `sig_kindmap`. */
  function GroupKeys(sigs: seq<Signature>): seq<Key>
  {
    if |sigs| == 0 then []
    else
      var r := GroupKeys(sigs[..|sigs| - 1]);
      if sigs[|sigs| - 1].key in r then r else r + [sigs[|sigs| - 1].key]
  }

  /** No key is listed twice. */
  lemma {:induction false} GroupKeysDistinct(sigs: seq<Signature>)
    ensures Distinct(GroupKeys(sigs))
  {
    if |sigs| > 0 {
      GroupKeysDistinct(sigs[..|sigs| - 1]);
    }
  }

  /** The keys are exactly those of the lines. */
  lemma {:induction false} GroupKeysOfLines(sigs: seq<Signature>)
    ensures forall k :: k in GroupKeys(sigs) <==> exists i :: 0 <= i < |sigs| && sigs[i].key == k
  {
    if |sigs| > 0 {
      var init := sigs[..|sigs| - 1];
      GroupKeysOfLines(init);
      assert forall i :: 0 <= i < |init| ==> init[i] == sigs[i];
    }
  }

  /** `sig_kindmap[k]`: the kind values of key `k`, in input order,
      duplicates kept. */
  function KindValues(sigs: seq<Signature>, k: Key): (r: seq<string>)
    ensures |r| <= |sigs|
  {
    if |sigs| == 0 then []
    else
      KindValues(sigs[..|sigs| - 1], k)
        + (if sigs[|sigs| - 1].key == k then [sigs[|sigs| - 1].kindValue] else [])
  }

  /** Every line's kind value lands in its key's group: the group sizes add up
      to the number of lines. */
  lemma {:induction false} KindValuesPartitionLines(sigs: seq<Signature>)
    ensures TotalKindValues(sigs, GroupKeys(sigs)) == |sigs|
  {
    if |sigs| > 0 {
      var init := sigs[..|sigs| - 1];
      var s := sigs[|sigs| - 1];
      KindValuesPartitionLines(init);
      GroupStep(init, s);
      assert init + [s] == sigs;
      GroupKeysDistinct(init);
      TotalStep(init, s, GroupKeys(init));
      if s.key !in GroupKeys(init) {
        TotalAppendKey(sigs, GroupKeys(init), s.key);
        KindValuesOfNewKey(init, s.key);
      }
    }
  }

  /** The number of kind values over the groups of `keys`. */
  function TotalKindValues(sigs: seq<Signature>, keys: seq<Key>): nat
  {
    if |keys| == 0 then 0 else |KindValues(sigs, keys[0])| + TotalKindValues(sigs, keys[1..])
  }

  lemma {:induction false} TotalStep(sigs: seq<Signature>, s: Signature, keys: seq<Key>)
    requires Distinct(keys)
    ensures TotalKindValues(sigs + [s], keys) == TotalKindValues(sigs, keys) + (if s.key in keys then 1 else 0)
  {
    if |keys| > 0 {
      GroupStep(sigs, s);
      TotalStep(sigs, s, keys[1..]);
      assert s.key in keys <==> s.key == keys[0] || s.key in keys[1..];
    }
  }

  lemma {:induction false} TotalAppendKey(sigs: seq<Signature>, keys: seq<Key>, k: Key)
    ensures TotalKindValues(sigs, keys + [k]) == TotalKindValues(sigs, keys) + |KindValues(sigs, k)|
  {
    if |keys| > 0 {
      assert (keys + [k])[1..] == keys[1..] + [k];
      TotalAppendKey(sigs, keys[1..], k);
    } else {
      assert keys + [k] == [k];
    }
  }

  /** A key not yet seen has no kind values. */
  lemma {:induction false} KindValuesOfNewKey(sigs: seq<Signature>, k: Key)
    requires k !in GroupKeys(sigs)
    ensures KindValues(sigs, k) == []
  {
    if |sigs| > 0 {
      KindValuesOfNewKey(sigs[..|sigs| - 1], k);
    }
  }

  const NullRow: string := "{ .name = NULL, .sig = NULL }"

  /** `.constraint = &gmk_{name}_constraint, `: the reference to the kernel's
      constraint function. */
  function ConstraintRef(name: string): string
  {
    ".constraint = &gmk_" + name + "_constraint, "
  }

  /** Lines 116-119: one row of the signature table. */
  function Row(k: Key, kindValues: seq<string>): string
  {
    "{ .name = \"" + k.name + "\", .sig = \"" + k.sig + "\", "
      + (if k.nout > 0 then ConstraintRef(k.name) else "")
      + Join(", ", kindValues) + " }"
  }

  /** A row refers to the constraint function exactly when `nout > 0`. */
  lemma ConstraintRefIff(k: Key, kindValues: seq<string>)
    requires '&' !in k.name && '&' !in k.sig
    requires forall v :: v in kindValues ==> '&' !in v
    ensures k.nout > 0 <==> IsInfix(ConstraintRef(k.name), Row(k, kindValues))
  {
    var head := "{ .name = \"" + k.name + "\", .sig = \"" + k.sig + "\", ";
    var kinds := Join(", ", kindValues);
    JoinAvoidsChar(", ", kindValues, '&');
    assert '&' !in head;
    if k.nout > 0 {
      var row := Row(k, kindValues);
      assert row == head + ConstraintRef(k.name) + (kinds + " }");
      assert row[|head|..|head| + |ConstraintRef(k.name)|] == ConstraintRef(k.name);
      InfixAt(ConstraintRef(k.name), row, |head|);
    } else {
      assert Row(k, kindValues) == head + kinds + " }";
      assert '&' !in Row(k, kindValues);
      assert '&' in ConstraintRef(k.name);
      if IsInfix(ConstraintRef(k.name), Row(k, kindValues)) {
        InfixHasChar(ConstraintRef(k.name), Row(k, kindValues), '&');
      }
    }
  }

  /** The rows of the groups of `keys`, in key order. */
  function KeyRows(sigs: seq<Signature>, keys: seq<Key>): (r: seq<string>)
    ensures |r| == |keys|
  {
    if |keys| == 0 then []
    else KeyRows(sigs, keys[..|keys| - 1]) + [Row(keys[|keys| - 1], KindValues(sigs, keys[|keys| - 1]))]
  }

  /** The rows of the table: one per key, then the NULL sentinel. */
  function Rows(sigs: seq<Signature>): seq<string>
  {
    KeyRows(sigs, GroupKeys(sigs)) + [NullRow]
  }

  lemma {:induction false} KeyRowAt(sigs: seq<Signature>, keys: seq<Key>, i: nat)
    requires i < |keys|
    ensures KeyRows(sigs, keys)[i] == Row(keys[i], KindValues(sigs, keys[i]))
  {
    if i < |keys| - 1 {
      KeyRowAt(sigs, keys[..|keys| - 1], i);
    }
  }

  /** One row per group, in first-seen key order, the sentinel last. */
  lemma RowsOfGroups(sigs: seq<Signature>)
    ensures var r := Rows(sigs);
      && |r| == |GroupKeys(sigs)| + 1 && r[|r| - 1] == NullRow
      && forall i :: 0 <= i < |GroupKeys(sigs)| ==>
           r[i] == Row(GroupKeys(sigs)[i], KindValues(sigs, GroupKeys(sigs)[i]))
  {
    var keys := GroupKeys(sigs);
    forall i | 0 <= i < |keys|
      ensures Rows(sigs)[i] == Row(keys[i], KindValues(sigs, keys[i]))
    {
      KeyRowAt(sigs, keys, i);
    }
  }

  /** Every line parsed by `parse`, or `None` at the first one it rejects. */
  function ParseEach(lines: seq<string>, parse: string -> Option<Signature>): (r: Option<seq<Signature>>)
    ensures r.Some? ==> |r.value| == |lines|
  {
    if |lines| == 0 then Some([])
    else
      match ParseEach(lines[..|lines| - 1], parse)
      case None => None
      case Some(sigs) =>
        match parse(lines[|lines| - 1])
        case None => None
        case Some(s) => Some(sigs + [s])
  }

  /** Every line parsed, or `None` when Python rejects one of them. */
  function ParseAll(lines: seq<string>): Option<seq<Signature>>
  {
    ParseEach(lines, ParseSignature)
  }

  /** The lines parse exactly when each of them does. */
  lemma ParseAllIff(lines: seq<string>)
    ensures ParseAll(lines).Some? <==> forall i :: 0 <= i < |lines| ==> ParseSignature(lines[i]).Some?
  {
    ParseEachIff(lines, ParseSignature);
  }

  /** Each line parses into its own signature, in order. */
  lemma ParseAllInOrder(lines: seq<string>, i: nat)
    requires ParseAll(lines).Some? && i < |lines|
    ensures ParseSignature(lines[i]) == Some(ParseAll(lines).value[i])
  {
    ParseEachInOrder(lines, ParseSignature, i);
  }

  lemma {:induction false} ParseEachIff(lines: seq<string>, parse: string -> Option<Signature>)
    ensures ParseEach(lines, parse).Some? <==> forall i :: 0 <= i < |lines| ==> parse(lines[i]).Some?
  {
    if ParseEach(lines, parse).Some? {
      forall i | 0 <= i < |lines| ensures parse(lines[i]).Some? {
        ParseEachInOrder(lines, parse, i);
      }
    } else {
      var init := lines[..|lines| - 1];
      if ParseEach(init, parse).None? {
        ParseEachIff(init, parse);
        var j :| 0 <= j < |init| && parse(init[j]).None?;
        assert init[j] == lines[j];
      } else {
        assert parse(lines[|lines| - 1]).None?;
      }
    }
  }

  lemma {:induction false} ParseEachInOrder(lines: seq<string>, parse: string -> Option<Signature>, i: nat)
    requires ParseEach(lines, parse).Some? && i < |lines|
    ensures parse(lines[i]) == Some(ParseEach(lines, parse).value[i])
  {
    var init := lines[..|lines| - 1];
    var sigs := ParseEach(lines, parse).value;
    if i < |init| {
      ParseEachInOrder(init, parse, i);
      assert init[i] == lines[i];
      assert sigs[i] == ParseEach(init, parse).value[i];
    }
  }

  lemma ParseEachStep(lines: seq<string>, parse: string -> Option<Signature>, i: nat)
    requires i < |lines|
    ensures ParseEach(lines[..i + 1], parse) ==
      match ParseEach(lines[..i], parse)
      case None => None
      case Some(sigs) =>
        match parse(lines[i])
        case None => None
        case Some(s) => Some(sigs + [s])
  {
    assert lines[..i + 1][..i] == lines[..i];
  }

  /** Once a prefix fails to parse, so does every longer one. */
  lemma {:induction false} NoParseOfLonger(lines: seq<string>, parse: string -> Option<Signature>, i: nat, k: nat)
    requires i <= k <= |lines| && ParseEach(lines[..i], parse).None?
    ensures ParseEach(lines[..k], parse).None?
    decreases k - i
  {
    if i < k {
      ParseEachStep(lines, parse, i);
      NoParseOfLonger(lines, parse, i + 1, k);
    }
  }

  /** Adding one parsed line to the grouping. */
  lemma GroupStep(sigs: seq<Signature>, s: Signature)
    ensures GroupKeys(sigs + [s]) == if s.key in GroupKeys(sigs) then GroupKeys(sigs) else GroupKeys(sigs) + [s.key]
    ensures forall k :: KindValues(sigs + [s], k) == KindValues(sigs, k) + (if s.key == k then [s.kindValue] else [])
  {
    assert (sigs + [s])[..|sigs|] == sigs;
  }

  /** `keys` and `kindmap` are `sig_kindmap` after the lines of `sigs`: the
      keys in first-seen order, each mapped to its kind values. */
  ghost predicate Grouped(keys: seq<Key>, kindmap: map<Key, seq<string>>, sigs: seq<Signature>)
  {
    && keys == GroupKeys(sigs)
    && (forall k :: k in kindmap <==> k in keys)
    && (forall k :: k in kindmap ==> kindmap[k] == KindValues(sigs, k))
  }

  /** Line 113: `sig_kindmap[name,sig,int(nout)].append(kind_value)`. */
  method AddToGroup(keys0: seq<Key>, kindmap0: map<Key, seq<string>>, ghost sigs: seq<Signature>, s: Signature)
    returns (keys: seq<Key>, kindmap: map<Key, seq<string>>)
    requires Grouped(keys0, kindmap0, sigs)
    ensures Grouped(keys, kindmap, sigs + [s])
  {
    GroupStep(sigs, s);
    keys := keys0;
    var group := if s.key in kindmap0 then kindmap0[s.key] else [];
    if s.key !in kindmap0 {
      KindValuesOfNewKey(sigs, s.key);
      keys := keys + [s.key];
    }
    kindmap := kindmap0[s.key := group + [s.kindValue]];
  }

  /** Lines 109-113: parse each line and append its kind value to the group
      of its key, creating the group on first sight; `None` at the first
      line Python rejects. */
  method GroupSignatures(lines: seq<string>)
    returns (r: Option<(seq<Key>, map<Key, seq<string>>)>, ghost sigs: seq<Signature>)
    ensures r.None? <==> ParseAll(lines).None?
    ensures r.Some? ==> ParseAll(lines) == Some(sigs)
    ensures r.Some? ==> Grouped(r.value.0, r.value.1, sigs)
  {
    var keys: seq<Key> := [];
    var kindmap: map<Key, seq<string>> := map[];
    sigs := [];
    var i := 0;
    while i < |lines|
      invariant 0 <= i <= |lines|
      invariant ParseAll(lines[..i]) == Some(sigs)
      invariant Grouped(keys, kindmap, sigs)
    {
      ParseEachStep(lines, ParseSignature, i);
      var parsed := ParseSignature(lines[i]);
      if parsed.None? {
        NoParseOfLonger(lines, ParseSignature, i + 1, |lines|);
        assert lines[..|lines|] == lines;
        return None, sigs;
      }
      var s := parsed.value;
      keys, kindmap := AddToGroup(keys, kindmap, sigs, s);
      sigs := sigs + [s];
      i := i + 1;
    }
    assert lines[..|lines|] == lines;
    r := Some((keys, kindmap));
  }

  /** Lines 115-124: one row per group in key order, then the sentinel. */
  method RenderRows(keys: seq<Key>, kindmap: map<Key, seq<string>>, ghost sigs: seq<Signature>)
    returns (rows: seq<string>)
    requires Grouped(keys, kindmap, sigs)
    ensures rows == Rows(sigs)
  {
    rows := [];
    var j := 0;
    while j < |keys|
      invariant 0 <= j <= |keys|
      invariant rows == KeyRows(sigs, keys[..j])
    {
      assert keys[..j + 1][..j] == keys[..j];
      rows := rows + [Row(keys[j], kindmap[keys[j]])];
      j := j + 1;
    }
    assert keys[..|keys|] == keys;
    rows := rows + [NullRow];
  }

  /** `join_signatures_list`: the rows of the parsed lines joined by
      `",\n  "`, or `None` where a line is malformed. */
  method JoinSignatures(lines: seq<string>) returns (r: Option<string>)
    ensures r.None? <==> ParseAll(lines).None?
    ensures r.Some? ==> r.value == Join(",\n  ", Rows(ParseAll(lines).value))
  {
    var grouped, sigs := GroupSignatures(lines);
    if grouped.None? {
      return None;
    }
    var rows := RenderRows(grouped.value.0, grouped.value.1, sigs);
    r := Some(Join(",\n  ", rows));
  }
}
