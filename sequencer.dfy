/** `sorted_list` (xndtools/kernel_generator/kernel_source_template.py,
    lines 64-103): orders the `[statement, name, dependencies]` triples of a
    generated section so that every statement comes after the statements of
    the names it depends on.

    The source works in three steps, each a method here: it collects the
    triples into dictionaries (lines 75-85), gives every name that occurs
    only as a dependency an empty dependency set (lines 86-88), and then
    places names pass after pass until a pass adds nothing (lines 89-101).
    Python's dictionaries are a map together with the sequence of its keys in
    insertion order. */
module Sequencer {
  import opened Strings
  import opened Collections

  /** One `[stmt, name, deps]` triple: the statements (already a list of
      lines, concatenated by `flatten`), the name, and a comma-separated
      dependency string. */
  datatype Entry = Entry(stmt: seq<string>, name: string, deps: string)

  /** The dictionary `d`: each name's dependency set. */
  type Graph = map<string, set<string>>

  // ----- the dependency string (lines 80-83) -----

  /** `set(deps.replace(' ', '').split(','))` for a non-empty string, the
      empty set for the empty string. */
  function ParseDeps(s: string): (r: set<string>)
    ensures s == "" <==> r == {}
    ensures forall n :: n in r ==> ' ' !in n && ',' !in n
  {
    if s == "" then {}
    else
      var parts := Split(RemoveChar(s, ' '), ',');
      SplitPiecesWithin(RemoveChar(s, ' '), ',', ' ');
      assert parts[0] in Elems(parts);
      Elems(parts)
  }

  /** A list of names written as `"a, b, c"` reads back as the set of those
      names. */
  lemma DepsOfJoinedNames(names: seq<string>)
    requires |names| >= 1
    requires forall n :: n in names ==> n != "" && ' ' !in n && ',' !in n
    ensures ParseDeps(Join(", ", names)) == set n | n in names
  {
    var s := Join(", ", names);
    if |names| > 1 {
      assert s == names[0] + ", " + Join(", ", names[1..]);
    }
    assert names[0] in names;
    assert |s| >= |names[0]| > 0;
    RemoveCharOfJoin(", ", names, ' ');
    assert RemoveChar(", ", ' ') == [','];
    SplitOfJoin(names, ',');
  }

  // ----- the dictionaries after the first loop (lines 75-85) -----

  /** The distinct names in first-seen order: the key order of `stmts` and `d`. */
  function Names(es: seq<Entry>): (r: seq<string>)
    ensures Distinct(r)
  {
    if |es| == 0 then []
    else
      var r := Names(es[..|es| - 1]);
      if es[|es| - 1].name in r then r else r + [es[|es| - 1].name]
  }

  /** The keys are exactly the names of the triples. */
  lemma {:induction false} NamesAreDeclared(es: seq<Entry>)
    ensures forall n :: n in Names(es) <==> exists i :: 0 <= i < |es| && es[i].name == n
  {
    if |es| > 0 {
      var init := es[..|es| - 1];
      NamesAreDeclared(init);
      assert forall i :: 0 <= i < |init| ==> init[i] == es[i];
    }
  }

  /** `stmts`: each name's statements, from its last triple. */
  function StmtMap(es: seq<Entry>): (m: map<string, seq<string>>)
    ensures forall n :: n in m <==> n in Names(es)
  {
    if |es| == 0 then map[]
    else StmtMap(es[..|es| - 1])[es[|es| - 1].name := es[|es| - 1].stmt]
  }

  /** `d`: each declared name's dependencies, from its last triple. */
  function DepMap(es: seq<Entry>): (m: Graph)
    ensures forall n :: n in m <==> n in Names(es)
  {
    if |es| == 0 then map[]
    else DepMap(es[..|es| - 1])[es[|es| - 1].name := ParseDeps(es[|es| - 1].deps)]
  }

  /** `all_deps`: every name mentioned as a dependency, by any triple. */
  function AllDeps(es: seq<Entry>): set<string>
  {
    if |es| == 0 then {} else AllDeps(es[..|es| - 1]) + ParseDeps(es[|es| - 1].deps)
  }

  /** A name given twice keeps the statements and dependencies of its last triple. */
  lemma {:induction false} LastEntryWins(es: seq<Entry>, i: nat)
    requires i < |es|
    requires forall j :: i < j < |es| ==> es[j].name != es[i].name
    ensures es[i].name in DepMap(es) && DepMap(es)[es[i].name] == ParseDeps(es[i].deps)
    ensures es[i].name in StmtMap(es) && StmtMap(es)[es[i].name] == es[i].stmt
  {
    if i < |es| - 1 {
      var init := es[..|es| - 1];
      assert forall j :: i < j < |init| ==> init[j] == es[j];
      LastEntryWins(init, i);
    }
  }

  /** The dependencies of a declared name are all in `all_deps`. */
  lemma {:induction false} DepsWithinAllDeps(es: seq<Entry>, n: string)
    requires n in DepMap(es)
    ensures DepMap(es)[n] <= AllDeps(es)
  {
    if |es| > 0 && n != es[|es| - 1].name {
      DepsWithinAllDeps(es[..|es| - 1], n);
    }
  }

  /** `d` after lines 86-88: the declared names with their dependencies, and
      every other name in `all_deps` with no dependencies. */
  function DependencyGraph(es: seq<Entry>): (g: Graph)
    ensures forall n :: n in g <==> n in Names(es) || n in AllDeps(es)
  {
    var dm := DepMap(es);
    map n | n in dm.Keys + AllDeps(es) :: if n in dm then dm[n] else {}
  }

  /** Every dependency is itself a node of the graph. */
  predicate Closed(g: Graph)
  {
    forall n, m :: n in g && m in g[n] ==> m in g
  }

  lemma DependencyGraphClosed(es: seq<Entry>)
    ensures Closed(DependencyGraph(es))
  {
    var g := DependencyGraph(es);
    forall n, m | n in g && m in g[n] ensures m in g {
      if n in DepMap(es) {
        DepsWithinAllDeps(es, n);
      }
    }
  }

  // ----- what the placement loop promises (lines 89-101) -----

  /** Every placed name is a node placed after all of its dependencies. */
  predicate Ordered(g: Graph, lst: seq<string>)
  {
    (forall i :: 0 <= i < |lst| ==> lst[i] in g)
    && forall i :: 0 <= i < |lst| ==> g[lst[i]] <= Elems(lst[..i])
  }

  /** No unplaced name has all of its dependencies placed, so one more pass
      would add nothing. */
  predicate Stuck(g: Graph, lst: seq<string>)
  {
    forall n :: n in g && n !in lst ==> !(g[n] <= Elems(lst))
  }

  /** `[n for n in d if not d[n]]`: the names without dependencies, in key order. */
  function Roots(keys: seq<string>, g: Graph): (r: seq<string>)
    requires forall n :: n in keys ==> n in g
    ensures forall n :: n in r <==> n in keys && g[n] == {}
    ensures Distinct(keys) ==> Distinct(r)
  {
    if |keys| == 0 then []
    else (if g[keys[0]] == {} then [keys[0]] else []) + Roots(keys[1..], g)
  }

  lemma {:induction false} RootsOfConcat(a: seq<string>, b: seq<string>, g: Graph)
    requires forall n :: n in a + b ==> n in g
    ensures Roots(a + b, g) == Roots(a, g) + Roots(b, g)
    decreases |a|, 1
  {
    if |a| > 0 {
      RootsOfConcatStep(a, b, g);
    } else {
      assert a + b == b;
    }
  }

  lemma {:induction false} RootsOfConcatStep(a: seq<string>, b: seq<string>, g: Graph)
    requires |a| > 0 && forall n :: n in a + b ==> n in g
    ensures Roots(a + b, g) == Roots(a, g) + Roots(b, g)
    decreases |a|, 0
  {
    assert (a + b)[1..] == a[1..] + b;
    RootsOfConcat(a[1..], b, g);
  }

  lemma OrderedAppend(g: Graph, lst: seq<string>, n: string)
    requires Ordered(g, lst) && n in g && g[n] <= Elems(lst)
    ensures Ordered(g, lst + [n])
  {
    var l := lst + [n];
    forall i | 0 <= i < |l| ensures g[l[i]] <= Elems(l[..i]) {
      if i < |lst| {
        assert l[..i] == lst[..i];
      } else {
        assert l[..i] == lst;
      }
    }
  }

  lemma RootsOrdered(keys: seq<string>, g: Graph)
    requires forall n :: n in keys ==> n in g
    ensures Ordered(g, Roots(keys, g))
  {
  }

  // ----- the three steps -----

  /** Lines 75-85: one pass over the triples fills `stmts`, `d` (with its
      key order) and `all_deps`. */
  method CollectEntries(es: seq<Entry>)
    returns (stmts: map<string, seq<string>>, d: Graph, keys: seq<string>, allDeps: set<string>)
    ensures stmts == StmtMap(es) && d == DepMap(es)
    ensures keys == Names(es) && allDeps == AllDeps(es)
  {
    stmts, d, keys, allDeps := map[], map[], [], {};
    var i := 0;
    while i < |es|
      invariant 0 <= i <= |es|
      invariant stmts == StmtMap(es[..i]) && d == DepMap(es[..i])
      invariant keys == Names(es[..i]) && allDeps == AllDeps(es[..i])
    {
      var e := es[i];
      CollectStep(es, i);
      stmts := stmts[e.name := e.stmt];
      var deps := ParseDeps(e.deps);
      if e.name !in d {
        keys := keys + [e.name];
      }
      d := d[e.name := deps];
      allDeps := allDeps + deps;
      i := i + 1;
    }
    assert es[..|es|] == es;
  }

  /** What one more triple adds to the four results. */
  lemma CollectStep(es: seq<Entry>, i: nat)
    requires i < |es|
    ensures var e, pre, post := es[i], es[..i], es[..i + 1];
      && StmtMap(post) == StmtMap(pre)[e.name := e.stmt]
      && DepMap(post) == DepMap(pre)[e.name := ParseDeps(e.deps)]
      && Names(post) == (if e.name in DepMap(pre) then Names(pre) else Names(pre) + [e.name])
      && AllDeps(post) == AllDeps(pre) + ParseDeps(e.deps)
  {
    assert es[..i + 1][..i] == es[..i];
  }

  /** Lines 86-88: every name of `all_deps` that is not yet a key of `d` is
      added with no dependencies.  Python walks the set in an unspecified
      order; the choice below may pick any element, so what is proved holds
      for every order. */
  method AddDependencyOnlyNames(keys0: seq<string>, d0: Graph, allDeps: set<string>)
    returns (keys: seq<string>, d: Graph)
    requires Distinct(keys0)
    requires forall n :: n in d0 <==> n in keys0
    ensures Distinct(keys) && (forall n :: n in d <==> n in keys)
    ensures |keys0| <= |keys| && keys[..|keys0|] == keys0
    ensures forall n :: n in keys[|keys0|..] ==> n in allDeps && n !in d0
    ensures forall n :: n in d <==> n in d0 || n in allDeps
    ensures forall n :: n in d ==> d[n] == if n in d0 then d0[n] else {}
  {
    keys, d := keys0, d0;
    var rest := allDeps;
    while rest != {}
      invariant rest <= allDeps
      invariant Distinct(keys) && (forall n :: n in d <==> n in keys)
      invariant |keys0| <= |keys| && keys[..|keys0|] == keys0
      invariant forall n :: n in keys[|keys0|..] ==> n in allDeps && n !in d0
      invariant forall n :: n in d <==> n in d0 || (n in allDeps && n !in rest)
      invariant forall n :: n in d ==> d[n] == if n in d0 then d0[n] else {}
      decreases |rest|
    {
      var n :| n in rest;
      if n !in d {
        keys := keys + [n];
        d := d[n := {}];
      }
      rest := rest - {n};
    }
  }

  /** Lines 96-101, one pass: walk `d` in key order and append every unplaced
      name whose dependencies are all placed, including those placed earlier
      in the same pass.  A pass that appends nothing leaves no name ready. */
  method PlacePass(keys: seq<string>, d: Graph, lst0: seq<string>) returns (lst: seq<string>)
    requires forall n :: n in d <==> n in keys
    requires Distinct(lst0) && Ordered(d, lst0)
    ensures Distinct(lst) && Ordered(d, lst)
    ensures lst0 <= lst
    ensures |lst| == |lst0| ==> Stuck(d, lst)
  {
    lst := lst0;
    var i := 0;
    while i < |keys|
      invariant 0 <= i <= |keys|
      invariant Distinct(lst) && Ordered(d, lst) && lst0 <= lst
      invariant |lst| == |lst0| ==> forall j :: 0 <= j < i ==> keys[j] in lst || !(d[keys[j]] <= Elems(lst))
    {
      var n := keys[i];
      if n !in lst && d[n] <= Elems(lst) {
        OrderedAppend(d, lst, n);
        lst := lst + [n];
      }
      i := i + 1;
    }
  }

  /** Lines 89-101: start from the names without dependencies, then make
      passes until every name is placed or a pass adds nothing (the source
      then prints a warning and gives up on the rest). */
  method PlaceNames(keys: seq<string>, d: Graph) returns (lst: seq<string>)
    requires Distinct(keys)
    requires forall n :: n in d <==> n in keys
    ensures Distinct(lst) && Ordered(d, lst) && Stuck(d, lst)
    ensures Roots(keys, d) <= lst
  {
    DistinctCard(keys);
    assert d.Keys == Elems(keys);
    lst := Roots(keys, d);
    RootsOrdered(keys, d);
    var prev: int := -1; // `n_ = None`
    while |lst| < |d|
      invariant Distinct(lst) && Ordered(d, lst) && Roots(keys, d) <= lst
      invariant prev <= |lst|
      invariant |lst| == prev ==> Stuck(d, lst)
      decreases |d| - |lst|, if prev == |lst| then 0 else 1
    {
      if |lst| == prev {
        break;
      }
      prev := |lst|;
      lst := PlacePass(keys, d, lst);
      DistinctWithin(lst, keys);
    }
    if |lst| >= |d| {
      DistinctWithin(lst, keys);
    }
  }

  /** Line 102: `flatten([stmts[n] for n in lst if n in stmts])`. */
  function Statements(order: seq<string>, stmts: map<string, seq<string>>): seq<string>
  {
    if |order| == 0 then []
    else (if order[0] in stmts then stmts[order[0]] else []) + Statements(order[1..], stmts)
  }

  /** `sorted_list`: the statements of the placed declared names, in placed
      order.  `placed` is the list `lst` of the source: no name twice, every
      name after its dependencies, the dependency-free declared names first
      in first-seen order, and no unplaced name ready to be placed. */
  method SortedList(es: seq<Entry>) returns (res: seq<string>, placed: seq<string>)
    ensures Distinct(placed)
    ensures Ordered(DependencyGraph(es), placed)
    ensures Stuck(DependencyGraph(es), placed)
    ensures Roots(Names(es), DependencyGraph(es)) <= placed
    ensures res == Statements(placed, StmtMap(es))
  {
    var stmts, d0, keys0, allDeps := CollectEntries(es);
    var keys, d := AddDependencyOnlyNames(keys0, d0, allDeps);
    CompletedGraph(es, d);
    var lst := PlaceNames(keys, d);
    DeclaredRootsFirst(keys0, keys, d, lst);
    res := Statements(lst, stmts);
    placed := lst;
  }

  lemma CompletedGraph(es: seq<Entry>, d: Graph)
    requires forall n :: n in d <==> n in DepMap(es) || n in AllDeps(es)
    requires forall n :: n in d ==> d[n] == if n in DepMap(es) then DepMap(es)[n] else {}
    ensures d == DependencyGraph(es)
  {
    var g := DependencyGraph(es);
    assert d.Keys == g.Keys;
    forall n | n in d ensures d[n] == g[n] {
    }
  }

  lemma DeclaredRootsFirst(keys0: seq<string>, keys: seq<string>, d: Graph, lst: seq<string>)
    requires forall n :: n in keys ==> n in d
    requires |keys0| <= |keys| && keys[..|keys0|] == keys0
    requires Roots(keys, d) <= lst
    ensures Roots(keys0, d) <= lst
  {
    assert keys == keys0 + keys[|keys0|..];
    RootsOfConcat(keys0, keys[|keys0|..], d);
  }

  // ----- properties of the result -----

  lemma {:induction false} PlacedByRank(g: Graph, lst: seq<string>, rank: map<string, nat>, n: string)
    requires Closed(g) && Stuck(g, lst)
    requires forall x :: x in g ==> x in rank
    requires forall x, y :: x in g && y in g[x] ==> rank[y] < rank[x]
    requires n in g
    ensures n in lst
    decreases rank[n]
  {
    if n !in lst {
      var m :| m in g[n] && m !in Elems(lst);
      PlacedByRank(g, lst, rank, m);
    }
  }

  /** Without cycles (some ranking puts every dependency below its dependant)
      the loop places every name, so every declared statement appears in the
      result, once. */
  lemma AcyclicAllPlaced(g: Graph, lst: seq<string>, rank: map<string, nat>)
    requires Closed(g) && Stuck(g, lst)
    requires forall x :: x in g ==> x in rank
    requires forall x, y :: x in g && y in g[x] ==> rank[y] < rank[x]
    ensures forall n :: n in g ==> n in lst
  {
    forall n | n in g ensures n in lst {
      PlacedByRank(g, lst, rank, n);
    }
  }

  /** A cycle `c[0] -> c[1] -> ... -> c[|c|-1] -> c[0]`: each name depends on the next. */
  predicate Cycle(g: Graph, c: seq<string>)
  {
    |c| > 0
    && (forall i :: 0 <= i < |c| ==> c[i] in g)
    && (forall i :: 0 <= i < |c| - 1 ==> c[i + 1] in g[c[i]])
    && c[0] in g[c[|c| - 1]]
  }

  /** A dependency of a placed name is placed before it. */
  lemma DependencyPlacedEarlier(g: Graph, lst: seq<string>, p: nat, m: string)
    requires Ordered(g, lst) && p < |lst| && m in g[lst[p]]
    ensures exists q :: 0 <= q < p && lst[q] == m
  {
    assert m in Elems(lst[..p]);
  }

  lemma {:induction false} CycleReachesLast(g: Graph, lst: seq<string>, c: seq<string>, i: nat, p: nat)
    requires Ordered(g, lst) && Cycle(g, c)
    requires i < |c| && p < |lst| && lst[p] == c[i]
    ensures exists q :: 0 <= q <= p && lst[q] == c[|c| - 1]
    decreases |c| - i
  {
    if i < |c| - 1 {
      DependencyPlacedEarlier(g, lst, p, c[i + 1]);
      var q :| 0 <= q < p && lst[q] == c[i + 1];
      CycleReachesLast(g, lst, c, i + 1, q);
    }
  }

  /** The names on a dependency cycle are never placed, so their statements
      are silently left out of the result. */
  lemma CycleNeverPlaced(g: Graph, lst: seq<string>, c: seq<string>)
    requires Distinct(lst) && Ordered(g, lst) && Cycle(g, c)
    ensures forall i :: 0 <= i < |c| ==> c[i] !in lst
  {
    if exists i :: 0 <= i < |c| && c[i] in lst {
      var i :| 0 <= i < |c| && c[i] in lst;
      var p :| 0 <= p < |lst| && lst[p] == c[i];
      CycleReachesLast(g, lst, c, i, p);
      var q :| 0 <= q <= p && lst[q] == c[|c| - 1];
      DependencyPlacedEarlier(g, lst, q, c[0]);
      var q0 :| 0 <= q0 < q && lst[q0] == c[0];
      CycleReachesLast(g, lst, c, 0, q0);
    }
  }

  /** A name without statements, one known only as a dependency, adds nothing
      to the result wherever it is placed. */
  lemma {:induction false} UndeclaredContributesNothing(a: seq<string>, n: string, b: seq<string>, stmts: map<string, seq<string>>)
    requires n !in stmts
    ensures Statements(a + [n] + b, stmts) == Statements(a + b, stmts)
  {
    if |a| == 0 {
      assert a + [n] + b == [n] + b;
      assert ([n] + b)[1..] == b;
      assert a + b == b;
    } else {
      assert (a + [n] + b)[1..] == a[1..] + [n] + b;
      assert (a + b)[1..] == a[1..] + b;
      UndeclaredContributesNothing(a[1..], n, b, stmts);
    }
  }
}
