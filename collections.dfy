/** Facts about sequences without repetitions and about set sizes. */
module Collections {

  /** No element occurs twice. */
  predicate Distinct<T(==)>(s: seq<T>)
  {
    forall i, j :: 0 <= i < j < |s| ==> s[i] != s[j]
  }

  /** Two sequences without repetitions and without common elements
      concatenate into one without repetitions. */
  lemma DistinctConcat<T>(a: seq<T>, b: seq<T>)
    requires Distinct(a) && Distinct(b) && forall x :: x in a ==> x !in b
    ensures Distinct(a + b)
  {
    var s := a + b;
    forall i, j | 0 <= i < j < |s| ensures s[i] != s[j] {
      if j < |a| {
        assert s[i] == a[i] && s[j] == a[j];
      } else if i >= |a| {
        assert s[i] == b[i - |a|] && s[j] == b[j - |a|];
      } else {
        assert s[i] in a && s[j] in b;
      }
    }
  }

  /** The elements of a sequence, as a set (Python's `set(lst)`). */
  function Elems<T>(s: seq<T>): set<T>
  {
    set x | x in s
  }

  /** Appending a new element keeps a sequence without repetitions. */
  lemma DistinctAppend<T>(s: seq<T>, x: T)
    requires Distinct(s) && x !in s
    ensures Distinct(s + [x])
  {
    var t := s + [x];
    forall i, j | 0 <= i < j < |t| ensures t[i] != t[j] {
      if j == |s| {
        assert t[i] == s[i];
      } else {
        assert t[i] == s[i] && t[j] == s[j];
      }
    }
  }

  lemma ElemsAppend<T>(s: seq<T>, x: T)
    ensures Elems(s + [x]) == Elems(s) + {x}
  {
  }

  /** A sequence without repetitions has as many elements as its set. */
  lemma {:induction false} DistinctCard<T>(s: seq<T>)
    requires Distinct(s)
    ensures |set x | x in s| == |s|
  {
    if |s| > 0 {
      var t := s[..|s| - 1];
      assert Distinct(t);
      DistinctCard(t);
      assert (set x | x in s) == (set x | x in t) + {s[|s| - 1]};
      assert s[|s| - 1] !in (set x | x in t);
    }
  }

  /** A subset is no larger than its superset, and equally large only when equal. */
  lemma {:induction false} SubsetCard<T>(a: set<T>, b: set<T>)
    requires a <= b
    ensures |a| <= |b|
    ensures |a| == |b| ==> a == b
    decreases |b|
  {
    if b != {} {
      var x :| x in b;
      SubsetCard(a - {x}, b - {x});
      assert |b - {x}| == |b| - 1;
      if x !in a {
        assert a - {x} == a;
      } else {
        assert |a - {x}| == |a| - 1;
        assert a == (a - {x}) + {x};
        assert b == (b - {x}) + {x};
      }
    }
  }

  /** A sequence without repetitions drawn from another one is no longer;
      when it is as long, it holds every element of the other. */
  lemma DistinctWithin<T>(s: seq<T>, t: seq<T>)
    requires Distinct(s) && Distinct(t)
    requires forall x :: x in s ==> x in t
    ensures |s| <= |t|
    ensures |s| >= |t| ==> forall x :: x in t ==> x in s
  {
    DistinctCard(s);
    DistinctCard(t);
    var a, b := set y | y in s, set y | y in t;
    assert |a| == |s| && |b| == |t|;
    SubsetCard(a, b);
    if |s| >= |t| {
      forall x | x in t ensures x in s {
        assert x in b;
      }
    }
  }
}
