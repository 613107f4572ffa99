/** Python string operations used by the generator: `str.split` on one
    character, `sep.join`, `str.strip`, `str.replace(c, '')`, `str.isdigit`,
    the substring test `a in b`, `int(s)` and `str(n)`. */
module Strings {

  /** Python's `sep.join(parts)`. */
  function Join(sep: string, parts: seq<string>): string
  {
    if |parts| == 0 then ""
    else if |parts| == 1 then parts[0]
    else parts[0] + sep + Join(sep, parts[1..])
  }

  /** Number of occurrences of `c` in `s`. */
  function CountChar(s: string, c: char): nat
  {
    if |s| == 0 then 0 else (if s[0] == c then 1 else 0) + CountChar(s[1..], c)
  }

  /** Python's `s.split(c)` for a one-character separator: the pieces between
      the occurrences of `c`, empty pieces included. */
  function Split(s: string, c: char): (parts: seq<string>)
    ensures |parts| == CountChar(s, c) + 1
    ensures forall p :: p in parts ==> c !in p
  {
    if |s| == 0 then [""]
    else
      var rest := Split(s[1..], c);
      if s[0] == c then [""] + rest
      else [[s[0]] + rest[0]] + rest[1..]
  }

  /** The pieces hold only characters of the split string. */
  lemma {:induction false} SplitPiecesWithin(s: string, c: char, d: char)
    requires d !in s
    ensures forall p :: p in Split(s, c) ==> d !in p
  {
    if |s| > 0 {
      SplitPiecesWithin(s[1..], c, d);
    }
  }

  /** Python's `s.replace(c, '')`. */
  function RemoveChar(s: string, c: char): (r: string)
    ensures c !in r
    ensures |r| == |s| - CountChar(s, c)
    ensures forall x :: x in r ==> x in s
  {
    if |s| == 0 then ""
    else if s[0] == c then RemoveChar(s[1..], c)
    else [s[0]] + RemoveChar(s[1..], c)
  }

  /** The ASCII characters for which Python's `str.isspace` holds. */
  predicate IsSpace(c: char)
  {
    c == ' ' || c == '\t' || c == '\n' || c == '\r' || c == '\U{B}' || c == '\U{C}'
    || ('\U{1C}' <= c <= '\U{1F}')
  }

  function TrimLeft(s: string): (r: string)
    ensures |r| <= |s| && r == s[|s| - |r|..]
    ensures |r| > 0 ==> !IsSpace(r[0])
    ensures forall i :: 0 <= i < |s| - |r| ==> IsSpace(s[i])
  {
    if |s| > 0 && IsSpace(s[0]) then TrimLeft(s[1..]) else s
  }

  function TrimRight(s: string): (r: string)
    ensures |r| <= |s| && r == s[..|r|]
    ensures |r| > 0 ==> !IsSpace(r[|r| - 1])
    ensures forall i :: |r| <= i < |s| ==> IsSpace(s[i])
  {
    if |s| > 0 && IsSpace(s[|s| - 1]) then TrimRight(s[..|s| - 1]) else s
  }

  /** Python's `s.strip()` (ASCII whitespace). */
  function Strip(s: string): (r: string)
  {
    TrimRight(TrimLeft(s))
  }

  /** Python's `s.isdigit()` (ASCII digits): non-empty and digits only. */
  predicate IsDigits(s: string)
  {
    |s| > 0 && forall i :: 0 <= i < |s| ==> '0' <= s[i] <= '9'
  }

  /** Python's substring test `sub in s`. */
  predicate IsInfix(sub: string, s: string)
  {
    sub <= s || (|s| > 0 && IsInfix(sub, s[1..]))
  }

  lemma {:induction false} InfixAt(sub: string, s: string, i: nat)
    requires i + |sub| <= |s| && s[i..i + |sub|] == sub
    ensures IsInfix(sub, s)
  {
    if i > 0 {
      assert s[1..][i - 1..i - 1 + |sub|] == sub;
      InfixAt(sub, s[1..], i - 1);
    }
  }

  lemma {:induction false} InfixHasChar(sub: string, s: string, c: char)
    requires IsInfix(sub, s) && c in sub
    ensures c in s
  {
    if !(sub <= s) {
      InfixHasChar(sub, s[1..], c);
    }
  }

  // ----- split and join are inverse -----

  lemma {:induction false} SplitNoSeparator(s: string, c: char)
    requires c !in s
    ensures Split(s, c) == [s]
  {
    if |s| > 0 {
      SplitNoSeparator(s[1..], c);
      assert [s[0]] + s[1..] == s;
    }
  }

  /** Splitting `p + [c] + t`, where `p` holds no `c`, yields `p` and then the pieces of `t`. */
  lemma {:induction false} SplitAfterPiece(p: string, c: char, t: string)
    requires c !in p
    ensures Split(p + [c] + t, c) == [p] + Split(t, c)
  {
    if |p| == 0 {
      assert p + [c] + t == [c] + t;
      assert ([c] + t)[1..] == t;
    } else {
      assert (p + [c] + t)[1..] == p[1..] + [c] + t;
      SplitAfterPiece(p[1..], c, t);
      assert [p[0]] + p[1..] == p;
    }
  }

  /** `c.join(s.split(c)) == s` for every string. */
  lemma {:induction false} JoinOfSplit(s: string, c: char)
    ensures Join([c], Split(s, c)) == s
  {
    if |s| > 0 {
      var rest := Split(s[1..], c);
      JoinOfSplit(s[1..], c);
      if s[0] == c {
        assert Split(s, c) == [""] + rest;
        if |rest| == 1 {
          assert Join([c], [""] + rest) == "" + [c] + rest[0];
        } else {
          assert ([""] + rest)[1..] == rest;
        }
        assert s == [c] + s[1..];
      } else {
        var parts := [[s[0]] + rest[0]] + rest[1..];
        assert Split(s, c) == parts;
        if |rest| == 1 {
          assert Join([c], parts) == [s[0]] + rest[0];
        } else {
          assert parts[1..] == rest[1..];
          assert Join([c], rest) == rest[0] + [c] + Join([c], rest[1..]);
        }
        assert s == [s[0]] + s[1..];
      }
    }
  }

  /** `c.join(parts).split(c) == parts` when no piece contains `c`. */
  lemma {:induction false} SplitOfJoin(parts: seq<string>, c: char)
    requires |parts| >= 1
    requires forall p :: p in parts ==> c !in p
    ensures Split(Join([c], parts), c) == parts
  {
    if |parts| == 1 {
      SplitNoSeparator(parts[0], c);
    } else {
      SplitOfJoin(parts[1..], c);
      SplitAfterPiece(parts[0], c, Join([c], parts[1..]));
      assert [parts[0]] + parts[1..] == parts;
    }
  }

  lemma {:induction false} RemoveCharConcat(a: string, b: string, c: char)
    ensures RemoveChar(a + b, c) == RemoveChar(a, c) + RemoveChar(b, c)
  {
    if |a| > 0 {
      assert (a + b)[1..] == a[1..] + b;
      RemoveCharConcat(a[1..], b, c);
    } else {
      assert a + b == b;
    }
  }

  /** Removing a character no piece holds only shortens the separators. */
  lemma {:induction false} RemoveCharOfJoin(sep: string, parts: seq<string>, c: char)
    requires forall p :: p in parts ==> c !in p
    ensures RemoveChar(Join(sep, parts), c) == Join(RemoveChar(sep, c), parts)
  {
    if |parts| == 1 {
      RemoveAbsentChar(parts[0], c);
    } else if |parts| > 1 {
      RemoveCharOfJoin(sep, parts[1..], c);
      RemoveCharConcat(parts[0] + sep, Join(sep, parts[1..]), c);
      RemoveCharConcat(parts[0], sep, c);
      RemoveAbsentChar(parts[0], c);
    }
  }

  // ----- counting characters in joins -----

  lemma {:induction false} CountCharConcat(a: string, b: string, c: char)
    ensures CountChar(a + b, c) == CountChar(a, c) + CountChar(b, c)
  {
    if |a| > 0 {
      assert (a + b)[1..] == a[1..] + b;
      CountCharConcat(a[1..], b, c);
    } else {
      assert a + b == b;
    }
  }

  lemma {:induction false} CountCharAbsent(s: string, c: char)
    requires c !in s
    ensures CountChar(s, c) == 0
  {
    if |s| > 0 {
      CountCharAbsent(s[1..], c);
    }
  }

  lemma MultiplyStep(m: int, n: int)
    ensures (m + 1) * n == n + m * n
  {
  }

  /** When no piece contains `c`, `sep.join(parts)` holds `c` exactly as often
      as the separators do. */
  lemma {:induction false} JoinCountsSeparators(sep: string, parts: seq<string>, c: char)
    requires |parts| >= 1
    requires forall p :: p in parts ==> c !in p
    ensures CountChar(Join(sep, parts), c) == (|parts| - 1) * CountChar(sep, c)
  {
    CountCharAbsent(parts[0], c);
    if |parts| > 1 {
      var rest := parts[1..];
      assert forall p :: p in rest ==> p in parts;
      JoinCountsSeparators(sep, rest, c);
      var tail := Join(sep, rest);
      assert Join(sep, parts) == parts[0] + sep + tail;
      CountCharConcat(parts[0] + sep, tail, c);
      CountCharConcat(parts[0], sep, c);
      MultiplyStep(|rest| - 1, CountChar(sep, c));
    }
  }

  lemma {:induction false} JoinContainsPiece(sep: string, parts: seq<string>, c: char, k: nat)
    requires k < |parts| && c in parts[k]
    ensures c in Join(sep, parts)
  {
    if |parts| > 1 {
      if k > 0 {
        JoinContainsPiece(sep, parts[1..], c, k - 1);
      }
      assert Join(sep, parts) == parts[0] + sep + Join(sep, parts[1..]);
    }
  }

  lemma {:induction false} JoinAvoidsChar(sep: string, parts: seq<string>, c: char)
    requires c !in sep
    requires forall p :: p in parts ==> c !in p
    ensures c !in Join(sep, parts)
  {
    if |parts| > 1 {
      JoinAvoidsChar(sep, parts[1..], c);
      assert Join(sep, parts) == parts[0] + sep + Join(sep, parts[1..]);
    }
  }

  // ----- decimal integers: Python's str(n) and int(s) -----

  function DigitChar(d: nat): (c: char)
    requires d < 10
    ensures '0' <= c <= '9'
  {
    ['0', '1', '2', '3', '4', '5', '6', '7', '8', '9'][d]
  }

  function DigitValue(c: char): nat
    requires '0' <= c <= '9'
  {
    (c as int - '0' as int) as nat
  }

  /** Python's `str(n)` for a non-negative integer. */
  function NatToString(n: nat): (s: string)
    ensures IsDigits(s)
  {
    if n < 10 then [DigitChar(n)] else NatToString(n / 10) + [DigitChar(n % 10)]
  }

  /** The value of a string of decimal digits. */
  function DigitsValue(s: string): nat
    requires forall i :: 0 <= i < |s| ==> '0' <= s[i] <= '9'
  {
    if |s| == 0 then 0 else 10 * DigitsValue(s[..|s| - 1]) + DigitValue(s[|s| - 1])
  }

  lemma DigitRoundTrip(d: nat)
    requires d < 10
    ensures DigitValue(DigitChar(d)) == d
  {
  }

  lemma {:induction false} NatToStringValue(n: nat)
    ensures DigitsValue(NatToString(n)) == n
  {
    var s := NatToString(n);
    DigitRoundTrip(n % 10);
    if n >= 10 {
      NatToStringValue(n / 10);
      assert s[..|s| - 1] == NatToString(n / 10);
    }
  }

  /** Digits with single underscores between them, the form Python's `int`
      accepts after the sign. */
  predicate IsDigitGroups(s: string)
  {
    && |s| > 0 && s[0] != '_' && s[|s| - 1] != '_'
    && (forall i :: 0 <= i < |s| ==> ('0' <= s[i] <= '9') || s[i] == '_')
    && (forall i :: 0 <= i < |s| - 1 ==> !(s[i] == '_' && s[i + 1] == '_'))
  }

  lemma DigitsAreGroups(s: string)
    requires IsDigits(s)
    ensures IsDigitGroups(s)
  {
  }

  function ParseUnsigned(s: string): (r: Option<nat>)
    ensures r.Some? <==> IsDigitGroups(s)
  {
    if IsDigitGroups(s) then
      var digits := RemoveChar(s, '_');
      assert forall i :: 0 <= i < |digits| ==> '0' <= digits[i] <= '9' by {
        forall i | 0 <= i < |digits| ensures '0' <= digits[i] <= '9' {
          assert digits[i] in s && digits[i] != '_';
        }
      }
      Some(DigitsValue(digits))
    else None
  }

  lemma {:induction false} RemoveAbsentChar(s: string, c: char)
    requires c !in s
    ensures RemoveChar(s, c) == s
  {
    if |s| > 0 {
      RemoveAbsentChar(s[1..], c);
      assert [s[0]] + s[1..] == s;
    }
  }

  /** Python's `int(s)` on a decimal string: surrounding whitespace, an
      optional sign, digit groups separated by single underscores. */
  function ParseInt(s: string): (r: Option<int>)
    ensures r.Some? ==> |Strip(s)| > 0
  {
    var t := Strip(s);
    if |t| > 0 && (t[0] == '+' || t[0] == '-') then
      match ParseUnsigned(t[1..])
      case Some(v) => var n: int := v; Some(if t[0] == '-' then -n else n)
      case None => None
    else
      match ParseUnsigned(t)
      case Some(v) => Some(v)
      case None => None
  }

  lemma {:induction false} StripOfDigits(s: string)
    requires IsDigits(s)
    ensures Strip(s) == s
  {
    assert !IsSpace(s[0]) && TrimLeft(s) == s;
    assert !IsSpace(s[|s| - 1]);
  }

  /** `int(str(n)) == n`. */
  lemma IntOfString(n: nat)
    ensures ParseInt(NatToString(n)) == Some(n)
  {
    var s := NatToString(n);
    StripOfDigits(s);
    DigitsAreGroups(s);
    assert '_' !in s;
    RemoveAbsentChar(s, '_');
    NatToStringValue(n);
  }

  datatype Option<T> = None | Some(value: T)
}
