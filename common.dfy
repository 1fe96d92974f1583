/** Shared building blocks: failure-carrying results, the HTTP outcome of a view,
    Python's `str(int)` and order-preserving filtering of rows and querysets. */
module Common {

  datatype Option<+T> = None | Some(value: T)

  datatype Result<+T, +E> = Success(value: T) | Failure(error: E)

  /** The status code a view answers with (the JSON body is not modelled). */
  datatype Status =
    | Ok           // 200
    | Created      // 201
    | NoContent    // 204
    | BadRequest   // 400
    | NotFound     // 404
    | ServerError  // 500: an exception the REST framework does not translate

  // ---------------------------------------------------------------------------
  // Decimal rendering of integers, as an f-string renders an `int`.

  predicate IsDigit(c: char) {
    '0' <= c <= '9'
  }

  predicate AllDigits(s: string) {
    forall i :: 0 <= i < |s| ==> IsDigit(s[i])
  }

  /** The number a string of decimal digits denotes. */
  function DigitsValue(s: string): nat
    requires AllDigits(s)
  {
    if s == [] then 0
    else DigitsValue(s[..|s| - 1]) * 10 + (s[|s| - 1] as int - '0' as int)
  }

  function DigitChar(d: nat): (c: char)
    requires d < 10
    ensures IsDigit(c) && c as int - '0' as int == d
  {
    (d + '0' as int) as char
  }

  /** `str(n)` for a non-negative `n`: the shortest decimal spelling. */
  function NatToString(n: nat): (s: string)
    ensures |s| > 0 && AllDigits(s)
    ensures DigitsValue(s) == n
    ensures s[0] == '0' ==> s == "0"
  {
    if n < 10 then [DigitChar(n)]
    else
      var prefix := NatToString(n / 10);
      var s := prefix + [DigitChar(n % 10)];
      assert s[..|s| - 1] == prefix;
      s
  }

  /** `str(i)` for any integer: a minus sign, then the digits of `|i|`. */
  function IntToString(i: int): (s: string)
    ensures |s| > 0
    ensures i < 0 <==> s[0] == '-'
    ensures i < 0 ==> AllDigits(s[1..]) && DigitsValue(s[1..]) == -i
    ensures i >= 0 ==> AllDigits(s) && DigitsValue(s) == i
  {
    if i < 0 then
      var s := "-" + NatToString(-i);
      assert s[1..] == NatToString(-i);
      s
    else NatToString(i)
  }

  // ---------------------------------------------------------------------------
  // Order-preserving selection, the shape of every `.filter(...)` on a queryset.

  function Filter<T(!new)>(s: seq<T>, keep: T -> bool): (r: seq<T>)
    ensures |r| <= |s|
    ensures forall x :: x in r <==> x in s && keep(x)
    ensures forall i :: 0 <= i < |r| ==> keep(r[i])
  {
    if s == [] then []
    else (if keep(s[0]) then [s[0]] else []) + Filter(s[1..], keep)
  }

  lemma {:induction false} FilterAppend<T(!new)>(a: seq<T>, b: seq<T>, keep: T -> bool)
    ensures Filter(a + b, keep) == Filter(a, keep) + Filter(b, keep)
  {
    if a == [] {
      assert a + b == b;
    } else {
      assert (a + b)[0] == a[0];
      assert (a + b)[1..] == a[1..] + b;
      FilterAppend(a[1..], b, keep);
    }
  }

  /** Filtering keeps everything when every element passes. */
  lemma {:induction false} FilterKeepsAll<T(!new)>(s: seq<T>, keep: T -> bool)
    requires forall i :: 0 <= i < |s| ==> keep(s[i])
    ensures Filter(s, keep) == s
  {
    if s != [] {
      FilterKeepsAll(s[1..], keep);
    }
  }

  /** Filtering drops everything when no element passes. */
  lemma {:induction false} FilterKeepsNone<T(!new)>(s: seq<T>, keep: T -> bool)
    requires forall i :: 0 <= i < |s| ==> !keep(s[i])
    ensures Filter(s, keep) == []
  {
    if s != [] {
      FilterKeepsNone(s[1..], keep);
    }
  }

  /** Two filters that agree on every element of `s` select the same rows. */
  lemma {:induction false} FilterCongruent<T(!new)>(s: seq<T>, p: T -> bool, q: T -> bool)
    requires forall i :: 0 <= i < |s| ==> p(s[i]) == q(s[i])
    ensures Filter(s, p) == Filter(s, q)
  {
    if s != [] {
      FilterCongruent(s[1..], p, q);
    }
  }

  /** A second filter whose rows all pass the first sees through it. */
  lemma {:induction false} FilterThrough<T(!new)>(s: seq<T>, p: T -> bool, q: T -> bool)
    requires forall x :: q(x) ==> p(x)
    ensures Filter(Filter(s, p), q) == Filter(s, q)
  {
    if s != [] {
      FilterThrough(s[1..], p, q);
      var head := if p(s[0]) then [s[0]] else [];
      FilterAppend(head, Filter(s[1..], p), q);
      if p(s[0]) {
        assert head[1..] == [];
      }
    }
  }

  /** Two filters in a row select what their conjunction selects. */
  lemma {:induction false} FilterBoth<T(!new)>(s: seq<T>, p: T -> bool, q: T -> bool, both: T -> bool)
    requires forall x :: both(x) == (p(x) && q(x))
    ensures Filter(Filter(s, p), q) == Filter(s, both)
  {
    if s != [] {
      FilterBoth(s[1..], p, q, both);
      var head := if p(s[0]) then [s[0]] else [];
      FilterAppend(head, Filter(s[1..], p), q);
      if p(s[0]) {
        assert head[1..] == [];
      }
    }
  }

  /** `a` is `s` with some elements left out, the rest in their order. */
  predicate Subsequence<T(==)>(a: seq<T>, s: seq<T>)
    decreases |s|
  {
    || a == []
    || (&& s != []
        && ((a[0] == s[0] && Subsequence(a[1..], s[1..])) || Subsequence(a, s[1..])))
  }

  lemma {:induction false} SubsequenceReflexive<T>(s: seq<T>)
    ensures Subsequence(s, s)
  {
    if s != [] {
      SubsequenceReflexive(s[1..]);
    }
  }

  lemma {:induction false} SubsequenceTransitive<T>(a: seq<T>, b: seq<T>, c: seq<T>)
    requires Subsequence(a, b) && Subsequence(b, c)
    ensures Subsequence(a, c)
    decreases |c|
  {
    if a != [] {
      if Subsequence(b, c[1..]) {
        SubsequenceTransitive(a, b, c[1..]);
      } else if a[0] == b[0] && Subsequence(a[1..], b[1..]) {
        SubsequenceTransitive(a[1..], b[1..], c[1..]);
      } else {
        SubsequenceTransitive(a, b[1..], c[1..]);
      }
    }
  }

  lemma {:induction false} FilterSubsequence<T(!new)>(s: seq<T>, keep: T -> bool)
    ensures Subsequence(Filter(s, keep), s)
  {
    if s != [] {
      FilterSubsequence(s[1..], keep);
      if keep(s[0]) {
        var r := Filter(s, keep);
        assert r == [s[0]] + Filter(s[1..], keep);
        assert r[1..] == Filter(s[1..], keep);
        assert r[0] == s[0] && Subsequence(r[1..], s[1..]);
      } else {
        assert Filter(s, keep) == Filter(s[1..], keep);
      }
    }
  }

  // ---------------------------------------------------------------------------
  // Uniqueness of a key over the rows of a table.

  predicate UniqueBy<T, K(==)>(s: seq<T>, key: T -> K) {
    forall i, j :: 0 <= i < j < |s| ==> key(s[i]) != key(s[j])
  }

  lemma {:induction false} FilterPreservesUniqueBy<T(!new), K>(s: seq<T>, keep: T -> bool, key: T -> K)
    requires UniqueBy(s, key)
    ensures UniqueBy(Filter(s, keep), key)
    ensures forall x :: x in Filter(s, keep) ==> exists i :: 0 <= i < |s| && s[i] == x
  {
    if s != [] {
      FilterPreservesUniqueBy(s[1..], keep, key);
      var rest := Filter(s[1..], keep);
      forall x | x in rest ensures key(x) != key(s[0]) {
        var i :| 0 <= i < |s[1..]| && s[1..][i] == x;
        assert s[i + 1] == x;
      }
    }
  }

  /** Appending rows keeps a key unique exactly when both parts are unique on
      their own and no new row repeats the key of an old one. */
  lemma UniqueByAppend<T, K>(a: seq<T>, b: seq<T>, key: T -> K)
    ensures UniqueBy(a + b, key) <==>
      && UniqueBy(a, key)
      && UniqueBy(b, key)
      && (forall i, j :: 0 <= i < |a| && 0 <= j < |b| ==> key(a[i]) != key(b[j]))
  {
    var s := a + b;
    if UniqueBy(s, key) {
      forall i, j | 0 <= i < j < |a| ensures key(a[i]) != key(a[j]) {
        assert s[i] == a[i] && s[j] == a[j];
      }
      forall i, j | 0 <= i < j < |b| ensures key(b[i]) != key(b[j]) {
        assert s[|a| + i] == b[i] && s[|a| + j] == b[j];
      }
      forall i, j | 0 <= i < |a| && 0 <= j < |b| ensures key(a[i]) != key(b[j]) {
        assert s[i] == a[i] && s[|a| + j] == b[j];
      }
    }
    if && UniqueBy(a, key) && UniqueBy(b, key)
       && (forall i, j :: 0 <= i < |a| && 0 <= j < |b| ==> key(a[i]) != key(b[j]))
    {
      forall i, j | 0 <= i < j < |s| ensures key(s[i]) != key(s[j]) {
        if j < |a| {
          assert s[i] == a[i] && s[j] == a[j];
        } else if i < |a| {
          assert s[i] == a[i] && s[j] == b[j - |a|];
        } else {
          assert s[i] == b[i - |a|] && s[j] == b[j - |a|];
        }
      }
    }
  }

  /** No element occurs twice. */
  predicate Distinct<T(==)>(s: seq<T>) {
    forall i, j :: 0 <= i < j < |s| ==> s[i] != s[j]
  }

  /** `order` lists every element of `rows` exactly once: the order in which the
      database hands back the rows of an unordered (or tie-ordered) table. */
  ghost predicate Enumerates<T(!new)>(order: seq<T>, rows: set<T>) {
    Distinct(order) && (forall x :: x in order <==> x in rows)
  }

  lemma {:induction false} FilterPreservesDistinct<T(!new)>(s: seq<T>, keep: T -> bool)
    requires Distinct(s)
    ensures Distinct(Filter(s, keep))
  {
    if s != [] {
      FilterPreservesDistinct(s[1..], keep);
      assert s[0] !in s[1..] by {
        forall i | 0 <= i < |s[1..]| ensures s[1..][i] != s[0] {
          assert s[1..][i] == s[i + 1];
        }
      }
    }
  }

  /** The elements of a sequence, as a set. */
  function Elements<T(!new)>(s: seq<T>): (r: set<T>)
    ensures forall x :: x in r <==> x in s
  {
    set x | x in s
  }

  /** A sequence without repetitions is as long as the set of its elements. */
  lemma {:induction false} DistinctCard<T(!new)>(s: seq<T>)
    requires Distinct(s)
    ensures |Elements(s)| == |s|
  {
    if s != [] {
      var rest := Elements(s[1..]);
      DistinctCard(s[1..]);
      assert s[0] !in rest by {
        forall i | 0 <= i < |s[1..]| ensures s[1..][i] != s[0] {
          assert s[1..][i] == s[i + 1];
        }
      }
      assert Elements(s) == rest + {s[0]};
    }
  }
}
