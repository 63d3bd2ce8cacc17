/** Datatypes and list functions the other modules share. */
module Basics {

  datatype Option<+T> = None | Some(value: T)

  datatype Result<+T, +E> = Success(value: T) | Failure(error: E) {
    predicate IsFailure() { Failure? }
    function PropagateFailure<U>(): Result<U, E>
      requires Failure?
    {
      Failure(error)
    }
    function Extract(): T
      requires Success?
    {
      value
    }
  }

  function Min(a: int, b: int): int {
    if a <= b then a else b
  }

  function Max(a: int, b: int): int {
    if a >= b then a else b
  }

  /** Whether `c` is JavaScript white space: what `\s` matches and `trim` removes. */
  predicate IsSpace(c: char) {
    || c in ['\t', '\n', '\U{000B}', '\U{000C}', '\r', ' ', '\U{00A0}', '\U{1680}', '\U{2028}', '\U{2029}']
    || '\U{2000}' <= c <= '\U{200A}'
    || c in ['\U{202F}', '\U{205F}', '\U{3000}', '\U{FEFF}']
  }

  /** The elements of `s` that satisfy `keep`, in order. */
  function Filter<T(!new)>(s: seq<T>, keep: T -> bool): (r: seq<T>)
    ensures forall x :: x in r <==> x in s && keep(x)
  {
    if s == [] then []
    else if keep(s[0]) then [s[0]] + Filter(s[1..], keep)
    else Filter(s[1..], keep)
  }

  lemma FilterFirst<T(!new)>(s: seq<T>, keep: T -> bool)
    requires s != [] && keep(s[0])
    ensures Filter(s, keep) == [s[0]] + Filter(s[1..], keep)
  {
  }

  lemma {:induction false} FilterAppend<T(!new)>(a: seq<T>, b: seq<T>, keep: T -> bool)
    ensures Filter(a + b, keep) == Filter(a, keep) + Filter(b, keep)
  {
    if a == [] {
      assert a + b == b;
    } else {
      FilterAppend(a[1..], b, keep);
      assert (a + b)[1..] == a[1..] + b;
    }
  }

  lemma {:induction false} FilterAll<T(!new)>(s: seq<T>, keep: T -> bool)
    requires forall x :: x in s ==> keep(x)
    ensures Filter(s, keep) == s
  {
    if s != [] {
      FilterAll(s[1..], keep);
      assert s == [s[0]] + s[1..];
    }
  }

  lemma {:induction false} FilterTwice<T(!new)>(s: seq<T>, first: T -> bool, second: T -> bool, both: T -> bool)
    requires forall x :: x in s ==> (both(x) <==> first(x) && second(x))
    ensures Filter(Filter(s, first), second) == Filter(s, both)
  {
    if s != [] {
      FilterTwice(s[1..], first, second, both);
    }
  }

  /** `x` put before the first element whose key is not below its own. */
  function Inserted<T>(x: T, s: seq<T>, key: T -> int): (r: seq<T>)
    ensures multiset(r) == multiset(s) + multiset{x}
  {
    if s == [] || key(x) <= key(s[0]) then [x] + s
    else
      assert s == [s[0]] + s[1..];
      [s[0]] + Inserted(x, s[1..], key)
  }

  /** `s` in ascending order of `key`; elements with equal keys keep their order. */
  function SortedBy<T>(s: seq<T>, key: T -> int): (r: seq<T>)
    ensures multiset(r) == multiset(s)
  {
    if s == [] then []
    else
      assert s == [s[0]] + s[1..];
      Inserted(s[0], SortedBy(s[1..], key), key)
  }

  ghost predicate Ascending<T>(s: seq<T>, key: T -> int) {
    forall i, j :: 0 <= i < j < |s| ==> key(s[i]) <= key(s[j])
  }

  lemma Associates<T>(a: seq<T>, b: seq<T>, c: seq<T>)
    ensures a + b + c == a + (b + c)
  {
  }

  lemma HeadIn<T(!new)>(s: seq<T>)
    ensures s == [] || s[0] in s
  {
  }

  lemma MultisetIn<T(!new)>(a: seq<T>, b: seq<T>)
    requires multiset(a) == multiset(b)
    ensures |a| == |b|
    ensures forall x :: x in a <==> x in b
  {
    assert |a| == |multiset(a)| == |multiset(b)| == |b|;
    forall x ensures x in a <==> x in b {
      assert x in a <==> x in multiset(a);
      assert x in b <==> x in multiset(b);
    }
  }

  lemma {:induction false} InsertedAscending<T(!new)>(x: T, s: seq<T>, key: T -> int)
    requires Ascending(s, key)
    ensures Ascending(Inserted(x, s, key), key)
  {
    if s == [] || key(x) <= key(s[0]) {
    } else {
      var rest := Inserted(x, s[1..], key);
      InsertedAscending(x, s[1..], key);
      forall y | y in rest ensures key(s[0]) <= key(y) {
        assert y in multiset(rest);
        assert y == x || y in s[1..];
      }
    }
  }

  lemma {:induction false} SortedByAscending<T(!new)>(s: seq<T>, key: T -> int)
    ensures Ascending(SortedBy(s, key), key)
  {
    if s != [] {
      SortedByAscending(s[1..], key);
      InsertedAscending(s[0], SortedBy(s[1..], key), key);
    }
  }

  lemma {:induction false} FilterAscending<T(!new)>(s: seq<T>, key: T -> int, keep: T -> bool)
    requires Ascending(s, key)
    ensures Ascending(Filter(s, keep), key)
  {
    if s != [] {
      FilterAscending(s[1..], key, keep);
      forall x | x in Filter(s[1..], keep) ensures key(s[0]) <= key(x) {
        var i :| 0 <= i < |s[1..]| && s[1..][i] == x;
        assert s[i + 1] == x;
      }
    }
  }

  lemma {:induction false} FilterInserted<T(!new)>(x: T, s: seq<T>, key: T -> int, keep: T -> bool)
    requires Ascending(s, key)
    ensures Filter(Inserted(x, s, key), keep)
         == if keep(x) then Inserted(x, Filter(s, keep), key) else Filter(s, keep)
  {
    if s == [] || key(x) <= key(s[0]) {
      FilterAppend([x], s, keep);
      var f := Filter(s, keep);
      if f != [] {
        assert f[0] in s;
      }
    } else {
      FilterInserted(x, s[1..], key, keep);
      FilterAppend([s[0]], Inserted(x, s[1..], key), keep);
    }
  }

  /** Filtering and sorting commute. */
  lemma {:induction false} FilterSorted<T(!new)>(s: seq<T>, key: T -> int, keep: T -> bool)
    ensures Filter(SortedBy(s, key), keep) == SortedBy(Filter(s, keep), key)
  {
    if s != [] {
      FilterSorted(s[1..], key, keep);
      SortedByAscending(s[1..], key);
      FilterInserted(s[0], SortedBy(s[1..], key), key, keep);
    }
  }

  function Other(k: int): int -> bool { x => x != k }

  /** The keys of `s`, each once, in the order a grouping by key first meets them. */
  function FirstSeen<T(!new)>(s: seq<T>, key: T -> int): (keys: seq<int>)
    ensures forall k :: k in keys ==> exists i :: 0 <= i < |s| && key(s[i]) == k
    ensures forall i :: 0 <= i < |s| ==> key(s[i]) in keys
  {
    if s == [] then []
    else
      var rest := FirstSeen(s[1..], key);
      assert forall i :: 0 <= i < |s| - 1 ==> s[1..][i] == s[i + 1];
      [key(s[0])] + Filter(rest, Other(key(s[0])))
  }

  lemma {:induction false} FirstSeenDistinct<T(!new)>(s: seq<T>, key: T -> int)
    ensures forall i, j :: 0 <= i < j < |FirstSeen(s, key)| ==> FirstSeen(s, key)[i] != FirstSeen(s, key)[j]
  {
    hide Filter;
    if s != [] {
      FirstSeenDistinct(s[1..], key);
      FilterDistinct(FirstSeen(s[1..], key), Other(key(s[0])));
      var first, rest := key(s[0]), Filter(FirstSeen(s[1..], key), Other(key(s[0])));
      assert FirstSeen(s, key) == [first] + rest;
      forall i, j | 0 <= i < j < |rest| + 1 ensures ([first] + rest)[i] != ([first] + rest)[j] {
        assert rest[j - 1] in rest && rest[j - 1] != first;
      }
    }
  }

  lemma {:induction false} FilterDistinct<T(!new)>(s: seq<T>, keep: T -> bool)
    requires forall i, j :: 0 <= i < j < |s| ==> s[i] != s[j]
    ensures forall i, j :: 0 <= i < j < |Filter(s, keep)| ==> Filter(s, keep)[i] != Filter(s, keep)[j]
  {
    if s != [] {
      FilterDistinct(s[1..], keep);
      assert s[0] !in s[1..];
      assert s[0] !in Filter(s[1..], keep);
    }
  }
}
