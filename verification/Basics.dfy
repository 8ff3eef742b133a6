/** Small shared vocabulary: optional values, results, and sums over finite sets. */
module Basics {
  datatype Option<+T> = None | Some(value: T) {
    function GetOr(default: T): T {
      match this
      case None => default
      case Some(v) => v
    }
  }

  datatype Result<+T, +E> = Ok(value: T) | Err(error: E)

  type Byte = b: int | 0 <= b < 256

  type Bytes = seq<Byte>

  function Max(a: nat, b: nat): nat {
    if a < b then b else a
  }

  /** The elements of a sequence, forgetting order and repetition. */
  function ToSet<T>(s: seq<T>): set<T> {
    set x | x in s
  }

  lemma ToSetAppend<T>(s: seq<T>, x: T)
    ensures ToSet(s + [x]) == ToSet(s) + {x}
  {
    assert forall y :: y in s + [x] <==> y in s || y == x;
  }

  lemma {:induction false} DistinctSize<T>(s: seq<T>)
    requires forall i, j | 0 <= i < j < |s| :: s[i] != s[j]
    ensures |ToSet(s)| == |s|
    decreases |s|
  {
    if s != [] {
      var init, last := s[..|s| - 1], s[|s| - 1];
      assert s == init + [last] && last !in init;
      DistinctSize(init);
      ToSetAppend(init, last);
    }
  }

  ghost predicate SortedBy<T(!new)>(s: seq<T>, less: (T, T) -> bool) {
    forall i, j :: 0 <= i < j < |s| ==> less(s[i], s[j])
  }

  lemma SortedHead<T(!new)>(s: seq<T>, less: (T, T) -> bool, x: T)
    requires SortedBy(s, less) && x in s
    ensures s[0] == x || less(s[0], x)
  {
  }

  lemma SortedTail<T(!new)>(s: seq<T>, less: (T, T) -> bool)
    requires SortedBy(s, less) && s != [] && forall x, y :: !(less(x, y) && less(y, x))
    ensures SortedBy(s[1..], less) && ToSet(s[1..]) == ToSet(s) - {s[0]}
  {
    assert forall x :: x in s <==> x == s[0] || x in s[1..];
    forall i | 0 <= i < |s[1..]|
      ensures s[1..][i] == s[i + 1] && s[1..][i] != s[0]
    {
      assert less(s[0], s[i + 1]);
    }
  }

  /** Sorting by a strict order has one outcome. */
  lemma {:induction false} SortedIsUnique<T(!new)>(a: seq<T>, b: seq<T>, less: (T, T) -> bool)
    requires SortedBy(a, less) && SortedBy(b, less) && ToSet(a) == ToSet(b)
    requires forall x, y :: !(less(x, y) && less(y, x))
    ensures a == b
    decreases |a|
  {
    assert |a| > 0 ==> a[0] in ToSet(b);
    assert |b| > 0 ==> b[0] in ToSet(a);
    if a != [] && b != [] {
      SortedHead(a, less, b[0]);
      SortedHead(b, less, a[0]);
      SortedTail(a, less);
      SortedTail(b, less);
      SortedIsUnique(a[1..], b[1..], less);
      assert a == [a[0]] + a[1..] && b == [b[0]] + b[1..];
    }
  }

  /** The sum of `f` over a finite set. */
  ghost function SumOver<T(!new)>(s: set<T>, f: T -> nat): nat {
    if s == {} then 0 else var x :| x in s; f(x) + SumOver(s - {x}, f)
  }

  /** Any element may be taken out first: the sum does not depend on the order of choice. */
  lemma {:induction false} SumOverRemove<T(!new)>(s: set<T>, f: T -> nat, x: T)
    requires x in s
    ensures SumOver(s, f) == f(x) + SumOver(s - {x}, f)
    decreases |s|
  {
    var y :| y in s && SumOver(s, f) == f(y) + SumOver(s - {y}, f);
    if x != y {
      SumOverRemove(s - {y}, f, x);
      SumOverRemove(s - {x}, f, y);
      assert s - {y} - {x} == s - {x} - {y};
    }
  }

  lemma {:induction false} SumOverMonotone<T(!new)>(small: set<T>, large: set<T>, f: T -> nat)
    requires small <= large
    ensures SumOver(small, f) <= SumOver(large, f)
    decreases |large|
  {
    if large != {} {
      var x :| x in large;
      SumOverRemove(large, f, x);
      if x in small {
        SumOverRemove(small, f, x);
      }
      assert small - {x} <= large - {x};
      assert x !in small ==> small - {x} == small;
      SumOverMonotone(small - {x}, large - {x}, f);
    }
  }

  lemma {:induction false} SumOverSame<T(!new)>(s: set<T>, f: T -> nat, g: T -> nat)
    requires forall x | x in s :: f(x) == g(x)
    ensures SumOver(s, f) == SumOver(s, g)
    decreases |s|
  {
    if s != {} {
      var x :| x in s;
      SumOverRemove(s, f, x);
      SumOverRemove(s, g, x);
      SumOverSame(s - {x}, f, g);
    }
  }

  lemma OneMoreTimes(n: nat, bound: nat)
    ensures (n + 1) * bound == n * bound + bound
  {
  }

  lemma {:induction false} SumOverBound<T(!new)>(s: set<T>, f: T -> nat, bound: nat)
    requires forall x | x in s :: f(x) <= bound
    ensures SumOver(s, f) <= |s| * bound
    decreases |s|
  {
    if s != {} {
      var x :| x in s;
      SumOverRemove(s, f, x);
      SumOverBound(s - {x}, f, bound);
      OneMoreTimes(|s - {x}|, bound);
      assert |s| == |s - {x}| + 1;
    }
  }
}
