/**
 * The set-like array helpers of the library (`remove`, `add`, `ensure`,
 * `has`, `first`, `last`) together with the built-in array operations the
 * core leans on (`indexOf`, `reverse`).
 *
 * The helpers mutate the caller's array in place; here each one takes the
 * array's contents and returns its new contents, and the caller assigns the
 * result back (`_embed` is `Ensure(embedded, [v])`, see GraphStore.TrafficGraph.To).
 */
module ArrayUtil {
  import opened Base

  /** No element occurs twice. */
  predicate Distinct<T(==)>(s: seq<T>) {
    forall i, j :: 0 <= i < j < |s| ==> s[i] != s[j]
  }

  /** Dropping the head of a duplicate-free sequence leaves a duplicate-free
      sequence without the head in it. */
  lemma DistinctTail<T>(s: seq<T>)
    requires Distinct(s) && s != []
    ensures Distinct(s[1..]) && s[0] !in s[1..]
  {
    forall i, j | 0 <= i < j < |s[1..]| ensures s[1..][i] != s[1..][j] {
      assert s[1..][i] == s[i + 1] && s[1..][j] == s[j + 1];
    }
    forall i | 0 <= i < |s[1..]| ensures s[1..][i] != s[0] { assert s[1..][i] == s[i + 1]; }
  }

  // ---------------------------------------------------------------- ensure

  /** The contents `ensure(a, ...items)` leaves behind: each item that is not
      present yet is appended, in the order of `items`. */
  function Ensured<T(==)>(a: seq<T>, items: seq<T>): seq<T>
    decreases |items|
  {
    if items == [] then a
    else Ensured(if items[0] in a then a else a + [items[0]], items[1..])
  }

  /** `ensure` keeps the existing prefix, adds exactly the missing items and
      keeps a duplicate-free array duplicate-free. */
  lemma {:induction false} EnsuredExtends<T>(a: seq<T>, items: seq<T>)
    ensures |a| <= |Ensured(a, items)| && Ensured(a, items)[..|a|] == a
    ensures forall x :: x in Ensured(a, items) <==> x in a || x in items
    ensures Distinct(a) ==> Distinct(Ensured(a, items))
    decreases |items|
  {
    if items != [] {
      var a' := if items[0] in a then a else a + [items[0]];
      EnsuredExtends(a', items[1..]);
      var r := Ensured(a', items[1..]);
      assert r[..|a|] == r[..|a'|][..|a|];
      assert a'[..|a|] == a;
      assert forall x :: x in items <==> x == items[0] || x in items[1..];
      if Distinct(a) && items[0] !in a {
        forall i, j | 0 <= i < j < |a'| ensures a'[i] != a'[j] {
          if j == |a| { assert a'[i] == a[i]; }
        }
      }
    }
  }

  /** Ensuring `xs + ys` is ensuring `xs`, then `ys`. */
  lemma {:induction false} EnsuredAppend<T>(a: seq<T>, xs: seq<T>, ys: seq<T>)
    ensures Ensured(a, xs + ys) == Ensured(Ensured(a, xs), ys)
    decreases |xs|
  {
    if xs == [] {
      assert xs + ys == ys;
    } else {
      assert (xs + ys)[0] == xs[0];
      assert (xs + ys)[1..] == xs[1..] + ys;
      EnsuredAppend(if xs[0] in a then a else a + [xs[0]], xs[1..], ys);
    }
  }

  /** Items that are all present change nothing. */
  lemma {:induction false} EnsuredPresent<T>(a: seq<T>, items: seq<T>)
    requires forall x :: x in items ==> x in a
    ensures Ensured(a, items) == a
    decreases |items|
  {
    if items != [] {
      assert items[0] in a;
      forall x | x in items[1..] ensures x in a { assert x in items; }
      EnsuredPresent(a, items[1..]);
    }
  }

  /** `ensure` is idempotent: ensuring the same items twice is ensuring them once. */
  lemma EnsuredIdempotent<T>(a: seq<T>, items: seq<T>)
    ensures Ensured(Ensured(a, items), items) == Ensured(a, items)
  {
    EnsuredExtends(a, items);
    EnsuredPresent(Ensured(a, items), items);
  }

  /** On items that are new and pairwise distinct, `ensure` is `add`. */
  lemma {:induction false} EnsuredFreshIsAdded<T>(a: seq<T>, items: seq<T>)
    requires Distinct(items)
    requires forall x :: x in items ==> x !in a
    ensures Ensured(a, items) == Added(a, items)
    decreases |items|
  {
    if items != [] {
      assert items[0] !in a;
      var a' := a + [items[0]];
      forall x | x in items[1..] ensures x !in a' {
        assert x in items;
        var k :| 1 <= k < |items| && items[k] == x;
        assert items[0] != items[k];
      }
      assert Distinct(items[1..]) by {
        forall i, j | 0 <= i < j < |items[1..]| ensures items[1..][i] != items[1..][j] {
          assert items[1..][i] == items[i + 1] && items[1..][j] == items[j + 1];
        }
      }
      EnsuredFreshIsAdded(a', items[1..]);
      assert a' + items[1..] == a + items;
    }
  }

  /** `ensure(a, ...items)`: push every item that the array does not include yet. */
  method Ensure<T(==)>(a: seq<T>, items: seq<T>) returns (r: seq<T>)
    ensures r == Ensured(a, items)
  {
    r := a;
    for i := 0 to |items|
      invariant Ensured(r, items[i..]) == Ensured(a, items)
    {
      assert items[i..][1..] == items[i + 1..];
      if items[i] !in r {
        r := r + [items[i]];
      }
    }
    assert items[|items|..] == [];
  }

  // ---------------------------------------------------------------- remove

  /** The contents `remove(a, ...items)` leaves behind: `a` without any
      element equal to one of `items`, in the original order. */
  function Without<T(==,!new)>(a: seq<T>, items: seq<T>): (r: seq<T>)
    ensures |r| <= |a|
    ensures forall x :: x in r <==> x in a && x !in items
  {
    if a == [] then []
    else
      assert forall x :: x in a <==> x == a[0] || x in a[1..];
      (if a[0] in items then [] else [a[0]]) + Without(a[1..], items)
  }

  /** A duplicate-free array stays duplicate-free under `remove`. */
  lemma {:induction false} WithoutDistinct<T(!new)>(a: seq<T>, items: seq<T>)
    ensures Distinct(a) ==> Distinct(Without(a, items))
  {
    if a != [] {
      WithoutDistinct(a[1..], items);
      if Distinct(a) {
        assert Distinct(a[1..]) by {
          forall i, j | 0 <= i < j < |a[1..]| ensures a[1..][i] != a[1..][j] {
            assert a[1..][i] == a[i + 1] && a[1..][j] == a[j + 1];
          }
        }
        var h := if a[0] in items then [] else [a[0]];
        var t := Without(a[1..], items);
        forall k | 0 <= k < |a[1..]| ensures a[1..][k] != a[0] {
          assert a[1..][k] == a[k + 1];
        }
        forall i, j | 0 <= i < j < |h + t| ensures (h + t)[i] != (h + t)[j] {
          if i < |h| {
            assert (h + t)[j] in t;
          } else {
            assert (h + t)[i] == t[i - |h|] && (h + t)[j] == t[j - |h|];
          }
        }
      }
    }
  }

  /** `remove` distributes over concatenation. */
  lemma {:induction false} WithoutAppend<T(!new)>(a: seq<T>, b: seq<T>, items: seq<T>)
    ensures Without(a + b, items) == Without(a, items) + Without(b, items)
  {
    if a == [] {
      assert a + b == b;
    } else {
      assert (a + b)[0] == a[0];
      assert (a + b)[1..] == a[1..] + b;
      WithoutAppend(a[1..], b, items);
    }
  }

  /** Removing items that do not occur changes nothing. */
  lemma {:induction false} WithoutNoop<T(!new)>(a: seq<T>, items: seq<T>)
    requires forall x :: x in a ==> x !in items
    ensures Without(a, items) == a
  {
    if a != [] {
      assert a[0] in a;
      forall x | x in a[1..] ensures x !in items { assert x in a; }
      WithoutNoop(a[1..], items);
      assert [a[0]] + a[1..] == a;
    }
  }

  /** `remove(a, ...items)`: walk the array backwards and splice out every
      element that is one of `items`. Before position `i` the array is as
      it was; from `i` on it is the removal of the part already walked. */
  method Remove<T(==,!new)>(a: seq<T>, items: seq<T>) returns (r: seq<T>)
    ensures r == Without(a, items)
  {
    r := a;
    var i := |r|;
    while i != 0
      invariant 0 <= i <= |a| && i <= |r|
      invariant r[..i] == a[..i]
      invariant r[i..] == Without(a[i..], items)
    {
      if a[i - 1] in items {
        RemoveSplice(a, i, items, r);
        r := r[..i - 1] + r[i..];
      } else {
        RemoveKeep(a, i, items, r);
      }
      i := i - 1;
    }
    assert r[0..] == r && a[0..] == a;
  }

  /** A pass of the loop of `remove` that splices out the element before
      position `i`, one of `items`, extends the removal by one position. */
  lemma RemoveSplice<T(!new)>(a: seq<T>, i: nat, items: seq<T>, r: seq<T>)
    requires 0 < i <= |a| && i <= |r| && a[i - 1] in items
    requires r[..i] == a[..i] && r[i..] == Without(a[i..], items)
    ensures (r[..i - 1] + r[i..])[..i - 1] == a[..i - 1]
    ensures (r[..i - 1] + r[i..])[i - 1..] == Without(a[i - 1..], items)
  {
    WithoutStep(a, i, items);
    assert r[..i - 1] == a[..i - 1] by {
      assert r[..i - 1] == r[..i][..i - 1] && a[..i - 1] == a[..i][..i - 1];
    }
    assert (r[..i - 1] + r[i..])[..i - 1] == r[..i - 1];
    assert (r[..i - 1] + r[i..])[i - 1..] == r[i..];
  }

  /** A pass of the loop of `remove` that keeps the element before
      position `i`, not one of `items`, extends the removal by one position. */
  lemma RemoveKeep<T(!new)>(a: seq<T>, i: nat, items: seq<T>, r: seq<T>)
    requires 0 < i <= |a| && i <= |r| && a[i - 1] !in items
    requires r[..i] == a[..i] && r[i..] == Without(a[i..], items)
    ensures r[..i - 1] == a[..i - 1]
    ensures r[i - 1..] == Without(a[i - 1..], items)
  {
    assert r[..i - 1] == a[..i - 1] by {
      assert r[..i - 1] == r[..i][..i - 1] && a[..i - 1] == a[..i][..i - 1];
    }
    assert r[i - 1..] == [a[i - 1]] + r[i..] by {
      assert r[i - 1] == r[..i][i - 1] && a[i - 1] == a[..i][i - 1];
      assert r[i - 1..] == [r[i - 1]] + r[i..];
    }
    WithoutStep(a, i, items);
  }

  /** `remove` at one position of the walk: the element before position
      `i` is kept unless it is one of `items`. */
  lemma WithoutStep<T(!new)>(a: seq<T>, i: nat, items: seq<T>)
    requires 0 < i <= |a|
    ensures Without(a[i - 1..], items) == (if a[i - 1] in items then [] else [a[i - 1]]) + Without(a[i..], items)
  {
    assert a[i - 1..][0] == a[i - 1] && a[i - 1..][1..] == a[i..];
  }

  // ------------------------------------------------------------------- add

  /** The contents `add(a, ...items)` leaves behind. */
  function Added<T>(a: seq<T>, items: seq<T>): seq<T> {
    a + items
  }

  /** `add(a, ...items)`: push all items, present or not. */
  method Add<T>(a: seq<T>, items: seq<T>) returns (r: seq<T>)
    ensures |r| == |a| + |items|
    ensures r[..|a|] == a && r[|a|..] == items
  {
    r := a;
    for i := 0 to |items|
      invariant r == a + items[..i]
    {
      assert items[..i + 1] == items[..i] + [items[i]];
      r := r + [items[i]];
    }
    assert items[..|items|] == items;
  }

  // ------------------------------------------------------------------- has

  /** `has(a, ...items)`: every item occurs in the array (true of no items). */
  method Has<T(==)>(a: seq<T>, items: seq<T>) returns (b: bool)
    ensures b <==> forall t :: t in items ==> t in a
  {
    for i := 0 to |items|
      invariant forall j :: 0 <= j < i ==> items[j] in a
    {
      if items[i] !in a {
        return false;
      }
    }
    return true;
  }

  // --------------------------------------------------------- first and last

  /** `first(a)`, that is `a.at(0)`. */
  function First<T>(a: seq<T>): (r: Option<T>)
    ensures r.Some? <==> |a| > 0
    ensures r.Some? ==> r.value == a[0]
  {
    if |a| == 0 then None else Some(a[0])
  }

  /** `last(a)`, that is `a.at(-1)`. */
  function Last<T>(a: seq<T>): (r: Option<T>)
    ensures r.Some? <==> |a| > 0
    ensures r.Some? ==> r.value == a[|a| - 1]
  {
    if |a| == 0 then None else Some(a[|a| - 1])
  }

  /** `copy(a)`: a new array with the same elements. */
  function Copy<T>(a: seq<T>): (r: seq<T>)
    ensures |r| == |a| && forall i :: 0 <= i < |a| ==> r[i] == a[i]
  {
    a[..]
  }

  // ------------------------------------------------------ built-in helpers

  /** `Array.prototype.reverse`. */
  function Reversed<T>(a: seq<T>): (r: seq<T>)
    ensures |r| == |a|
    ensures forall i :: 0 <= i < |a| ==> r[i] == a[|a| - 1 - i]
  {
    if a == [] then [] else Reversed(a[1..]) + [a[0]]
  }

  /** Reversal swaps the first and the last element. */
  lemma FirstLastReversed<T>(a: seq<T>)
    ensures First(Reversed(a)) == Last(a) && Last(Reversed(a)) == First(a)
  {
  }

  /** `Array.prototype.indexOf`: the first position of `x`, or -1. */
  function IndexOf<T(==)>(a: seq<T>, x: T): (i: int)
    ensures -1 <= i < |a|
    ensures i == -1 <==> x !in a
    ensures 0 <= i ==> a[i] == x && x !in a[..i]
  {
    if a == [] then -1
    else if a[0] == x then 0
    else
      var j := IndexOf(a[1..], x);
      assert x in a[1..] ==> x in a;
      assert j >= 0 ==> a[..j + 1] == [a[0]] + a[1..][..j];
      if j == -1 then -1 else j + 1
  }
}
