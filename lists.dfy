/** Facts about the Python lists the board keeps per trait dimension. */
module Lists {

  /** No value occurs twice in `xs`. */
  predicate NoDup<T(==)>(xs: seq<T>) {
    forall i, j :: 0 <= i < j < |xs| ==> xs[i] != xs[j]
  }

  /** No value occurs in both lists. */
  predicate Disjoint<T(==)>(xs: seq<T>, ys: seq<T>) {
    forall x :: x in xs ==> x !in ys
  }

  /** `xs` is `ys` with nothing, or something, appended. */
  predicate IsPrefix<T(==)>(xs: seq<T>, ys: seq<T>) {
    |xs| <= |ys| && xs == ys[..|xs|]
  }

  /** Python's `xs.remove(x)`: drops the first occurrence of `x`.
      Python raises when `x` is absent; every caller checks membership first. */
  function RemoveFirst<T(==)>(xs: seq<T>, x: T): (r: seq<T>)
    requires x in xs
    ensures |r| == |xs| - 1
    ensures multiset(r) == multiset(xs) - multiset{x}
  {
    assert xs == [xs[0]] + xs[1..];
    if xs[0] == x then xs[1..]
    else [xs[0]] + RemoveFirst(xs[1..], x)
  }

  /** The occurrence removed is the first one, at index `k`; everything
      before and after it keeps its order. */
  lemma {:induction false} RemoveFirstKeepsOrder<T>(xs: seq<T>, x: T, k: nat)
    requires k < |xs| && xs[k] == x && x !in xs[..k]
    ensures RemoveFirst(xs, x) == xs[..k] + xs[k + 1..]
  {
    if k > 0 {
      assert xs[0] == xs[..k][0];
      assert xs[1..][..k - 1] == xs[..k][1..];
      RemoveFirstKeepsOrder(xs[1..], x, k - 1);
      assert xs[..k] == [xs[0]] + xs[1..][..k - 1];
      assert xs[k + 1..] == xs[1..][k..];
    }
  }

  /** On a duplicate-free list, removing `x` removes every trace of it and
      nothing else, and the list stays duplicate-free. */
  lemma {:induction false} RemoveFirstFromDistinct<T>(xs: seq<T>, x: T)
    requires NoDup(xs) && x in xs
    ensures NoDup(RemoveFirst(xs, x))
    ensures forall y :: y in RemoveFirst(xs, x) <==> y in xs && y != x
  {
    if xs[0] != x {
      var tail := xs[1..];
      assert NoDup(tail) by {
        forall i, j | 0 <= i < j < |tail| ensures tail[i] != tail[j] {
          assert tail[i] == xs[i + 1] && tail[j] == xs[j + 1];
        }
      }
      assert xs[0] !in tail by {
        forall j | 0 <= j < |tail| ensures tail[j] != xs[0] {
          assert tail[j] == xs[j + 1];
        }
      }
      RemoveFirstFromDistinct(tail, x);
      var r := RemoveFirst(xs, x);
      assert r == [xs[0]] + RemoveFirst(tail, x);
      forall i, j | 0 <= i < j < |r| ensures r[i] != r[j] {
        if i == 0 {
          assert r[j] in RemoveFirst(tail, x);
        } else {
          assert r[i] == RemoveFirst(tail, x)[i - 1] && r[j] == RemoveFirst(tail, x)[j - 1];
        }
      }
    } else {
      forall y | y in xs ensures y in xs[1..] || y == x {
        var k :| 0 <= k < |xs| && xs[k] == y;
        if k > 0 { assert xs[1..][k - 1] == y; }
      }
      forall j | 0 <= j < |xs| - 1 ensures xs[1..][j] != x {
        assert xs[1..][j] == xs[j + 1];
      }
    }
  }

  /** Prefixes compose: a list that only ever grows at its end keeps its
      earliest contents. */
  lemma PrefixTransitive<T>(xs: seq<T>, ys: seq<T>, zs: seq<T>)
    requires IsPrefix(xs, ys) && IsPrefix(ys, zs)
    ensures IsPrefix(xs, zs)
  {
    assert zs[..|ys|][..|xs|] == zs[..|xs|];
  }
}
