/**
 * `cmp.Compare` and `slices.SortFunc` from Go's standard library.
 *
 * `slices.SortFunc(s, cmp)` sorts `s` in place; `cmp(a, b) < 0` means that
 * `a` goes before `b`. Go's algorithm (pattern-defeating quicksort) is not
 * stable, and the order it leaves equal elements in is not specified, so the
 * model promises only what any correct sort promises: the result is a
 * permutation of the input and, when the comparator is consistent with a
 * descending order on some key, the result is non-increasing by that key.
 * The model sorts by insertion, with Go's own swap test `cmp(s[j], s[j-1]) < 0`.
 */
module GoSlices {

  /** `cmp.Compare(x, y)` on ordered values: -1, 0 or +1. */
  function Compare(x: real, y: real): (r: int)
    ensures r == -1 || r == 0 || r == 1
    ensures r < 0 <==> x < y
    ensures r == 0 <==> x == y
  {
    if x < y then -1 else if x > y then 1 else 0
  }

  /** `s` is non-increasing by `key`: most important first. */
  ghost predicate NonIncreasing<T>(s: seq<T>, key: T -> real) {
    forall i, j :: 0 <= i < j < |s| ==> key(s[i]) >= key(s[j])
  }

  /**
   * On the elements `dom` admits, `cmp` puts `x` before `y` only when `key(x) >= key(y)`,
   * and keeps `x` after `y` only when `key(y) >= key(x)`.
   */
  ghost predicate DescendingBy<T(!new)>(cmp: (T, T) -> int, key: T -> real, dom: T -> bool) {
    forall x, y :: dom(x) && dom(y) ==>
      (cmp(x, y) < 0 ==> key(x) >= key(y)) && (cmp(x, y) >= 0 ==> key(y) >= key(x))
  }

  method Swap<T>(a: array<T>, i: int, j: int)
    requires 0 <= i < a.Length && 0 <= j < a.Length
    modifies a
    ensures a[i] == old(a[j]) && a[j] == old(a[i])
    ensures forall k :: 0 <= k < a.Length && k != i && k != j ==> a[k] == old(a[k])
    ensures multiset(a[..]) == multiset(old(a[..]))
  {
    a[i], a[j] := a[j], a[i];
  }

  /** `s[lo..hi]` is non-increasing by `key`, leaving out the position `skip`. */
  ghost predicate SortedExcept<T>(s: seq<T>, lo: int, hi: int, skip: int, key: T -> real)
    requires 0 <= lo <= hi <= |s|
  {
    forall p, q :: lo <= p < q < hi && p != skip && q != skip ==> key(s[p]) >= key(s[q])
  }

  /**
   * `slices.SortFunc(a, cmp)`. `key` and `dom` are ghost: they name the order
   * that a consistent comparator sorts by, and the elements on which it is consistent.
   */
  method SortFunc<T(!new)>(a: array<T>, cmp: (T, T) -> int, ghost key: T -> real, ghost dom: T -> bool)
    modifies a
    ensures multiset(a[..]) == multiset(old(a[..]))
    ensures DescendingBy(cmp, key, dom) && (forall k :: 0 <= k < a.Length ==> dom(old(a[k])))
            ==> NonIncreasing(a[..], key)
  {
    ghost var consistent := DescendingBy(cmp, key, dom) && forall x :: x in multiset(a[..]) ==> dom(x);
    if DescendingBy(cmp, key, dom) && (forall k :: 0 <= k < a.Length ==> dom(a[k])) {
      forall x | x in multiset(a[..]) ensures dom(x) {
        var k :| 0 <= k < a.Length && a[k] == x;
      }
    }
    var i := 0;
    while i < a.Length
      invariant 0 <= i <= a.Length
      invariant multiset(a[..]) == multiset(old(a[..]))
      invariant consistent ==> SortedExcept(a[..], 0, i, -1, key)
    {
      InsertAt(a, i, cmp, key, dom, consistent);
      i := i + 1;
    }
  }

  /**
   * A slice after `slices.SortFunc`: the same elements and, when the comparator
   * is consistent with a descending key on all of them, non-increasing by it.
   */
  method SortSlice<T(!new)>(s: seq<T>, cmp: (T, T) -> int, ghost key: T -> real, ghost dom: T -> bool)
    returns (sorted: seq<T>)
    ensures |sorted| == |s| && multiset(sorted) == multiset(s)
    ensures DescendingBy(cmp, key, dom) && (forall x :: x in s ==> dom(x)) ==> NonIncreasing(sorted, key)
  {
    var a := new T[|s|](i requires 0 <= i < |s| => s[i]);
    assert a[..] == s;
    SortFunc(a, cmp, key, dom);
    sorted := a[..];
    assert |multiset(sorted)| == |multiset(s)|;
  }

  /** One step of insertion sort: moves `a[i]` left into the sorted prefix `a[..i]`. */
  method InsertAt<T(!new)>(a: array<T>, i: int, cmp: (T, T) -> int, ghost key: T -> real, ghost dom: T -> bool,
                           ghost consistent: bool)
    requires 0 <= i < a.Length
    requires consistent ==> DescendingBy(cmp, key, dom) && (forall x :: x in multiset(a[..]) ==> dom(x))
    requires consistent ==> SortedExcept(a[..], 0, i, -1, key)
    modifies a
    ensures multiset(a[..]) == multiset(old(a[..]))
    ensures consistent ==> SortedExcept(a[..], 0, i + 1, -1, key)
    ensures a[i + 1..] == old(a[i + 1..])
  {
    var j := i;
    while j > 0 && cmp(a[j], a[j - 1]) < 0
      invariant 0 <= j <= i
      invariant multiset(a[..]) == multiset(old(a[..]))
      invariant a[i + 1..] == old(a[i + 1..])
      invariant consistent ==> SortedExcept(a[..], 0, i + 1, j, key)
      invariant consistent ==> forall q :: j < q <= i ==> key(a[j]) >= key(a[q])
    {
      ghost var before := a[..];
      if consistent {
        assert a[j] in multiset(a[..]) && a[j - 1] in multiset(a[..]);
      }
      Swap(a, j - 1, j);
      if consistent {
        SwapIntoPlace(before, a[..], j, i, key);
      }
      j := j - 1;
    }
    if consistent {
      if j > 0 {
        assert a[j] in multiset(a[..]) && a[j - 1] in multiset(a[..]);
      }
      InsertDone(a[..], j, i, key);
    }
  }

  /** Swapping the moving element with a smaller-or-equal left neighbour keeps the invariant of `InsertAt`. */
  lemma SwapIntoPlace<T>(s: seq<T>, t: seq<T>, j: int, i: int, key: T -> real)
    requires 0 < j <= i < |s|
    requires t == s[j - 1 := s[j]][j := s[j - 1]]
    requires SortedExcept(s, 0, i + 1, j, key)
    requires forall q :: j < q <= i ==> key(s[j]) >= key(s[q])
    requires key(s[j]) >= key(s[j - 1])
    ensures SortedExcept(t, 0, i + 1, j - 1, key)
    ensures forall q :: j - 1 < q <= i ==> key(t[j - 1]) >= key(t[q])
  {
  }

  /** The moving element has stopped: the prefix `s[..i + 1]` is sorted. */
  lemma InsertDone<T>(s: seq<T>, j: int, i: int, key: T -> real)
    requires 0 <= j <= i < |s|
    requires SortedExcept(s, 0, i + 1, j, key)
    requires forall q :: j < q <= i ==> key(s[j]) >= key(s[q])
    requires j > 0 ==> key(s[j - 1]) >= key(s[j])
    ensures SortedExcept(s, 0, i + 1, -1, key)
  {
  }

  /**
   * Taking the first `k` of a list sorted by `key` takes the `k` largest:
   * every element left out is no larger than any element taken.
   */
  lemma TopKDominates<T>(s: seq<T>, key: T -> real, k: nat)
    requires NonIncreasing(s, key) && k <= |s|
    ensures forall x, y :: x in multiset(s) - multiset(s[..k]) && y in s[..k] ==> key(y) >= key(x)
  {
    assert s == s[..k] + s[k..];
    assert multiset(s) - multiset(s[..k]) == multiset(s[k..]);
    forall x, y | x in multiset(s) - multiset(s[..k]) && y in s[..k]
      ensures key(y) >= key(x)
    {
      assert x in s[k..];
      var q :| k <= q < |s| && s[q] == x;
      var p :| 0 <= p < k && s[p] == y;
    }
  }

  lemma DropHead<T>(s: seq<T>, t: seq<T>)
    requires |s| > 0 && |t| > 0 && s[0] == t[0] && multiset(s) == multiset(t)
    ensures multiset(s[1..]) == multiset(t[1..])
  {
    assert s == [s[0]] + s[1..] && t == [t[0]] + t[1..];
    assert multiset(s) == multiset([s[0]]) + multiset(s[1..]);
    assert multiset(t) == multiset([t[0]]) + multiset(t[1..]);
    assert multiset(s[1..]) == multiset(s) - multiset([s[0]]);
    assert multiset(t[1..]) == multiset(t) - multiset([t[0]]);
  }

  /**
   * When no two elements share a key, there is only one non-increasing
   * arrangement of them: any two sorted permutations of each other are equal.
   */
  lemma {:induction false} NonIncreasingUnique<T>(s: seq<T>, t: seq<T>, key: T -> real)
    requires multiset(s) == multiset(t)
    requires NonIncreasing(s, key) && NonIncreasing(t, key)
    requires forall i, j :: 0 <= i < j < |s| ==> key(s[i]) != key(s[j])
    ensures s == t
    decreases |s|
  {
    assert |s| == |multiset(s)| == |multiset(t)| == |t|;
    if |s| > 0 {
      assert s[0] in multiset(t);
      var q :| 0 <= q < |t| && t[q] == s[0];
      assert t[0] in multiset(s);
      var p :| 0 <= p < |s| && s[p] == t[0];
      assert key(s[0]) >= key(s[p]) && key(t[0]) >= key(t[q]);
      assert p == 0;
      DropHead(s, t);
      NonIncreasingUnique(s[1..], t[1..], key);
    }
  }
}
