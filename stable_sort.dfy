/**
 * The stable sort performed by `Array.prototype.sort(comparator)`.
 *
 * ECMAScript requires the sort to be stable: elements the comparator ties
 * keep their original relative order. The model sorts by insertion and
 * proves the result sorted, a permutation of the input and stable; the
 * uniqueness lemma shows that every stable sort of the same input with the
 * same comparator yields exactly this sequence.
 */
module StableSort {

  /**
   * A consistent comparator, as the sort requires of its argument: the sign of
   * `cmp(a, b)` is the opposite of the sign of `cmp(b, a)`, and "not after"
   * (`cmp(a, b) <= 0`) is transitive.
   */
  ghost predicate Consistent<T(!new)>(cmp: (T, T) -> int)
  {
    && (forall a, b :: SignsAgree(cmp, a, b))
    && (forall a, b, c :: NotAfterChains(cmp, a, b, c))
  }

  /** `cmp(a, b)` is negative exactly when `cmp(b, a)` is positive. */
  predicate SignsAgree<T>(cmp: (T, T) -> int, a: T, b: T)
  {
    cmp(a, b) < 0 <==> cmp(b, a) > 0
  }

  /** `a` not after `b` and `b` not after `c` make `a` not after `c`. */
  predicate NotAfterChains<T>(cmp: (T, T) -> int, a: T, b: T, c: T)
  {
    cmp(a, b) <= 0 && cmp(b, c) <= 0 ==> cmp(a, c) <= 0
  }

  /** Every element is "not after" each element that follows it. */
  ghost predicate SortedBy<T>(s: seq<T>, cmp: (T, T) -> int)
  {
    forall i, j :: 0 <= i < j < |s| ==> cmp(s[i], s[j]) <= 0
  }

  /** Every contiguous part of a sorted sequence is sorted. */
  lemma SortedSlice<T>(s: seq<T>, lo: int, hi: int, cmp: (T, T) -> int)
    requires SortedBy(s, cmp) && 0 <= lo <= hi <= |s|
    ensures SortedBy(s[lo..hi], cmp)
  {
    forall i, j | 0 <= i < j < hi - lo ensures cmp(s[lo..hi][i], s[lo..hi][j]) <= 0 {
      assert s[lo..hi][i] == s[lo + i] && s[lo..hi][j] == s[lo + j];
    }
  }

  /** The elements of `s` that the comparator ties with `z`, in their order in `s`. */
  function Ties<T>(s: seq<T>, z: T, cmp: (T, T) -> int): seq<T>
  {
    if s == [] then []
    else (if cmp(s[0], z) == 0 then [s[0]] else []) + Ties(s[1..], z, cmp)
  }

  /** `out` lists every class of tied elements exactly as `input` does. */
  ghost predicate StableFor<T(!new)>(out: seq<T>, input: seq<T>, cmp: (T, T) -> int)
  {
    forall z :: Ties(out, z, cmp) == Ties(input, z, cmp)
  }

  /** Inserts `x` before the first element it is not after. */
  function Insert<T>(x: T, s: seq<T>, cmp: (T, T) -> int): (r: seq<T>)
    ensures multiset(r) == multiset(s) + multiset{x}
    ensures |r| == |s| + 1
  {
    if s == [] || cmp(x, s[0]) <= 0 then [x] + s
    else
      assert s == [s[0]] + s[1..];
      [s[0]] + Insert(x, s[1..], cmp)
  }

  /** `s.slice().sort(cmp)`. */
  function Sort<T>(s: seq<T>, cmp: (T, T) -> int): (r: seq<T>)
    ensures multiset(r) == multiset(s)
    ensures |r| == |s|
  {
    if s == [] then []
    else
      assert s == [s[0]] + s[1..];
      Insert(s[0], Sort(s[1..], cmp), cmp)
  }

  /** A consistent comparator ties every element with itself. */
  lemma TiesWithItself<T(!new)>(a: T, cmp: (T, T) -> int)
    requires Consistent(cmp)
    ensures cmp(a, a) == 0
  {
    assert SignsAgree(cmp, a, a);
  }

  /** A head not after any element of a sorted tail gives a sorted sequence. */
  lemma ConsSorted<T>(h: T, t: seq<T>, cmp: (T, T) -> int)
    requires SortedBy(t, cmp)
    requires forall j :: 0 <= j < |t| ==> cmp(h, t[j]) <= 0
    ensures SortedBy([h] + t, cmp)
  {
    var r := [h] + t;
    forall i, j | 0 <= i < j < |r| ensures cmp(r[i], r[j]) <= 0 {
      if i == 0 {
        assert r[j] == t[j - 1];
      } else {
        assert r[i] == t[i - 1] && r[j] == t[j - 1];
      }
    }
  }

  /** When `x` goes past the head, the head is not after anything of the rest. */
  lemma HeadBeforeInserted<T(!new)>(x: T, s: seq<T>, cmp: (T, T) -> int, y: T)
    requires Consistent(cmp) && SortedBy(s, cmp)
    requires s != [] && cmp(x, s[0]) > 0
    requires y in Insert(x, s[1..], cmp)
    ensures cmp(s[0], y) <= 0
  {
    assert y in multiset(Insert(x, s[1..], cmp));
    if y == x {
      assert SignsAgree(cmp, s[0], x);
    } else {
      assert y in multiset(s[1..]);
      var k :| 0 <= k < |s[1..]| && s[1..][k] == y;
      assert s[k + 1] == y;
    }
  }

  /** Inserting into a sorted sequence keeps it sorted. */
  lemma {:induction false} InsertSorted<T(!new)>(x: T, s: seq<T>, cmp: (T, T) -> int)
    requires Consistent(cmp) && SortedBy(s, cmp)
    ensures SortedBy(Insert(x, s, cmp), cmp)
  {
    if s == [] || cmp(x, s[0]) <= 0 {
      forall j | 0 <= j < |s| ensures cmp(x, s[j]) <= 0 {
        if j > 0 {
          assert NotAfterChains(cmp, x, s[0], s[j]);
        }
      }
      ConsSorted(x, s, cmp);
    } else {
      var rest := Insert(x, s[1..], cmp);
      assert SortedBy(s[1..], cmp);
      InsertSorted(x, s[1..], cmp);
      forall j | 0 <= j < |rest| ensures cmp(s[0], rest[j]) <= 0 {
        HeadBeforeInserted(x, s, cmp, rest[j]);
      }
      ConsSorted(s[0], rest, cmp);
    }
  }

  /** The sort's result is ordered by the comparator. */
  lemma {:induction false} SortSorted<T(!new)>(s: seq<T>, cmp: (T, T) -> int)
    requires Consistent(cmp)
    ensures SortedBy(Sort(s, cmp), cmp)
  {
    if s != [] {
      SortSorted(s[1..], cmp);
      InsertSorted(s[0], Sort(s[1..], cmp), cmp);
    }
  }

  lemma {:induction false} TiesAppend<T>(a: seq<T>, b: seq<T>, z: T, cmp: (T, T) -> int)
    ensures Ties(a + b, z, cmp) == Ties(a, z, cmp) + Ties(b, z, cmp)
  {
    if a != [] {
      assert (a + b)[1..] == a[1..] + b;
      TiesAppend(a[1..], b, z, cmp);
    } else {
      assert a + b == b;
    }
  }

  /** An element strictly before `x` is never tied with anything `x` is tied with. */
  lemma TieExcludesBefore<T(!new)>(x: T, y: T, z: T, cmp: (T, T) -> int)
    requires Consistent(cmp)
    requires cmp(y, x) < 0 && cmp(x, z) == 0
    ensures cmp(y, z) != 0
  {
    assert SignsAgree(cmp, x, z) && SignsAgree(cmp, y, x) && SignsAgree(cmp, y, z);
    // were z not after y, x would not be after y either
    assert NotAfterChains(cmp, x, z, y);
  }

  lemma TiesCons<T>(h: T, t: seq<T>, z: T, cmp: (T, T) -> int)
    ensures Ties([h] + t, z, cmp) == (if cmp(h, z) == 0 then [h] else []) + Ties(t, z, cmp)
  {
    assert ([h] + t)[1..] == t;
  }

  /** Inserting into a sorted sequence places `x` first among the elements tied with it. */
  lemma {:induction false} InsertTies<T(!new)>(x: T, s: seq<T>, z: T, cmp: (T, T) -> int)
    requires Consistent(cmp) && SortedBy(s, cmp)
    ensures Ties(Insert(x, s, cmp), z, cmp) == (if cmp(x, z) == 0 then [x] else []) + Ties(s, z, cmp)
  {
    var px := if cmp(x, z) == 0 then [x] else [];
    if s == [] || cmp(x, s[0]) <= 0 {
      TiesCons(x, s, z, cmp);
    } else {
      var h, t := s[0], s[1..];
      var ph := if cmp(h, z) == 0 then [h] else [];
      var rest := Insert(x, t, cmp);
      assert Ties(Insert(x, s, cmp), z, cmp) == ph + (px + Ties(t, z, cmp)) by {
        assert SortedBy(t, cmp);
        InsertTies(x, t, z, cmp);
        assert Insert(x, s, cmp) == [h] + rest;
        TiesCons(h, rest, z, cmp);
      }
      assert Ties(s, z, cmp) == ph + Ties(t, z, cmp);
      // h comes strictly before x, so the two cannot both tie with z
      assert px == [] || ph == [] by {
        if cmp(x, z) == 0 {
          assert SignsAgree(cmp, h, x);
          TieExcludesBefore(x, h, z, cmp);
        }
      }
      SwapEmptyPrefix(ph, px, Ties(t, z, cmp));
    }
  }

  lemma SwapEmptyPrefix<T>(p: seq<T>, q: seq<T>, r: seq<T>)
    requires p == [] || q == []
    ensures p + (q + r) == q + (p + r)
  {
  }

  /** The sort keeps every class of tied elements in its original order. */
  lemma {:induction false} SortStable<T(!new)>(s: seq<T>, cmp: (T, T) -> int)
    requires Consistent(cmp)
    ensures StableFor(Sort(s, cmp), s, cmp)
  {
    if s != [] {
      SortStable(s[1..], cmp);
      SortSorted(s[1..], cmp);
      forall z ensures Ties(Sort(s, cmp), z, cmp) == Ties(s, z, cmp) {
        InsertTies(s[0], Sort(s[1..], cmp), z, cmp);
      }
    }
  }

  lemma {:induction false} TiesMember<T>(s: seq<T>, z: T, cmp: (T, T) -> int, y: T)
    requires y in Ties(s, z, cmp)
    ensures y in s && cmp(y, z) == 0
  {
    if s != [] && !(cmp(s[0], z) == 0 && y == s[0]) {
      TiesMember(s[1..], z, cmp, y);
    }
  }

  /**
   * A sequence that is sorted and stable with respect to `input` is uniquely
   * determined: any two such sequences are equal.
   */
  lemma {:induction false} SortedStableUnique<T(!new)>(a: seq<T>, b: seq<T>, cmp: (T, T) -> int)
    requires Consistent(cmp)
    requires SortedBy(a, cmp) && SortedBy(b, cmp)
    requires forall z :: Ties(a, z, cmp) == Ties(b, z, cmp)
    ensures a == b
  {
    if a != [] {
      TiesWithItself(a[0], cmp);
      assert Ties(a, a[0], cmp) != [];
    }
    if b != [] {
      TiesWithItself(b[0], cmp);
      assert Ties(b, b[0], cmp) != [];
    }
    if a != [] && b != [] {
      var x, y := a[0], b[0];
      assert x in Ties(a, x, cmp);
      TiesMember(b, x, cmp, x);
      assert y in Ties(b, y, cmp);
      TiesMember(a, y, cmp, y);
      // x is in b, so y is not after x; y is in a, so x is not after y
      assert cmp(y, x) <= 0 && cmp(x, y) <= 0 by {
        var i :| 0 <= i < |b| && b[i] == x;
        var k :| 0 <= k < |a| && a[k] == y;
        if i > 0 { assert cmp(b[0], b[i]) <= 0; }
        if k > 0 { assert cmp(a[0], a[k]) <= 0; }
      }
      assert SignsAgree(cmp, y, x);
      assert Ties(a, x, cmp)[0] == x && Ties(b, x, cmp)[0] == y;
      assert x == y;
      forall z ensures Ties(a[1..], z, cmp) == Ties(b[1..], z, cmp) {
        var p := if cmp(x, z) == 0 then [x] else [];
        assert Ties(a, z, cmp) == p + Ties(a[1..], z, cmp);
        assert Ties(b, z, cmp) == p + Ties(b[1..], z, cmp);
        assert Ties(a[1..], z, cmp) == Ties(a, z, cmp)[|p|..];
      }
      SortedStableUnique(a[1..], b[1..], cmp);
      assert a == [x] + a[1..] && b == [y] + b[1..];
    }
  }

  /** Any stable sort agrees with `Sort`. */
  lemma SortIsTheStableSort<T(!new)>(s: seq<T>, out: seq<T>, cmp: (T, T) -> int)
    requires Consistent(cmp)
    requires SortedBy(out, cmp) && StableFor(out, s, cmp)
    ensures out == Sort(s, cmp)
  {
    SortSorted(s, cmp);
    SortStable(s, cmp);
    SortedStableUnique(out, Sort(s, cmp), cmp);
  }
}
