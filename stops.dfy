/** The editor's stop list (`GradientStop`, src/GradientEditor/constants.ts:11-15)
    and the order every editing operation leaves it in: `stopSort`
    (src/GradientEditor/index.tsx:46-49) sorts by `position || 0`, ascending,
    with the stable `Array.prototype.sort`. */
module Stops {
  import opened Text
  import opened Numbers

  /** A stop: its id (a natural supplied by the caller in place of `uuid()`),
      its color text and its position in percent. */
  datatype Stop = Stop(id: nat, color: string, position: JsNumber)

  /** The sort key `position || 0`. */
  function Key(s: Stop): real { OrZero(s.position) }

  predicate Sorted(s: seq<Stop>) {
    forall i, j :: 0 <= i < j < |s| ==> Key(s[i]) <= Key(s[j])
  }

  /** Insertion of `x` into a list, from the right: `x` passes every element
      whose key is strictly greater, so it lands after the elements whose key
      equals its own. */
  function Insert(s: seq<Stop>, x: Stop): seq<Stop>
    decreases |s|
  {
    if |s| == 0 || Key(s[|s| - 1]) <= Key(x) then s + [x]
    else Insert(s[..|s| - 1], x) + [s[|s| - 1]]
  }

  /** The stable sort by key: each element in turn is inserted into the sorted
      prefix before it. */
  function SortByKey(s: seq<Stop>): seq<Stop>
    decreases |s|
  {
    if |s| == 0 then [] else Insert(SortByKey(s[..|s| - 1]), s[|s| - 1])
  }

  /** The elements of `s` whose key is `k`, in their order in `s`. */
  function WithKey(s: seq<Stop>, k: real): seq<Stop>
    decreases |s|
  {
    if |s| == 0 then []
    else WithKey(s[..|s| - 1], k) + (if Key(s[|s| - 1]) == k then [s[|s| - 1]] else [])
  }

  lemma {:induction false} WithKeyConcat(a: seq<Stop>, b: seq<Stop>, k: real)
    ensures WithKey(a + b, k) == WithKey(a, k) + WithKey(b, k)
    decreases |b|
  {
    if |b| == 0 {
      assert a + b == a;
    } else {
      assert (a + b)[..|a + b| - 1] == a + b[..|b| - 1];
      WithKeyConcat(a, b[..|b| - 1], k);
    }
  }

  lemma {:induction false} InsertCount(s: seq<Stop>, x: Stop)
    ensures multiset(Insert(s, x)) == multiset(s) + multiset{x}
    decreases |s|
  {
    if |s| > 0 && Key(s[|s| - 1]) > Key(x) {
      var init := s[..|s| - 1];
      assert s == init + [s[|s| - 1]];
      InsertCount(init, x);
    }
  }

  lemma {:induction false} InsertSorted(s: seq<Stop>, x: Stop)
    requires Sorted(s)
    ensures Sorted(Insert(s, x))
    decreases |s|
  {
    if |s| > 0 && Key(s[|s| - 1]) > Key(x) {
      var init, last := s[..|s| - 1], s[|s| - 1];
      assert Sorted(init);
      InsertSorted(init, x);
      InsertCount(init, x);
      var r := Insert(init, x);
      forall i | 0 <= i < |r| ensures Key(r[i]) <= Key(last) {
        assert r[i] in multiset(r);
        if r[i] != x {
          assert r[i] in multiset(init);
          var m :| 0 <= m < |init| && init[m] == r[i];
          assert s[m] == init[m];
        }
      }
    }
  }

  lemma {:induction false} InsertWithKey(s: seq<Stop>, x: Stop, k: real)
    ensures WithKey(Insert(s, x), k) == WithKey(s, k) + (if Key(x) == k then [x] else [])
    decreases |s|
  {
    if |s| == 0 || Key(s[|s| - 1]) <= Key(x) {
      WithKeyConcat(s, [x], k);
      assert [x][..0] == [];
    } else {
      var init, last := s[..|s| - 1], s[|s| - 1];
      assert s == init + [last];
      InsertWithKey(init, x, k);
      WithKeyConcat(Insert(init, x), [last], k);
      WithKeyConcat(init, [last], k);
      assert [last][..0] == [];
    }
  }

  /** The result is sorted, holds the same stops, and keeps stops with equal
      keys in their input order (it is stable). */
  lemma {:induction false} SortByKeyProperties(s: seq<Stop>)
    ensures Sorted(SortByKey(s))
    ensures multiset(SortByKey(s)) == multiset(s)
    ensures forall k :: WithKey(SortByKey(s), k) == WithKey(s, k)
    decreases |s|
  {
    if |s| > 0 {
      var init, last := s[..|s| - 1], s[|s| - 1];
      assert s == init + [last];
      SortByKeyProperties(init);
      InsertCount(SortByKey(init), last);
      InsertSorted(SortByKey(init), last);
      forall k ensures WithKey(SortByKey(s), k) == WithKey(s, k) {
        InsertWithKey(SortByKey(init), last, k);
        WithKeyConcat(init, [last], k);
        assert [last][..0] == [];
      }
    }
  }

  /** A list already in order is left as it is, so sorting twice is sorting once. */
  lemma {:induction false} SortByKeyOfSorted(s: seq<Stop>)
    requires Sorted(s)
    ensures SortByKey(s) == s
    decreases |s|
  {
    if |s| > 0 {
      var init := s[..|s| - 1];
      assert Sorted(init);
      SortByKeyOfSorted(init);
      assert init + [s[|s| - 1]] == s;
    }
  }

  lemma SortByKeyIdempotent(s: seq<Stop>)
    ensures SortByKey(SortByKey(s)) == SortByKey(s)
  {
    SortByKeyProperties(s);
    SortByKeyOfSorted(SortByKey(s));
  }

  /** Where insertion puts `x`: after the last element whose key is at most
      its own, with only strictly greater keys behind it. */
  lemma {:induction false} InsertAt(t: seq<Stop>, x: Stop, j: nat)
    requires j <= |t| && (j == 0 || Key(t[j - 1]) <= Key(x))
    requires forall m :: j <= m < |t| ==> Key(t[m]) > Key(x)
    ensures Insert(t, x) == t[..j] + [x] + t[j..]
    decreases |t|
  {
    if j < |t| {
      var init := t[..|t| - 1];
      InsertAt(init, x, j);
      assert init[..j] == t[..j];
      assert init[j..] + [t[|t| - 1]] == t[j..];
    } else {
      assert t[..j] == t && t[j..] == [];
    }
  }

  /** One step of the insertion sort: `a[i]` moves left past every element of
      the prefix `a[..i]` whose key is strictly greater. */
  method InsertLast(a: array<Stop>, i: nat)
    requires i < a.Length
    modifies a
    ensures a[..i + 1] == Insert(old(a[..i]), old(a[i]))
    ensures forall m :: i < m < a.Length ==> a[m] == old(a[m])
  {
    var x := a[i];
    ghost var sorted := a[..i];
    var j := i;
    while j > 0 && Key(a[j - 1]) > Key(x)
      invariant 0 <= j <= i
      invariant forall m :: 0 <= m < j ==> a[m] == sorted[m]
      invariant forall m :: j < m <= i ==> a[m] == sorted[m - 1]
      invariant forall m :: i < m < a.Length ==> a[m] == old(a[m])
      invariant forall m :: j <= m < i ==> Key(sorted[m]) > Key(x)
    {
      a[j] := a[j - 1];
      j := j - 1;
    }
    a[j] := x;
    InsertAt(sorted, x, j);
    Placed(a, sorted, x, i, j);
  }

  lemma Placed(a: array<Stop>, t: seq<Stop>, x: Stop, i: nat, j: nat)
    requires j <= i < a.Length && |t| == i
    requires forall m :: 0 <= m < j ==> a[m] == t[m]
    requires a[j] == x
    requires forall m :: j < m <= i ==> a[m] == t[m - 1]
    ensures a[..i + 1] == t[..j] + [x] + t[j..]
  {
    var u := t[..j] + [x] + t[j..];
    assert forall m :: 0 <= m < j ==> u[m] == t[m];
    assert forall m :: j < m <= i ==> u[m] == t[m - 1];
    assert forall m :: 0 <= m < i + 1 ==> a[m] == u[m];
  }

  /** `stopSort` (index.tsx:46-49): `arr.sort` by `position || 0`, in place.
      The engine's sort is stable; insertion sort is. */
  method SortInPlace(a: array<Stop>)
    modifies a
    ensures a[..] == SortByKey(old(a[..]))
  {
    ghost var input := a[..];
    var i := 0;
    while i < a.Length
      invariant 0 <= i <= a.Length
      invariant a[..i] == SortByKey(input[..i])
      invariant forall m :: i <= m < a.Length ==> a[m] == input[m]
    {
      InsertLast(a, i);
      assert input[..i + 1][..i] == input[..i];
      i := i + 1;
    }
    assert input[..a.Length] == input;
  }

  /** `findIndex` by id: the first stop carrying `id`. */
  function IndexOfId(s: seq<Stop>, id: nat): (r: Option<nat>)
    ensures r.Some? ==> r.value < |s| && s[r.value].id == id
    ensures r.Some? ==> forall j :: 0 <= j < r.value ==> s[j].id != id
    ensures r.None? ==> forall j :: 0 <= j < |s| ==> s[j].id != id
    decreases |s|
  {
    if |s| == 0 then None
    else if s[0].id == id then Some(0)
    else match IndexOfId(s[1..], id)
      case None => None
      case Some(k) => Some(k + 1)
  }
}
