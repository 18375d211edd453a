/** A stable insertion sort over an arbitrary "less than" relation, and what it
    guarantees. Python's `sorted(key=...)`, `list.sort(key=..., reverse=True)` and
    pandas' multi-column `sort_values` are all stable sorts; each is modelled by
    `Sort` with the matching relation. */
module Sorting {

  /** `lt` is a strict weak order on the values that satisfy `dom`: it is
      asymmetric there, and "not less than" is transitive there. */
  ghost predicate StrictWeakOn<T(!new)>(lt: (T, T) -> bool, dom: T -> bool) {
    && (forall a, b :: dom(a) && dom(b) && lt(a, b) ==> !lt(b, a))
    && (forall a, b, c :: dom(a) && dom(b) && dom(c) && lt(a, c) ==> lt(a, b) || lt(b, c))
  }

  ghost predicate AllIn<T>(s: seq<T>, dom: T -> bool) {
    forall x :: x in s ==> dom(x)
  }

  /** No element is less than one that comes before it. */
  ghost predicate SortedBy<T>(s: seq<T>, lt: (T, T) -> bool) {
    forall i, j :: 0 <= i < j < |s| ==> !lt(s[j], s[i])
  }

  /** Puts `x` in front of the first element of `s` that is not less than `x`:
      after the smaller ones and before the equivalent ones, which keeps a sort
      built from it stable. */
  function Insert<T>(x: T, s: seq<T>, lt: (T, T) -> bool): (r: seq<T>)
    ensures multiset(r) == multiset(s) + multiset{x}
    ensures |r| == |s| + 1
  {
    if s == [] || !lt(s[0], x) then [x] + s
    else
      assert s == [s[0]] + s[1..];
      [s[0]] + Insert(x, s[1..], lt)
  }

  /** Stable ascending sort: `Sort([x] + rest)` inserts `x`, which came first,
      in front of every element of the sorted rest that is equivalent to it. */
  function Sort<T>(s: seq<T>, lt: (T, T) -> bool): (r: seq<T>)
    ensures multiset(r) == multiset(s)
    ensures |r| == |s|
  {
    if s == [] then []
    else
      assert s == [s[0]] + s[1..];
      Insert(s[0], Sort(s[1..], lt), lt)
  }

  function RemoveAt<T>(s: seq<T>, i: nat): (r: seq<T>)
    requires i < |s|
    ensures |r| == |s| - 1
    ensures multiset(r) + multiset{s[i]} == multiset(s)
  {
    assert s == s[..i] + [s[i]] + s[i + 1..];
    s[..i] + s[i + 1..]
  }

  /** Index of the first element that nothing in `s` is less than. */
  function FirstMin<T>(s: seq<T>, lt: (T, T) -> bool): (i: nat)
    requires |s| > 0
    ensures i < |s|
  {
    if |s| == 1 then 0
    else
      var k := FirstMin(s[1..], lt);
      if lt(s[1 + k], s[0]) then 1 + k else 0
  }

  /** Index of the last element that is not less than anything in `s`. */
  function LastMax<T>(s: seq<T>, lt: (T, T) -> bool): (i: nat)
    requires |s| > 0
    ensures i < |s|
  {
    if |s| == 1 then 0
    else
      var k := LastMax(s[1..], lt);
      if lt(s[1 + k], s[0]) then 0 else 1 + k
  }

  lemma AllInTail<T>(s: seq<T>, dom: T -> bool)
    requires |s| > 0 && AllIn(s, dom)
    ensures AllIn(s[1..], dom) && dom(s[0])
  {
    forall x | x in s[1..] ensures dom(x) {
      assert x in s;
    }
  }

  lemma AllInPermutation<T>(s: seq<T>, t: seq<T>, dom: T -> bool)
    requires multiset(s) == multiset(t) && AllIn(s, dom)
    ensures AllIn(t, dom)
  {
    forall x | x in t ensures dom(x) {
      assert x in multiset(t);
    }
  }

  lemma {:induction false} InsertSorted<T(!new)>(x: T, s: seq<T>, lt: (T, T) -> bool, dom: T -> bool)
    requires StrictWeakOn(lt, dom) && AllIn(s, dom) && dom(x) && SortedBy(s, lt)
    ensures SortedBy(Insert(x, s, lt), lt)
  {
    if s == [] {
    } else if !lt(s[0], x) {
      forall e | e in s ensures !lt(e, x) {
        var j :| 0 <= j < |s| && s[j] == e;
        assert s[0] in s;
        if j > 0 {
          assert !lt(s[j], s[0]);
        }
      }
      ConsSorted(x, s, lt);
    } else {
      AllInTail(s, dom);
      var t := Insert(x, s[1..], lt);
      assert SortedBy(t, lt) by {
        InsertSorted(x, s[1..], lt, dom);
      }
      forall e | e in t ensures !lt(e, s[0]) {
        assert e in multiset(t);
        if e != x {
          assert e in s[1..];
          var j :| 0 <= j < |s[1..]| && s[1..][j] == e;
          assert s[1 + j] == e;
        }
      }
      ConsSorted(s[0], t, lt);
    }
  }

  lemma ConsSorted<T>(y: T, t: seq<T>, lt: (T, T) -> bool)
    requires SortedBy(t, lt) && forall e :: e in t ==> !lt(e, y)
    ensures SortedBy([y] + t, lt)
  {
    var u := [y] + t;
    forall i, j | 0 <= i < j < |u| ensures !lt(u[j], u[i]) {
      assert u[j] == t[j - 1] && u[j] in t;
      if i > 0 {
        assert u[i] == t[i - 1];
      }
    }
  }

  /** Under a strict weak order the result is sorted. */
  lemma {:induction false} SortIsSorted<T(!new)>(s: seq<T>, lt: (T, T) -> bool, dom: T -> bool)
    requires StrictWeakOn(lt, dom) && AllIn(s, dom)
    ensures SortedBy(Sort(s, lt), lt)
  {
    if s != [] {
      AllInTail(s, dom);
      SortIsSorted(s[1..], lt, dom);
      AllInPermutation(s[1..], Sort(s[1..], lt), dom);
      InsertSorted(s[0], Sort(s[1..], lt), lt, dom);
    }
  }

  /** The first element of the sorted sequence is the first minimal element of
      the input, whatever `lt` is. */
  lemma {:induction false} SortHead<T>(s: seq<T>, lt: (T, T) -> bool)
    requires |s| > 0
    ensures Sort(s, lt)[0] == s[FirstMin(s, lt)]
  {
    if |s| > 1 {
      SortHead(s[1..], lt);
    }
  }

  /** `FirstMin` picks an element nothing is less than, and every element before
      it is strictly greater than it. */
  lemma {:induction false} FirstMinIsFirstMinimal<T(!new)>(s: seq<T>, lt: (T, T) -> bool, dom: T -> bool)
    requires |s| > 0 && StrictWeakOn(lt, dom) && AllIn(s, dom)
    ensures forall j :: 0 <= j < |s| ==> !lt(s[j], s[FirstMin(s, lt)])
    ensures forall j :: 0 <= j < FirstMin(s, lt) ==> lt(s[FirstMin(s, lt)], s[j])
  {
    if |s| > 1 {
      var r := s[1..];
      AllInTail(s, dom);
      FirstMinIsFirstMinimal(r, lt, dom);
      var k := FirstMin(r, lt);
      assert r[k] in s && s[0] in s;
      if !lt(r[k], s[0]) {
        forall j | 0 < j < |s| ensures !lt(s[j], s[0]) {
          assert s[j] == r[j - 1] && s[j] in s;
          assert !lt(r[j - 1], r[k]);
        }
      } else {
        forall j | 0 <= j < |s| ensures !lt(s[j], r[k]) {
          if j > 0 {
            assert s[j] == r[j - 1];
          }
        }
      }
    }
  }

  /** `LastMax` picks an element that is not less than anything, and every
      element after it is strictly less than it. */
  lemma {:induction false} LastMaxIsLastMaximal<T(!new)>(s: seq<T>, lt: (T, T) -> bool, dom: T -> bool)
    requires |s| > 0 && StrictWeakOn(lt, dom) && AllIn(s, dom)
    ensures forall j :: 0 <= j < |s| ==> !lt(s[LastMax(s, lt)], s[j])
    ensures forall j :: LastMax(s, lt) < j < |s| ==> lt(s[j], s[LastMax(s, lt)])
  {
    if |s| > 1 {
      var r := s[1..];
      AllInTail(s, dom);
      LastMaxIsLastMaximal(r, lt, dom);
      var k := LastMax(r, lt);
      assert r[k] in s && s[0] in s;
      if lt(r[k], s[0]) {
        forall j | 0 < j < |s| ensures lt(s[j], s[0]) && !lt(s[0], s[j]) {
          assert s[j] == r[j - 1] && s[j] in s;
          assert !lt(r[k], r[j - 1]);
        }
      } else {
        forall j | 0 <= j < |s| ensures !lt(r[k], s[j]) {
          if j > 0 {
            assert s[j] == r[j - 1];
          }
        }
      }
    }
  }

  lemma {:induction false} InsertAfterAll<T>(x: T, t: seq<T>, lt: (T, T) -> bool)
    requires forall y :: y in t ==> lt(y, x)
    ensures Insert(x, t, lt) == t + [x]
  {
    if t != [] {
      assert t[0] in t;
      forall y | y in t[1..] ensures lt(y, x) {
        assert y in t;
      }
      InsertAfterAll(x, t[1..], lt);
      assert t == [t[0]] + t[1..];
    }
  }

  lemma {:induction false} InsertBeforeLast<T>(x: T, t: seq<T>, m: T, lt: (T, T) -> bool)
    requires !lt(m, x)
    ensures Insert(x, t + [m], lt) == Insert(x, t, lt) + [m]
  {
    var u := t + [m];
    if t == [] {
      assert u == [m];
    } else {
      assert u[0] == t[0] && u[1..] == t[1..] + [m];
      if lt(t[0], x) {
        InsertBeforeLast(x, t[1..], m, lt);
        calc {
          Insert(x, u, lt);
          [t[0]] + Insert(x, t[1..] + [m], lt);
          [t[0]] + (Insert(x, t[1..], lt) + [m]);
          ([t[0]] + Insert(x, t[1..], lt)) + [m];
        }
      } else {
        assert Insert(x, u, lt) == [x] + u;
        assert [x] + u == ([x] + t) + [m];
      }
    }
  }

  /** Stability, stated at the end of the result: the last element of the sorted
      sequence is the last maximal element of the input, and the rest is the
      sorted input without it. */
  lemma {:induction false} SortSplitLast<T(!new)>(s: seq<T>, lt: (T, T) -> bool, dom: T -> bool)
    requires |s| > 0 && StrictWeakOn(lt, dom) && AllIn(s, dom)
    ensures Sort(s, lt) == Sort(RemoveAt(s, LastMax(s, lt)), lt) + [s[LastMax(s, lt)]]
  {
    if |s| == 1 {
      assert RemoveAt(s, 0) == [];
    } else {
      var x, r := s[0], s[1..];
      var k := LastMax(r, lt);
      AllInTail(s, dom);
      if lt(r[k], x) {
        SplitFirstIsLast(s, lt, dom);
      } else {
        SortSplitLast(r, lt, dom);
        assert LastMax(s, lt) == 1 + k && s[1 + k] == r[k];
        SplitInTail(s, k, lt);
      }
    }
  }

  lemma SplitFirstIsLast<T(!new)>(s: seq<T>, lt: (T, T) -> bool, dom: T -> bool)
    requires |s| > 1 && StrictWeakOn(lt, dom) && AllIn(s, dom)
    requires lt(s[1 + LastMax(s[1..], lt)], s[0])
    ensures Sort(s, lt) == Sort(RemoveAt(s, 0), lt) + [s[0]]
  {
    var x, r := s[0], s[1..];
    assert LastMax(s, lt) == 0;
    LastMaxIsLastMaximal(s, lt, dom);
    var t := Sort(r, lt);
    forall y | y in t ensures lt(y, x) {
      assert y in multiset(t);
      assert y in r;
      var j :| 0 <= j < |r| && r[j] == y;
      assert s[j + 1] == y;
    }
    InsertAfterAll(x, t, lt);
    assert RemoveAt(s, 0) == r;
    assert Sort(s, lt) == Insert(x, t, lt);
  }

  lemma RemoveAtCons<T>(s: seq<T>, k: nat)
    requires k + 1 < |s|
    ensures RemoveAt(s, 1 + k) == [s[0]] + RemoveAt(s[1..], k)
  {
    var r := s[1..];
    assert s[..1 + k] == [s[0]] + r[..k];
    assert s[2 + k..] == r[k + 1..];
  }

  lemma SplitInTail<T>(s: seq<T>, k: nat, lt: (T, T) -> bool)
    requires k + 1 < |s| && !lt(s[1 + k], s[0])
    requires Sort(s[1..], lt) == Sort(RemoveAt(s[1..], k), lt) + [s[1 + k]]
    ensures Sort(s, lt) == Sort(RemoveAt(s, 1 + k), lt) + [s[1 + k]]
  {
    var x, r' := s[0], RemoveAt(s[1..], k);
    var u := [x] + r';
    assert RemoveAt(s, 1 + k) == u by {
      RemoveAtCons(s, k);
    }
    assert Sort(s, lt) == Insert(x, Sort(s[1..], lt), lt);
    assert u[0] == x && u[1..] == r';
    assert Sort(u, lt) == Insert(x, Sort(r', lt), lt);
    InsertBeforeLast(x, Sort(r', lt), s[1 + k], lt);
  }

  /** The last two elements of the sorted sequence: the last is the last
      maximal element of `s`; the one before it is the last maximal element of
      what remains once that one is set aside. */
  lemma {:induction false} SortLastTwo<T(!new)>(s: seq<T>, lt: (T, T) -> bool, dom: T -> bool)
    requires |s| >= 2 && StrictWeakOn(lt, dom) && AllIn(s, dom)
    ensures var k := LastMax(s, lt); var rest := RemoveAt(s, k); var m := LastMax(rest, lt);
      var k' := if m < k then m else m + 1;
      && k' < |s| && k != k'
      && s[k] == Sort(s, lt)[|s| - 1] && s[k'] == Sort(s, lt)[|s| - 2]
      && (forall j :: 0 <= j < |s| ==> !lt(s[k], s[j]))
      && (forall j :: 0 <= j < |s| && j != k ==> !lt(s[k'], s[j]))
      && (forall j :: k < j < |s| ==> lt(s[j], s[k]))
  {
    var k := LastMax(s, lt);
    var rest := RemoveAt(s, k);
    var m := LastMax(rest, lt);
    var k' := if m < k then m else m + 1;
    LastMaxIsLastMaximal(s, lt, dom);
    RemoveAtAllIn(s, k, dom);
    SortLastPair(s, lt, dom);
    LastMaxIsLastMaximal(rest, lt, dom);
    RemoveAtIndex(s, k, m);
    forall j | 0 <= j < |s| && j != k ensures !lt(s[k'], s[j]) {
      var jr := if j < k then j else j - 1;
      RemoveAtIndex(s, k, jr);
    }
  }

  lemma RemoveAtAllIn<T>(s: seq<T>, k: nat, dom: T -> bool)
    requires k < |s| && AllIn(s, dom)
    ensures AllIn(RemoveAt(s, k), dom)
  {
    forall x | x in RemoveAt(s, k) ensures dom(x) {
      assert x in multiset(RemoveAt(s, k));
      assert x in multiset(s);
    }
  }

  lemma SortLastPair<T(!new)>(s: seq<T>, lt: (T, T) -> bool, dom: T -> bool)
    requires |s| >= 2 && StrictWeakOn(lt, dom) && AllIn(s, dom)
    ensures var k := LastMax(s, lt); var rest := RemoveAt(s, k);
      && Sort(s, lt)[|s| - 1] == s[k]
      && Sort(s, lt)[|s| - 2] == rest[LastMax(rest, lt)]
  {
    var k := LastMax(s, lt);
    var rest := RemoveAt(s, k);
    var sr := Sort(rest, lt);
    assert Sort(s, lt) == sr + [s[k]] by {
      SortSplitLast(s, lt, dom);
    }
    assert sr[|sr| - 1] == rest[LastMax(rest, lt)] by {
      RemoveAtAllIn(s, k, dom);
      SortSplitLast(rest, lt, dom);
    }
  }

  lemma RemoveAtIndex<T>(s: seq<T>, i: nat, j: nat)
    requires i < |s| && j < |s| - 1
    ensures RemoveAt(s, i)[j] == s[if j < i then j else j + 1]
  {
  }

  /** Every element of the sorted sequence comes from the input. */
  lemma SortedFromInput<T>(s: seq<T>, lt: (T, T) -> bool, k: nat)
    requires k < |s|
    ensures Sort(s, lt)[k] in s
  {
    var r := Sort(s, lt);
    assert r[k] in multiset(r);
  }
}
