/**
 * Sorting as `Array.prototype.sort` does it with a comparator: stably
 * (ECMAScript 2019), placing `a` before `b` whenever the comparator is at
 * most zero. `leq(a, b)` stands for "comparator(a, b) <= 0".
 *
 * `SortBy` is an insertion sort: the reference result of any stable sort.
 * Its contracts state permutation; `SortBySorted` and `SortByStable` state
 * that the result is ordered and that elements the comparator ranks equal
 * keep their input order, for comparators that are a total preorder on the
 * elements being sorted.
 */
module Sorting {

  /** `leq` is total and transitive on the elements of `s`. */
  ghost predicate TotalPreorderOn<T>(leq: (T, T) -> bool, s: seq<T>) {
    && (forall a, b :: a in s && b in s ==> leq(a, b) || leq(b, a))
    && (forall a, b, c :: a in s && b in s && c in s && leq(a, b) && leq(b, c) ==> leq(a, c))
  }

  /** Every element is `leq` every element after it. */
  ghost predicate Sorted<T>(s: seq<T>, leq: (T, T) -> bool) {
    forall i, j :: 0 <= i < j < |s| ==> leq(s[i], s[j])
  }

  /** Insert `x` before the first element it is `leq`. */
  function InsertBefore<T>(x: T, t: seq<T>, leq: (T, T) -> bool): (r: seq<T>)
    ensures multiset(r) == multiset(t) + multiset{x}
    ensures |r| == |t| + 1
  {
    if t == [] then [x]
    else if leq(x, t[0]) then [x] + t
    else
      assert t == [t[0]] + t[1..];
      [t[0]] + InsertBefore(x, t[1..], leq)
  }

  /** The elements of `s`, sorted stably by `leq`. */
  function SortBy<T>(s: seq<T>, leq: (T, T) -> bool): (r: seq<T>)
    ensures multiset(r) == multiset(s)
    ensures |r| == |s|
  {
    if s == [] then []
    else
      assert s == [s[0]] + s[1..];
      InsertBefore(s[0], SortBy(s[1..], leq), leq)
  }

  lemma {:induction false} InsertSorted<T>(x: T, t: seq<T>, leq: (T, T) -> bool, dom: seq<T>)
    requires TotalPreorderOn(leq, dom) && x in dom && forall e :: e in t ==> e in dom
    requires Sorted(t, leq)
    ensures Sorted(InsertBefore(x, t, leq), leq)
  {
    if t == [] {
    } else if leq(x, t[0]) {
      var r := [x] + t;
      forall i, j | 0 <= i < j < |r| ensures leq(r[i], r[j]) {
        if i == 0 {
          if j > 1 {
            assert leq(t[0], r[j]);
          }
        } else {
          assert r[i] == t[i - 1] && r[j] == t[j - 1];
        }
      }
    } else {
      var tail := t[1..];
      assert t[0] in t;
      assert leq(t[0], x);
      forall e | e in tail ensures e in dom {
        assert e in t;
      }
      InsertSorted(x, tail, leq, dom);
      var ins := InsertBefore(x, tail, leq);
      var r := [t[0]] + ins;
      forall i, j | 0 <= i < j < |r| ensures leq(r[i], r[j]) {
        if i == 0 {
          var e := r[j];
          assert e == ins[j - 1];
          assert e in multiset(ins);
          if e != x {
            assert e in multiset(tail);
            var k :| 0 <= k < |tail| && tail[k] == e;
            assert e == t[k + 1];
          }
        } else {
          assert r[i] == ins[i - 1] && r[j] == ins[j - 1];
        }
      }
    }
  }

  lemma {:induction false} SortBySortedIn<T>(s: seq<T>, leq: (T, T) -> bool, dom: seq<T>)
    requires TotalPreorderOn(leq, dom) && forall e :: e in s ==> e in dom
    ensures Sorted(SortBy(s, leq), leq)
  {
    if s != [] {
      var rest := SortBy(s[1..], leq);
      forall e | e in s[1..] ensures e in dom {
        assert e in s;
      }
      SortBySortedIn(s[1..], leq, dom);
      forall e | e in rest ensures e in dom {
        assert e in multiset(rest);
        assert e in multiset(s[1..]);
        assert e in s[1..];
      }
      assert s[0] in s;
      InsertSorted(s[0], rest, leq, dom);
    }
  }

  /** The result of `SortBy` is ordered by `leq`. */
  lemma SortBySorted<T>(s: seq<T>, leq: (T, T) -> bool)
    requires TotalPreorderOn(leq, s)
    ensures Sorted(SortBy(s, leq), leq)
  {
    SortBySortedIn(s, leq, s);
  }

  /** `leq` ranks `a` and `b` equal. */
  ghost predicate Tied<T>(leq: (T, T) -> bool, a: T, b: T) {
    leq(a, b) && leq(b, a)
  }

  /** The elements of `s` ranked equal to `y`, in their order in `s`. */
  ghost function TiedWith<T>(s: seq<T>, y: T, leq: (T, T) -> bool): seq<T> {
    if s == [] then []
    else (if Tied(leq, s[0], y) then [s[0]] else []) + TiedWith(s[1..], y, leq)
  }

  lemma {:induction false} InsertStable<T>(x: T, t: seq<T>, y: T, leq: (T, T) -> bool, dom: seq<T>)
    requires TotalPreorderOn(leq, dom) && x in dom && y in dom && forall e :: e in t ==> e in dom
    ensures TiedWith(InsertBefore(x, t, leq), y, leq)
            == (if Tied(leq, x, y) then [x] else []) + TiedWith(t, y, leq)
  {
    if t == [] {
      assert TiedWith([x], y, leq) == (if Tied(leq, x, y) then [x] else []) + TiedWith([x][1..], y, leq);
    } else if leq(x, t[0]) {
      var r := [x] + t;
      assert r[1..] == t;
    } else {
      forall e | e in t[1..] ensures e in dom {
        assert e in t;
      }
      InsertStable(x, t[1..], y, leq, dom);
      var t0 := t[0];
      assert t0 in t;
      InsertStableStep(x, t, y, leq);
    }
  }

  /** The step of `InsertStable` where `x` goes past `t[0]`. */
  lemma InsertStableStep<T>(x: T, t: seq<T>, y: T, leq: (T, T) -> bool)
    requires t != [] && !leq(x, t[0])
    requires !(Tied(leq, x, y) && Tied(leq, t[0], y))
    requires TiedWith(InsertBefore(x, t[1..], leq), y, leq)
             == (if Tied(leq, x, y) then [x] else []) + TiedWith(t[1..], y, leq)
    ensures TiedWith(InsertBefore(x, t, leq), y, leq)
            == (if Tied(leq, x, y) then [x] else []) + TiedWith(t, y, leq)
  {
    var tail := t[1..];
    var ex: seq<T> := if Tied(leq, x, y) then [x] else [];
    var e0: seq<T> := if Tied(leq, t[0], y) then [t[0]] else [];
    var ins := InsertBefore(x, tail, leq);
    var r := [t[0]] + ins;
    assert r[0] == t[0] && r[1..] == ins;
    var rt := TiedWith(tail, y, leq);
    assert TiedWith(r, y, leq) == e0 + (ex + rt);
    assert TiedWith(t, y, leq) == e0 + rt;
    if Tied(leq, x, y) {
      assert e0 == [];
      assert e0 + (ex + rt) == ex + rt;
      assert ex + (e0 + rt) == ex + rt;
    } else {
      assert ex == [];
      assert ex + (e0 + rt) == e0 + rt;
      assert e0 + (ex + rt) == e0 + rt;
    }
  }

  lemma {:induction false} SortByStableIn<T>(s: seq<T>, y: T, leq: (T, T) -> bool, dom: seq<T>)
    requires TotalPreorderOn(leq, dom) && y in dom && forall e :: e in s ==> e in dom
    ensures TiedWith(SortBy(s, leq), y, leq) == TiedWith(s, y, leq)
  {
    if s != [] {
      var rest := SortBy(s[1..], leq);
      forall e | e in s[1..] ensures e in dom {
        assert e in s;
      }
      SortByStableIn(s[1..], y, leq, dom);
      forall e | e in rest ensures e in dom {
        assert e in multiset(rest);
        assert e in multiset(s[1..]);
        assert e in s[1..];
      }
      assert s[0] in s;
      InsertStable(s[0], rest, y, leq, dom);
      assert TiedWith(s, y, leq) == (if Tied(leq, s[0], y) then [s[0]] else []) + TiedWith(s[1..], y, leq);
    }
  }

  /** `SortBy` is stable: the elements ranked equal to any `y` come out in
      the order they went in. */
  lemma SortByStable<T>(s: seq<T>, y: T, leq: (T, T) -> bool)
    requires TotalPreorderOn(leq, [y] + s)
    ensures TiedWith(SortBy(s, leq), y, leq) == TiedWith(s, y, leq)
  {
    forall e | e in s ensures e in [y] + s {
      var k :| 0 <= k < |s| && s[k] == e;
      assert ([y] + s)[k + 1] == e;
    }
    SortByStableIn(s, y, leq, [y] + s);
  }

  /** The elements of `s` that satisfy `p`, in their order in `s`. */
  function Filter<T>(s: seq<T>, p: T -> bool): (r: seq<T>)
    ensures forall i :: 0 <= i < |r| ==> p(r[i])
    ensures multiset(r) <= multiset(s)
    ensures forall i :: 0 <= i < |s| ==> (s[i] in r <==> p(s[i]))
  {
    if s == [] then []
    else
      assert s == [s[0]] + s[1..];
      (if p(s[0]) then [s[0]] else []) + Filter(s[1..], p)
  }

  lemma {:induction false} FilterAppend<T>(a: seq<T>, b: seq<T>, p: T -> bool)
    ensures Filter(a + b, p) == Filter(a, p) + Filter(b, p)
  {
    if a == [] {
      assert a + b == b;
    } else {
      assert (a + b)[0] == a[0] && (a + b)[1..] == a[1..] + b;
      FilterAppend(a[1..], b, p);
    }
  }

  /** Nothing is selected when no element satisfies `p`. */
  lemma {:induction false} FilterNone<T>(s: seq<T>, p: T -> bool)
    requires forall i :: 0 <= i < |s| ==> !p(s[i])
    ensures Filter(s, p) == []
  {
    if s != [] {
      assert !p(s[0]);
      FilterNone(s[1..], p);
    }
  }

  /** `TiedWith` is the filter by any predicate that agrees with "ranked
      equal to `y`" on the elements. */
  lemma {:induction false} TiedWithFilter<T>(s: seq<T>, y: T, leq: (T, T) -> bool, p: T -> bool)
    requires forall i :: 0 <= i < |s| ==> (Tied(leq, s[i], y) <==> p(s[i]))
    ensures TiedWith(s, y, leq) == Filter(s, p)
  {
    if s != [] {
      assert Tied(leq, s[0], y) <==> p(s[0]);
      TiedWithFilter(s[1..], y, leq, p);
    }
  }
}
