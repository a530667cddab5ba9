/**
 * Distinct elements in order of first appearance. Both tables the OBJ loader builds
 * with a Dictionary (the corner-key table of the scan and the per-object remap table
 * of the build) number what they see this way: the first new element gets 0, the next
 * new one 1, and a repeated element keeps the number it got first.
 */
module FirstSeen {

  predicate Distinct<T(==, !new)>(s: seq<T>) {
    forall i, j | 0 <= i < j < |s| :: s[i] != s[j]
  }

  /** `List.Contains` followed by `List.Add` when absent. */
  function AddIfAbsent<T(==, !new)>(s: seq<T>, x: T): (r: seq<T>)
    ensures Distinct(s) ==> Distinct(r)
    ensures x in r && forall y :: y in r <==> y in s || y == x
  {
    if x in s then s else s + [x]
  }

  /** The distinct elements of `s`, each at the place it first occurs. */
  function Firsts<T(==, !new)>(s: seq<T>): (r: seq<T>)
    ensures Distinct(r)
    ensures forall x :: x in r <==> x in s
    ensures |r| <= |s|
  {
    if |s| == 0 then []
    else
      var init := s[..|s| - 1];
      assert s == init + [s[|s| - 1]];
      AddIfAbsent(Firsts(init), s[|s| - 1])
  }

  /** Position of the first occurrence of `x` in `s`, or |s| when `x` is absent. */
  function IndexOf<T(==, !new)>(s: seq<T>, x: T): (i: nat)
    ensures i <= |s|
    ensures i < |s| <==> x in s
    ensures i < |s| ==> s[i] == x
    ensures forall j | 0 <= j < i :: s[j] != x
  {
    if |s| == 0 then 0
    else if s[0] == x then 0
    else 1 + IndexOf(s[1..], x)
  }

  /** The table `x -> IndexOf(order, x)` for the elements of `order`. */
  function PositionMap<T(==, !new)>(order: seq<T>): (m: map<T, int>)
    ensures forall x :: x in m <==> x in order
    ensures forall x | x in m :: 0 <= m[x] < |order| && order[m[x]] == x
  {
    map x | x in order :: IndexOf(order, x)
  }

  /** A prefix of a duplicate-free sequence is duplicate-free, and misses the next element. */
  lemma DistinctInit<T(!new)>(s: seq<T>)
    requires Distinct(s) && |s| > 0
    ensures Distinct(s[..|s| - 1]) && s[|s| - 1] !in s[..|s| - 1]
  {
  }

  /** Seeing one more element adds it when it is new. */
  lemma FirstsSnoc<T(!new)>(a: seq<T>, x: T)
    ensures Firsts(a + [x]) == AddIfAbsent(Firsts(a), x)
  {
    assert (a + [x])[..|a|] == a;
  }

  lemma {:induction false} IndexOfDistinct<T(!new)>(s: seq<T>, i: int)
    requires Distinct(s) && 0 <= i < |s|
    ensures IndexOf(s, s[i]) == i
  {
    // IndexOf(s, s[i]) <= i because s[i] occurs at i, and no earlier j holds s[i] by distinctness
  }

  lemma {:induction false} IndexOfPrefix<T(!new)>(p: seq<T>, q: seq<T>, x: T)
    requires |p| <= |q| && q[..|p|] == p && x in p
    ensures IndexOf(q, x) == IndexOf(p, x)
  {
    var i := IndexOf(p, x);
    assert q[i] == x;
    assert forall j | 0 <= j < i :: q[j] == p[j];
  }

  lemma {:induction false} PositionMapSnoc<T(!new)>(order: seq<T>, x: T)
    requires x !in order
    ensures PositionMap(order + [x]) == PositionMap(order)[x := |order|]
  {
    var o := order + [x];
    var l := PositionMap(o);
    var r := PositionMap(order)[x := |order|];
    forall y | y in order
      ensures IndexOf(o, y) == IndexOf(order, y)
    {
      assert o[..|order|] == order;
      IndexOfPrefix(order, o, y);
    }
    assert IndexOf(o, x) == |order|;
    assert l.Keys == r.Keys;
  }

  lemma {:induction false} DistinctSnoc<T(!new)>(s: seq<T>, x: T)
    requires Distinct(s) && x !in s
    ensures Distinct(s + [x])
  {
  }

  /** A distinct sequence has as many elements as its position table has keys. */
  lemma {:induction false} PositionMapSize<T(!new)>(order: seq<T>)
    requires Distinct(order)
    ensures |PositionMap(order)| == |order|
  {
    if |order| > 0 {
      var init := order[..|order| - 1];
      var x := order[|order| - 1];
      assert order == init + [x];
      assert Distinct(init);
      assert x !in init;
      PositionMapSize(init);
      PositionMapSnoc(init, x);
    }
  }

  /** Firsts of a longer sequence extends Firsts of its prefix. */
  lemma {:induction false} FirstsPrefix<T(!new)>(a: seq<T>, b: seq<T>)
    ensures |Firsts(a)| <= |Firsts(a + b)|
    ensures Firsts(a + b)[..|Firsts(a)|] == Firsts(a)
    decreases |b|
  {
    if |b| > 0 {
      var b' := b[..|b| - 1];
      assert (a + b)[..|a + b| - 1] == a + b';
      FirstsPrefix(a, b');
    } else {
      assert a + b == a;
    }
  }

  /** Elements of Firsts(s) appear in s in the same order as they do in Firsts(s). */
  lemma {:induction false} FirstsFollowFirstAppearance<T(!new)>(s: seq<T>, i: int, j: int)
    requires 0 <= i < j < |Firsts(s)|
    ensures IndexOf(s, Firsts(s)[i]) < IndexOf(s, Firsts(s)[j])
  {
    var init := s[..|s| - 1];
    var x := s[|s| - 1];
    assert s == init + [x];
    assert s[..|init|] == init;
    var f := Firsts(init);
    IndexOfPrefix(init, s, Firsts(s)[i]);
    if j < |f| {
      IndexOfPrefix(init, s, Firsts(s)[j]);
      FirstsFollowFirstAppearance(init, i, j);
    } else {
      // the last element is new: it first appears at the end of s
      assert Firsts(s)[j] == x && x !in init;
      assert IndexOf(s, x) == |init|;
    }
  }
}
