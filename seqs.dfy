/** Searching a sequence, the way Rust's `Iterator::find` and `Iterator::position` do. */
module Seqs {
  import opened Wrappers

  /** The position of the first element that satisfies `p`, if any. */
  function FirstIndex<T>(s: seq<T>, p: T -> bool): (r: Option<nat>)
    ensures r.Some? ==> r.value < |s| && p(s[r.value])
    ensures r.Some? ==> forall j :: 0 <= j < r.value ==> !p(s[j])
    ensures r.None? <==> forall j :: 0 <= j < |s| ==> !p(s[j])
  {
    if s == [] then None
    else if p(s[0]) then Some(0)
    else match FirstIndex(s[1..], p)
      case None => None
      case Some(i) => Some(i + 1)
  }

  /** The search loop of a `for` with an early return: the first position where `p` holds. */
  method FindFirst<T>(s: seq<T>, p: T -> bool) returns (r: Option<nat>)
    ensures r == FirstIndex(s, p)
  {
    var i := 0;
    while i < |s|
      invariant i <= |s|
      invariant forall j :: 0 <= j < i ==> !p(s[j])
    {
      if p(s[i]) {
        FirstIndexAt(s, p, i);
        return Some(i);
      }
      i := i + 1;
    }
    r := None;
  }

  /** A position where `p` holds and holds nowhere before is the first one. */
  lemma FirstIndexAt<T>(s: seq<T>, p: T -> bool, k: nat)
    requires k < |s| && p(s[k])
    requires forall j :: 0 <= j < k ==> !p(s[j])
    ensures FirstIndex(s, p) == Some(k)
  {
    var r := FirstIndex(s, p);
    assert r.Some? && r.value == k by {
      assert r.Some? ==> !(r.value < k) && !(k < r.value);
    }
  }

  /** Rust's `filter_map`: the `Some` results of `f` over `s`, in order. */
  function FilterMap<A, B>(s: seq<A>, f: A -> Option<B>): seq<B>
    decreases |s|
  {
    if s == [] then []
    else (match f(s[0]) case Some(b) => [b] case None => []) + FilterMap(s[1..], f)
  }

  /** `filter_map` over a concatenation is the concatenation of the two results. */
  lemma {:induction false} FilterMapAppend<A, B>(a: seq<A>, b: seq<A>, f: A -> Option<B>)
    ensures FilterMap(a + b, f) == FilterMap(a, f) + FilterMap(b, f)
    decreases |a|
  {
    if a == [] {
      assert a + b == b;
    } else {
      assert (a + b)[1..] == a[1..] + b;
      FilterMapAppend(a[1..], b, f);
    }
  }

  /** An element that `f` maps to `None` can be left out. */
  lemma FilterMapDrop<A, B>(a: seq<A>, x: A, b: seq<A>, f: A -> Option<B>)
    requires f(x).None?
    ensures FilterMap(a + [x] + b, f) == FilterMap(a + b, f)
  {
    FilterMapAppend(a + [x], b, f);
    FilterMapAppend(a, [x], f);
    FilterMapAppend(a, b, f);
    assert FilterMap([x], f) == [];
  }

  /** The result is no longer than the input, and each result comes from some element. */
  lemma {:induction false} FilterMapSound<A, B>(s: seq<A>, f: A -> Option<B>)
    ensures |FilterMap(s, f)| <= |s|
    ensures forall y :: y in FilterMap(s, f) ==> exists i :: 0 <= i < |s| && f(s[i]) == Some(y)
    decreases |s|
  {
    if s != [] {
      FilterMapSound(s[1..], f);
      forall y | y in FilterMap(s, f) ensures exists i :: 0 <= i < |s| && f(s[i]) == Some(y) {
        if f(s[0]) != Some(y) {
          var i :| 0 <= i < |s[1..]| && f(s[1..][i]) == Some(y);
          assert f(s[i + 1]) == Some(y);
        }
      }
    }
  }

  /** When `f` gives `Some` everywhere, the result keeps every element, in order. */
  lemma {:induction false} FilterMapAllSome<A, B>(s: seq<A>, f: A -> Option<B>)
    requires forall i :: 0 <= i < |s| ==> f(s[i]).Some?
    ensures |FilterMap(s, f)| == |s|
    ensures forall i :: 0 <= i < |s| ==> FilterMap(s, f)[i] == f(s[i]).value
    decreases |s|
  {
    if s != [] {
      assert f(s[0]).Some?;
      FilterMapAllSome(s[1..], f);
    }
  }

  /** Two elements that `f` keeps are kept, in order. */
  lemma FilterMapPair<A, B>(x: A, y: A, f: A -> Option<B>)
    requires f(x).Some? && f(y).Some?
    ensures FilterMap([x, y], f) == [f(x).value, f(y).value]
  {
    assert FilterMap([y], f) == [f(y).value] by {
      assert [y][1..] == [];
    }
    assert FilterMap([x, y], f) == [f(x).value] + FilterMap([y], f) by {
      assert [x, y][1..] == [y];
    }
  }
}
