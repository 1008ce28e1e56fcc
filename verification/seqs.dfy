/**
 * Sequence combinators that describe the tool's loops: a loop that stops at the
 * first element of some kind (FirstWhere), and a loop that appends a value for
 * some elements and `continue`s past the others (FilterMap, with Positions
 * recording which elements contributed).
 */
module Seqs {
  import opened Wrappers

  /** The index of the first element satisfying p, if there is one. */
  function FirstWhere<T>(xs: seq<T>, p: T -> bool): (r: Option<nat>)
    ensures r.Some? ==> r.value < |xs| && p(xs[r.value])
    ensures r.Some? ==> forall j :: 0 <= j < r.value ==> !p(xs[j])
    ensures r.None? ==> forall j :: 0 <= j < |xs| ==> !p(xs[j])
  {
    if |xs| == 0 then None
    else if p(xs[0]) then Some(0)
    else match FirstWhere(xs[1..], p)
      case None =>
        assert forall j :: 1 <= j < |xs| ==> xs[j] == xs[1..][j - 1];
        None
      case Some(i) =>
        assert forall j :: 1 <= j < i + 1 ==> xs[j] == xs[1..][j - 1];
        Some(i + 1)
  }

  /** The first match in a sequence is still the first match once more elements follow. */
  lemma FirstWhereAppend<T>(xs: seq<T>, ys: seq<T>, p: T -> bool)
    requires FirstWhere(xs, p).Some?
    ensures FirstWhere(xs + ys, p) == FirstWhere(xs, p)
  {
    var i := FirstWhere(xs, p).value;
    assert (xs + ys)[i] == xs[i];
    assert forall j :: 0 <= j < i ==> (xs + ys)[j] == xs[j];
  }

  /** Where the first match lies once one more element is appended to a sequence without any. */
  lemma FirstWhereSnoc<T>(xs: seq<T>, x: T, p: T -> bool)
    requires FirstWhere(xs, p).None?
    ensures FirstWhere(xs + [x], p) == if p(x) then Some(|xs|) else None
  {
    assert (xs + [x])[|xs|] == x;
    assert forall j :: 0 <= j < |xs| ==> (xs + [x])[j] == xs[j];
  }

  /** The values f yields, in order, for the elements where it yields one. */
  function FilterMap<A, B>(xs: seq<A>, f: A -> Option<B>): (r: seq<B>)
    ensures |r| <= |xs|
  {
    if |xs| == 0 then []
    else FilterMap(xs[..|xs| - 1], f) + Yield(f(xs[|xs| - 1]))
  }

  /** One more element extends the values by what f yields for it. */
  lemma FilterMapSnoc<A, B>(xs: seq<A>, x: A, f: A -> Option<B>)
    ensures FilterMap(xs + [x], f) == FilterMap(xs, f) + Yield(f(x))
  {
    assert (xs + [x])[..|xs|] == xs;
  }

  function Yield<B>(o: Option<B>): seq<B> {
    match o
    case Some(y) => [y]
    case None => []
  }

  /** The indices, in increasing order, of the elements f yields a value for. */
  function Positions<A, B>(xs: seq<A>, f: A -> Option<B>): seq<nat>
  {
    if |xs| == 0 then []
    else Positions(xs[..|xs| - 1], f) + (if f(xs[|xs| - 1]).Some? then [|xs| - 1] else [])
  }

  /**
   * FilterMap keeps exactly the contributing elements, in their original order:
   * its k-th value comes from the k-th contributing index, the indices strictly
   * increase, and every contributing index is listed.
   */
  lemma {:induction false} PositionsSelect<A, B>(xs: seq<A>, f: A -> Option<B>)
    ensures |Positions(xs, f)| == |FilterMap(xs, f)|
    ensures forall k :: 0 <= k < |Positions(xs, f)| ==>
      Positions(xs, f)[k] < |xs| && f(xs[Positions(xs, f)[k]]) == Some(FilterMap(xs, f)[k])
    ensures forall k1, k2 :: 0 <= k1 < k2 < |Positions(xs, f)| ==> Positions(xs, f)[k1] < Positions(xs, f)[k2]
    ensures forall i :: 0 <= i < |xs| ==> (i in Positions(xs, f) <==> f(xs[i]).Some?)
  {
    if |xs| > 0 {
      var n := |xs| - 1;
      var init := xs[..n];
      PositionsSelect(init, f);
      assert forall i :: 0 <= i < n ==> init[i] == xs[i];
    }
  }

  /** A value is produced exactly when some element yields it. */
  lemma FilterMapContains<A, B>(xs: seq<A>, f: A -> Option<B>, y: B)
    ensures y in FilterMap(xs, f) <==> exists i :: 0 <= i < |xs| && f(xs[i]) == Some(y)
  {
    PositionsSelect(xs, f);
    var ps := Positions(xs, f);
    var r := FilterMap(xs, f);
    if y in r {
      var k :| 0 <= k < |r| && r[k] == y;
      assert f(xs[ps[k]]) == Some(y);
    }
    if exists i :: 0 <= i < |xs| && f(xs[i]) == Some(y) {
      var i :| 0 <= i < |xs| && f(xs[i]) == Some(y);
      assert i in ps;
      var k :| 0 <= k < |ps| && ps[k] == i;
      assert r[k] == y;
    }
  }
}
