/**
 * Facts about integer columns shared by the two conversation tables: the
 * value returned by `order(col, desc=True).limit(1)` is the column's maximum.
 */
module Tables {

  /** The largest element of a non-empty sequence. */
  function Max(xs: seq<int>): (m: int)
    requires xs != []
    ensures m in xs
    ensures forall i :: 0 <= i < |xs| ==> xs[i] <= m
  {
    if |xs| == 1 then xs[0]
    else
      var m := Max(xs[..|xs| - 1]);
      assert forall i :: 0 <= i < |xs| - 1 ==> xs[i] == xs[..|xs| - 1][i];
      if xs[|xs| - 1] > m then xs[|xs| - 1] else m
  }

  /** The maximum after one more element: the larger of the old maximum and the new value. */
  lemma MaxSnoc(xs: seq<int>, x: int)
    requires xs != []
    ensures Max(xs + [x]) == if x > Max(xs) then x else Max(xs)
  {
    assert (xs + [x])[..|xs|] == xs;
  }

  /** `limit(1)` on a descending order: the maximum, or `default` when no row qualifies. */
  function MaxOr(xs: seq<int>, default: int): (m: int)
    ensures xs == [] ==> m == default
    ensures xs != [] ==> m in xs && forall i :: 0 <= i < |xs| ==> xs[i] <= m
  {
    if xs == [] then default else Max(xs)
  }

  /** The `order(col, desc=True).limit(1)` scan: the running maximum of the column. */
  method MaxOf(xs: seq<int>) returns (m: int)
    requires xs != []
    ensures m == Max(xs)
  {
    m := xs[0];
    assert xs[..1] == [xs[0]];
    for i := 1 to |xs|
      invariant m == Max(xs[..i])
    {
      assert xs[..i + 1] == xs[..i] + [xs[i]];
      MaxSnoc(xs[..i], xs[i]);
      if xs[i] > m {
        m := xs[i];
      }
    }
    assert xs[..|xs|] == xs;
  }

  predicate StrictlyIncreasing(xs: seq<int>) {
    forall i, j :: 0 <= i < j < |xs| ==> xs[i] < xs[j]
  }
}
