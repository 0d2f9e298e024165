/** Listing ids in order, and `take`, for the store's `orderBy` / `take`.

    Ids are handed out from 1 upwards in creation order, so "newest first" is
    descending id order and every id of a table lies below its sequence's next
    value; the listings enumerate that range.
 */
module IdOrder {

  /** The members of `s` in `[0, hi)`, smallest first. */
  function Ascending(s: set<int>, hi: int): (r: seq<int>)
    ensures forall i, j :: 0 <= i < j < |r| ==> r[i] < r[j]
    ensures forall x :: x in r <==> x in s && 0 <= x < hi
    decreases hi
  {
    if hi <= 0 then []
    else
      var lower := Ascending(s, hi - 1);
      assert forall i :: 0 <= i < |lower| ==> lower[i] in lower;
      lower + (if hi - 1 in s then [hi - 1] else [])
  }

  /** The members of `s` in `[0, hi)`, largest first. */
  function Descending(s: set<int>, hi: int): (r: seq<int>)
    ensures forall i, j :: 0 <= i < j < |r| ==> r[i] > r[j]
    ensures forall x :: x in r <==> x in s && 0 <= x < hi
    decreases hi
  {
    if hi <= 0 then []
    else
      var lower := Descending(s, hi - 1);
      assert forall i :: 0 <= i < |lower| ==> lower[i] in lower;
      (if hi - 1 in s then [hi - 1] else []) + lower
  }

  /** The first `n` elements of `xs`, or all of them when there are fewer. */
  function Take<T>(xs: seq<T>, n: nat): (r: seq<T>)
    ensures |r| <= n && |r| <= |xs|
    ensures |xs| <= n ==> r == xs
    ensures n <= |xs| ==> |r| == n
    ensures forall i :: 0 <= i < |r| ==> r[i] == xs[i]
  {
    if |xs| <= n then xs else xs[..n]
  }

  /** Taking a prefix of an ascending listing keeps the `n` smallest: anything
      left out is larger than everything kept, and was left out only because
      `n` were already kept. */
  lemma TakeAscendingKeepsSmallest(xs: seq<int>, n: nat, x: int)
    requires forall i, j :: 0 <= i < j < |xs| ==> xs[i] < xs[j]
    requires x in xs && x !in Take(xs, n)
    ensures |Take(xs, n)| == n
    ensures forall y :: y in Take(xs, n) ==> y < x
  {
    var k :| 0 <= k < |xs| && xs[k] == x;
    assert n <= k;
  }

  /** Taking a prefix of a descending listing keeps the `n` largest. */
  lemma TakeDescendingKeepsLargest(xs: seq<int>, n: nat, x: int)
    requires forall i, j :: 0 <= i < j < |xs| ==> xs[i] > xs[j]
    requires x in xs && x !in Take(xs, n)
    ensures |Take(xs, n)| == n
    ensures forall y :: y in Take(xs, n) ==> y > x
  {
    var k :| 0 <= k < |xs| && xs[k] == x;
    assert n <= k;
  }
}
