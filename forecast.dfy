/** The demand chart of the reports view. Its series are fixed mock data: six monthly figures and a
    projected seventh month, the rounded mean of the last three figures. */
module Forecast {
  import opened Inventory

  /** January to June, and an empty slot for the projected July. */
  const History: seq<Option<int>> := [Some(12), Some(19), Some(15), Some(25), Some(22), Some(30), None]

  /** `Math.round((a + b + c) / 3)`: the integer nearest to the mean, halves rounded up. */
  function RoundedMean3(a: int, b: int, c: int): (r: int)
    ensures 6 * r - 3 <= 2 * (a + b + c) < 6 * r + 3
  {
    (2 * (a + b + c) + 3) / 6
  }

  /** The projected series: empty up to May, joined to the history in June, and the rounded mean of April,
      May and June in July. */
  function Projection(): (r: seq<Option<int>>)
    ensures |r| == |History|
    ensures forall k :: 0 <= k < 5 ==> r[k].None?
    ensures r[5] == History[5]
    ensures r[6] == Some(RoundedMean3(History[3].value, History[4].value, History[5].value)) == Some(26)
  {
    [None, None, None, None, None, Some(30), Some(RoundedMean3(25, 22, 30))]
  }
}
