/**
 * The range enumerator: the odd integers of a closed range, in ascending order.
 * An even start is bumped up by one before the enumeration begins.
 */
module OddNumbers {

  /** The first candidate of the range `[start, ..]`. */
  function FirstOdd(start: int): (f: int)
    ensures f % 2 == 1
    ensures start <= f <= start + 1
  {
    if start % 2 == 0 then start + 1 else start
  }

  /** How many odd integers lie in `[start, end]`. */
  function OddCount(start: int, end: int): nat
  {
    if FirstOdd(start) > end then 0 else (end - FirstOdd(start)) / 2 + 1
  }

  /** Specification of the enumerator: the arithmetic progression of step 2 from the first odd value. */
  function OddRange(start: int, end: int): seq<int>
  {
    seq(OddCount(start, end), k => FirstOdd(start) + 2 * k)
  }

  /** The enumerator holds exactly the odd integers between `start` and `end`, both included. */
  lemma OddRangeMembership(start: int, end: int, i: int)
    ensures i in OddRange(start, end) <==> i % 2 == 1 && start <= i <= end
  {
    var f := FirstOdd(start);
    var r := OddRange(start, end);
    if i % 2 == 1 && start <= i <= end {
      assert f <= i;
      var k := (i - f) / 2;
      assert 0 <= k < |r| && r[k] == i;
    }
    if i in r {
      var k :| 0 <= k < |r| && r[k] == i;
      assert i == f + 2 * k;
    }
  }

  /** The enumerator is strictly ascending, with consecutive elements two apart. */
  lemma OddRangeAscending(start: int, end: int)
    ensures forall k :: 0 <= k < |OddRange(start, end)| - 1 ==>
      OddRange(start, end)[k + 1] == OddRange(start, end)[k] + 2
    ensures forall i, j :: 0 <= i < j < |OddRange(start, end)| ==>
      OddRange(start, end)[i] < OddRange(start, end)[j]
  {
  }

  /** Edge cases: an empty range, and a one-point range that is odd or even. */
  lemma OddRangeEdges(start: int, end: int)
    ensures start > end ==> OddRange(start, end) == []
    ensures start == end && start % 2 == 1 ==> OddRange(start, end) == [start]
    ensures start == end && start % 2 == 0 ==> OddRange(start, end) == []
  {
  }

  /** The source's enumerator: a loop that pushes `i` and steps by two while `i <= end`. */
  method GenerateOddNumbers(start: int, end: int) returns (odds: seq<int>)
    ensures odds == OddRange(start, end)
  {
    odds := [];
    var i := if start % 2 == 0 then start + 1 else start;
    while i <= end
      invariant i == FirstOdd(start) + 2 * |odds|
      invariant |odds| <= OddCount(start, end)
      invariant forall k :: 0 <= k < |odds| ==> odds[k] == FirstOdd(start) + 2 * k
      decreases end - i
    {
      odds := odds + [i];
      i := i + 2;
    }
  }
}
