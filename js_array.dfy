/**
 * Array.prototype.splice(start, deleteCount) called with no items to insert,
 * section 23.1.3.31 of ECMA-262 (ECMAScript 2024), on integer arguments.
 * The array is updated in place and the deleted elements are returned as a
 * new array; here both appear as sequences.
 */
module JsArray {

  /** The array after the call, and the array that splice returns. */
  datatype Spliced<T> = Spliced(remaining: seq<T>, removed: seq<T>)

  /** actualStart, steps 4 to 6: a negative start counts from the end; both ends are clamped. */
  function ActualStart(len: nat, start: int): (k: nat)
    ensures k <= len
    ensures 0 <= start <= len ==> k == start
    ensures len < start ==> k == len
    ensures start < 0 && 0 <= len + start ==> k == len + start
    ensures len + start < 0 ==> k == 0
  {
    if start < 0 then (if len + start < 0 then 0 else len + start)
    else if start < len then start
    else len
  }

  /** actualDeleteCount, step 10: deleteCount clamped to what lies at and after actualStart. */
  function ActualDeleteCount(len: nat, actualStart: nat, deleteCount: int): (n: nat)
    requires actualStart <= len
    ensures actualStart + n <= len
    ensures 0 <= deleteCount <= len - actualStart ==> n == deleteCount
  {
    if deleteCount < 0 then 0
    else if deleteCount < len - actualStart then deleteCount
    else len - actualStart
  }

  /**
   * splice(start, deleteCount): no element is lost or invented, and the
   * remaining and removed arrays together are as long as the original.
   */
  function Splice<T>(a: seq<T>, start: int, deleteCount: int): (r: Spliced<T>)
    ensures |r.remaining| + |r.removed| == |a|
    ensures multiset(r.remaining) + multiset(r.removed) == multiset(a)
  {
    var k := ActualStart(|a|, start);
    var n := ActualDeleteCount(|a|, k, deleteCount);
    assert a == a[..k] + a[k..k + n] + a[k + n..];
    Spliced(a[..k] + a[k + n..], a[k..k + n])
  }

  /**
   * splice(i, 1) at an index inside the array removes exactly a[i]: the
   * elements before it stay where they were, those after it move down by one.
   */
  lemma SpliceOneInRange<T>(a: seq<T>, i: int)
    requires 0 <= i < |a|
    ensures Splice(a, i, 1).removed == [a[i]]
    ensures Splice(a, i, 1).remaining == a[..i] + a[i + 1..]
    ensures |Splice(a, i, 1).remaining| == |a| - 1
    ensures forall k :: 0 <= k < i ==> Splice(a, i, 1).remaining[k] == a[k]
    ensures forall k :: i <= k < |a| - 1 ==> Splice(a, i, 1).remaining[k] == a[k + 1]
  {
  }

  /** splice(i, 1) at or past the end removes nothing. */
  lemma SpliceOnePastEnd<T>(a: seq<T>, i: int)
    requires |a| <= i
    ensures Splice(a, i, 1) == Spliced(a, [])
  {
  }

  /** splice(i, 1) with -|a| <= i < 0 removes the element |-i| places from the end. */
  lemma SpliceOneFromEnd<T>(a: seq<T>, i: int)
    requires -|a| <= i < 0
    ensures Splice(a, i, 1) == Splice(a, |a| + i, 1)
  {
  }

  /** splice(i, 1) with i < -|a| removes the first element, if there is one. */
  lemma SpliceOneBeforeStart<T>(a: seq<T>, i: int)
    requires i < -|a|
    ensures Splice(a, i, 1) == Splice(a, 0, 1)
  {
  }
}
