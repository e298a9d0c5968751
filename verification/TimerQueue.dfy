/** The timer list as a value: deadlines in microseconds, earliest first. Both walks of
    the list in ril_event.cpp (the search of ril_timer_add and the sweep of
    processTimeouts) stop at the first entry that is not strictly below a bound. */
module TimerQueue {

  predicate Sorted(ds: seq<int>) {
    forall i, j :: 0 <= i < j < |ds| ==> ds[i] <= ds[j]
  }

  /** The length of the longest prefix strictly below `bound`. */
  function LeadingBelow(ds: seq<int>, bound: int): (k: nat)
    ensures k <= |ds|
    ensures forall i :: 0 <= i < k ==> ds[i] < bound
    ensures k < |ds| ==> ds[k] >= bound
  {
    if ds == [] || ds[0] >= bound then 0 else 1 + LeadingBelow(ds[1..], bound)
  }

  function InsertAt<T>(s: seq<T>, k: nat, x: T): (r: seq<T>)
    requires k <= |s|
    ensures |r| == |s| + 1
  {
    s[..k] + [x] + s[k..]
  }

  function RemoveAt<T>(s: seq<T>, k: nat): (r: seq<T>)
    requires k < |s|
    ensures |r| == |s| - 1
  {
    s[..k] + s[k + 1..]
  }

  /** A prefix that stops where LeadingBelow stops is that prefix. */
  lemma {:induction false} LeadingBelowUnique(ds: seq<int>, bound: int, k: nat)
    requires k <= |ds|
    requires forall i :: 0 <= i < k ==> ds[i] < bound
    requires k < |ds| ==> ds[k] >= bound
    ensures k == LeadingBelow(ds, bound)
  {
    if k > 0 {
      LeadingBelowUnique(ds[1..], bound, k - 1);
    }
  }

  /** On a sorted list the sweep takes every entry below the bound and no other. */
  lemma SweepIsExact(ds: seq<int>, bound: int, i: nat)
    requires Sorted(ds) && i < |ds|
    ensures i < LeadingBelow(ds, bound) <==> ds[i] < bound
  {
    var k := LeadingBelow(ds, bound);
    if k <= i {
      assert ds[k] <= ds[i];
    }
  }

  /** Insertion keeps the list sorted, and puts the new entry before every entry with
      an equal deadline: equal deadlines are served newest first. */
  lemma InsertKeepsSorted(ds: seq<int>, d: int)
    requires Sorted(ds)
    ensures Sorted(InsertAt(ds, LeadingBelow(ds, d), d))
    ensures forall i :: 0 <= i < |ds| ==> (i < LeadingBelow(ds, d) <==> ds[i] < d)
  {
    forall i | 0 <= i < |ds|
      ensures i < LeadingBelow(ds, d) <==> ds[i] < d
    {
      SweepIsExact(ds, d, i);
    }
  }

  /** A timer as the step systems see it: an identity and a deadline. */
  datatype Timer = Timer(id: nat, deadline: int)

  function Deadlines(ts: seq<Timer>): (ds: seq<int>)
    ensures |ds| == |ts|
    ensures forall i :: 0 <= i < |ts| ==> ds[i] == ts[i].deadline
  {
    seq(|ts|, i requires 0 <= i < |ts| => ts[i].deadline)
  }

  predicate NoneBefore(ts: seq<Timer>, bound: int) {
    forall i :: 0 <= i < |ts| ==> ts[i].deadline >= bound
  }
}
