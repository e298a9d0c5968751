/** The move-to-front table of ril.cpp that maps threads to channels, for any size. */
module ThreadTable {

  /** A slot is empty when its thread is 0. */
  datatype Entry = Entry(tid: int, cid: int)

  const EMPTY: Entry := Entry(0, 0)

  /** Where addThreadPid stops: the first empty slot or slot of the thread, or the last. */
  function Place(t: seq<Entry>, tid: int): (i: nat)
    requires |t| > 0
    ensures i < |t| && forall j :: 0 <= j < i ==> t[j].tid != 0 && t[j].tid != tid
    ensures t[i].tid == 0 || t[i].tid == tid || i == |t| - 1
  {
    if |t| == 1 || t[0].tid == 0 || t[0].tid == tid then 0 else 1 + Place(t[1..], tid)
  }

  /** The entry goes to the front, and the slots before the place move back by one. */
  function MovedToFront(t: seq<Entry>, e: Entry): (r: seq<Entry>)
    requires |t| > 0
    ensures |r| == |t|
  {
    var i := Place(t, e.tid);
    [e] + t[..i] + t[i + 1..]
  }

  lemma {:induction false} PlaceUnique(t: seq<Entry>, tid: int, i: nat)
    requires i < |t| && forall j :: 0 <= j < i ==> t[j].tid != 0 && t[j].tid != tid
    requires t[i].tid == 0 || t[i].tid == tid || i == |t| - 1
    ensures i == Place(t, tid)
  {
    if i > 0 {
      PlaceUnique(t[1..], tid, i - 1);
    }
  }

  /** addThreadPid on the table in place. */
  method AddThreadPid(threadPid: array<Entry>, cid: int, tid: int)
    requires threadPid.Length > 0
    modifies threadPid
    ensures threadPid[..] == MovedToFront(old(threadPid[..]), Entry(tid, cid))
  {
    var i := 0;
    while i < threadPid.Length && threadPid[i].tid != 0 && threadPid[i].tid != tid
      invariant i <= threadPid.Length
      invariant forall k :: 0 <= k < i ==> threadPid[k].tid != 0 && threadPid[k].tid != tid
    {
      i := i + 1;
    }
    if i == threadPid.Length {
      i := threadPid.Length - 1; // full: drop the last entry
    }
    PlaceUnique(threadPid[..], tid, i);
    ghost var t := threadPid[..];
    var j := i;
    while j > 0
      invariant 0 <= j <= i
      invariant forall k :: 0 <= k <= j || i < k < threadPid.Length ==> threadPid[k] == t[k]
      invariant forall k :: j <= k < i ==> threadPid[k + 1] == t[k]
    {
      threadPid[j] := threadPid[j - 1];
      j := j - 1;
    }
    threadPid[0] := Entry(tid, cid);
    assert threadPid[..] == [Entry(tid, cid)] + t[..i] + t[i + 1..];
  }

  // ---------------------------------------------------------------- any sequence of calls

  /** The table after a sequence of calls on an empty table of `n` slots. */
  function TableAfter(calls: seq<Entry>, n: nat): (t: seq<Entry>)
    requires n > 0
    ensures |t| == n
  {
    if calls == [] then seq(n, _ => EMPTY)
    else MovedToFront(TableAfter(calls[..|calls| - 1], n), calls[|calls| - 1])
  }

  /** No later call was made by the same thread. */
  predicate IsLatest(calls: seq<Entry>, k: nat)
    requires k < |calls|
  {
    forall j :: k < j < |calls| ==> calls[j].tid != calls[k].tid
  }

  /** The latest call of every thread among the first `k` calls, most recent first. */
  function Recent(calls: seq<Entry>, k: nat): seq<Entry>
    requires k <= |calls|
  {
    if k == 0 then []
    else if IsLatest(calls, k - 1) then [calls[k - 1]] + Recent(calls, k - 1)
    else Recent(calls, k - 1)
  }

  function WithoutTid(l: seq<Entry>, tid: int): seq<Entry> {
    if l == [] then []
    else if l[0].tid == tid then WithoutTid(l[1..], tid)
    else [l[0]] + WithoutTid(l[1..], tid)
  }

  predicate Distinct(l: seq<Entry>) {
    forall i, j :: 0 <= i < j < |l| ==> l[i].tid != l[j].tid
  }

  /** The first `n` entries, and empty slots behind them. */
  function Padded(l: seq<Entry>, n: nat): (t: seq<Entry>)
    ensures |t| == n
    ensures forall i :: 0 <= i < n ==> t[i] == if i < |l| then l[i] else EMPTY
  {
    seq(n, i => if 0 <= i < |l| then l[i] else EMPTY)
  }

  lemma {:induction false} RecentAfterCall(calls: seq<Entry>, c: Entry, k: nat)
    requires k <= |calls|
    ensures Recent(calls + [c], k) == WithoutTid(Recent(calls, k), c.tid)
  {
    if k > 0 {
      RecentAfterCall(calls, c, k - 1);
      var all := calls + [c];
      assert IsLatest(all, k - 1) <==> IsLatest(calls, k - 1) && calls[k - 1].tid != c.tid by {
        assert all[|calls|] == c;
        assert forall j :: 0 <= j < |calls| ==> all[j] == calls[j];
      }
    }
  }

  /** The entry was made by the latest call of its thread among the first `k`. */
  predicate FromLatest(calls: seq<Entry>, k: nat, e: Entry)
    requires k <= |calls|
  {
    exists j :: 0 <= j < k && e == calls[j] && IsLatest(calls, j)
  }

  lemma {:induction false} RecentIsDistinct(calls: seq<Entry>, k: nat)
    requires k <= |calls|
    ensures Distinct(Recent(calls, k))
    ensures forall i :: 0 <= i < |Recent(calls, k)| ==> FromLatest(calls, k, Recent(calls, k)[i])
  {
    if k > 0 {
      RecentIsDistinct(calls, k - 1);
      var before, now := Recent(calls, k - 1), Recent(calls, k);
      forall i | 0 <= i < |now| ensures FromLatest(calls, k, now[i]) {
        if IsLatest(calls, k - 1) && i == 0 {
          assert now[0] == calls[k - 1];
        } else {
          assert now[i] in before;
          assert FromLatest(calls, k - 1, now[i]);
        }
      }
      if IsLatest(calls, k - 1) {
        forall i | 0 <= i < |before| ensures before[i].tid != calls[k - 1].tid {
          assert FromLatest(calls, k - 1, before[i]);
        }
      }
    }
  }

  /** Dropping a thread from a list of distinct threads removes one entry, or none. */
  lemma {:induction false} WithoutAt(l: seq<Entry>, tid: int, i: nat)
    requires Distinct(l) && i <= |l| && forall j :: 0 <= j < i ==> l[j].tid != tid
    requires i < |l| ==> l[i].tid == tid
    ensures WithoutTid(l, tid) == if i < |l| then l[..i] + l[i + 1..] else l
  {
    if l == [] {
    } else if i == 0 {
      WithoutNone(l[1..], tid);
    } else {
      WithoutAt(l[1..], tid, i - 1);
      assert l[..i] == [l[0]] + l[1..][..i - 1];
    }
  }

  lemma {:induction false} WithoutNone(l: seq<Entry>, tid: int)
    requires forall j :: 0 <= j < |l| ==> l[j].tid != tid
    ensures WithoutTid(l, tid) == l
  {
    if l != [] {
      WithoutNone(l[1..], tid);
    }
  }

  function IndexOf(l: seq<Entry>, tid: int): (i: nat)
    ensures i <= |l| && (i < |l| ==> l[i].tid == tid) && forall j :: 0 <= j < i ==> l[j].tid != tid
  {
    if l == [] || l[0].tid == tid then 0 else 1 + IndexOf(l[1..], tid)
  }

  lemma MovedAt(t: seq<Entry>, c: Entry, p: nat, i: nat)
    requires p < |t| && p == Place(t, c.tid) && i < |t|
    ensures MovedToFront(t, c)[i] == if i == 0 then c else if i <= p then t[i - 1] else t[i]
  {
    var front := [c] + t[..p];
    assert MovedToFront(t, c) == front + t[p + 1..];
  }

  lemma DroppedAt(l: seq<Entry>, tid: int, at: nat, i: nat)
    requires Distinct(l) && at == IndexOf(l, tid)
    ensures |WithoutTid(l, tid)| == if at < |l| then |l| - 1 else |l|
    ensures i < |WithoutTid(l, tid)| ==> WithoutTid(l, tid)[i] == if i < at then l[i] else l[i + 1]
  {
    WithoutAt(l, tid, at);
  }

  /** Slot `i` after one call on a table that shows the first entries of `l`. */
  lemma CallStepAt(l: seq<Entry>, n: nat, c: Entry, at: nat, i: nat)
    requires i < n && Distinct(l) && at == IndexOf(l, c.tid)
    ensures Padded([c] + WithoutTid(l, c.tid), n)[i]
         == if i == 0 then c else if i <= at then Padded(l, n)[i - 1] else Padded(l, n)[i]
  {
    if i > 0 {
      DroppedAt(l, c.tid, at, i - 1);
    }
  }

  lemma CallStepSame(l: seq<Entry>, n: nat, c: Entry, i: nat)
    requires i < n && c.tid != 0 && Distinct(l) && forall i :: 0 <= i < |l| ==> l[i].tid != 0
    ensures MovedToFront(Padded(l, n), c)[i] == Padded([c] + WithoutTid(l, c.tid), n)[i]
  {
    var at := IndexOf(l, c.tid);
    var p := if at < n then at else n - 1;
    PlaceUnique(Padded(l, n), c.tid, p);
    MovedAt(Padded(l, n), c, p, i);
    CallStepAt(l, n, c, at, i);
  }

  lemma CallStep(l: seq<Entry>, n: nat, c: Entry)
    requires n > 0 && c.tid != 0 && Distinct(l) && forall i :: 0 <= i < |l| ==> l[i].tid != 0
    ensures MovedToFront(Padded(l, n), c) == Padded([c] + WithoutTid(l, c.tid), n)
  {
    forall i | 0 <= i < n
      ensures MovedToFront(Padded(l, n), c)[i] == Padded([c] + WithoutTid(l, c.tid), n)[i]
    {
      CallStepSame(l, n, c, i);
    }
  }

  /** After any sequence of calls by threads that are not 0, the table holds exactly the
      `n` most recently seen distinct threads, most recent first, each with the channel of
      its latest call, and the empty slots are at the end. */
  lemma {:induction false} TableHoldsTheMostRecent(calls: seq<Entry>, n: nat)
    requires n > 0 && forall i :: 0 <= i < |calls| ==> calls[i].tid != 0
    ensures TableAfter(calls, n) == Padded(Recent(calls, |calls|), n)
    ensures Distinct(Recent(calls, |calls|))
  {
    if calls == [] {
      assert TableAfter(calls, n) == Padded([], n);
    } else {
      var k := |calls| - 1;
      var before, c := calls[..k], calls[k];
      TableHoldsTheMostRecent(before, n);
      RecentIsDistinct(before, k);
      CallStep(Recent(before, k), n, c);
      assert before + [c] == calls;
      RecentAfterCall(before, c, k);
      RecentIsDistinct(calls, |calls|);
    }
  }
}
