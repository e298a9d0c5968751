/** The data structures of ril_event.cpp in their own form: two circular doubly linked
    lists with sentinels, the watch table, readFds and nfds, all updated in place. */
module EventLoop {
  import opened Clock
  import opened TimerQueue
  import opened Wrappers

  const MAX_FD_EVENTS: nat := 8

  class Event {
    var next: Event?
    var prev: Event?
    var fd: int
    var index: int
    var persist: bool
    var timeout: Time
    ghost var id: nat // which addition of a timer this is

    /** ril_event_set on a zeroed event. */
    constructor (fd: int, persist: bool)
      ensures next == null && prev == null && index == -1
      ensures this.fd == fd && this.persist == persist && timeout == Timeval(0, 0)
    {
      next, prev, index := null, null, -1;
      this.fd, this.persist, timeout := fd, persist, Timeval(0, 0);
    }

    /** init_list. */
    constructor Sentinel()
      ensures next == this && prev == this && fd == -1
    {
      next, prev, index := this, this, 0;
      fd, persist, timeout := -1, false, Timeval(0, 0);
    }
  }

  /** A closed chain: the same sentinel at both ends, every other node once, and each
      node doubly linked to the next one. */
  ghost predicate Chain(c: seq<Event>)
    reads c`next, c`prev
  {
    && |c| >= 2 && c[|c| - 1] == c[0]
    && (forall i, j :: 0 < i < j < |c| ==> c[i] != c[j])
    && (forall i {:trigger c[i].next} :: 0 <= i < |c| - 1 ==> c[i].next == c[i + 1])
    && (forall i {:trigger c[i].prev} :: 0 < i < |c| ==> c[i].prev == c[i - 1])
  }

  /** addToList: links `ev` in front of `list`, the k-th node of the chain. */
  method AddToList(ev: Event, list: Event, ghost c: seq<Event>, ghost k: nat)
    requires Chain(c) && ev !in c && 0 < k < |c| && list == c[k]
    modifies {ev}`next, {ev}`prev, c`next, c`prev
    ensures Chain(InsertAt(c, k, ev))
  {
    ghost var d := InsertAt(c, k, ev);
    assert forall i {:trigger d[i]} :: 0 <= i < |d| ==>
      d[i] == if i < k then c[i] else if i == k then ev else c[i - 1];
    assert list.prev == c[k - 1];
    ev.next := list;
    ev.prev := list.prev;
    ev.prev.next := ev;
    list.prev := ev;
  }

  /** removeFromList: unlinks the k-th node of the chain. */
  method RemoveFromList(ev: Event, ghost c: seq<Event>, ghost k: nat)
    requires Chain(c) && 0 < k < |c| - 1 && ev == c[k]
    modifies c`next, c`prev
    ensures Chain(RemoveAt(c, k))
    ensures ev.next == null && ev.prev == null
  {
    ghost var d := RemoveAt(c, k);
    assert forall i {:trigger d[i]} :: 0 <= i < |d| ==> d[i] == if i < k then c[i] else c[i + 1];
    assert ev.next == c[k + 1] && ev.prev == c[k - 1];
    ev.next.prev := ev.prev;
    ev.prev.next := ev.next;
    ev.next := null;
    ev.prev := null;
  }

  lemma SameSize<T>(a: set<T>, b: set<T>)
    requires a <= b && |a| == |b|
    ensures a == b
  {
    assert b == a + (b - a);
  }

  lemma CutConcat<T>(a: seq<T>, b: seq<T>, c: seq<T>, d: seq<T>, k: nat)
    requires a + b == c + d && k <= |d| && |b| == |d| - k
    ensures a == c + d[..k] && b == d[k..]
  {
    assert a == (a + b)[..|a|] && c + d[..k] == (c + d)[..|a|];
    assert b == (a + b)[|a|..] && d[k..] == (c + d)[|a|..];
  }

  ghost function Members(c: seq<Event>): set<Event> {
    set e | e in c
  }

  lemma MembersInserted(c: seq<Event>, k: nat, ev: Event)
    requires k <= |c|
    ensures Members(InsertAt(c, k, ev)) == Members(c) + {ev}
  {
    var d := InsertAt(c, k, ev);
    forall e | e in Members(c) + {ev} ensures e in d {
      if e in c {
        var i :| 0 <= i < |c| && c[i] == e;
        assert d[if i < k then i else i + 1] == e;
      } else {
        assert d[k] == e;
      }
    }
  }

  lemma MembersRemoved(c: seq<Event>, k: nat)
    requires k < |c| && c[k] !in RemoveAt(c, k)
    ensures Members(RemoveAt(c, k)) == Members(c) - {c[k]}
  {
    var d := RemoveAt(c, k);
    forall e | e in Members(c) - {c[k]} ensures e in d {
      var i :| 0 <= i < |c| && c[i] == e;
      assert d[if i < k then i else i - 1] == e;
    }
  }

  /** A circular list as its sentinel sees it. */
  class EventList {
    const sentinel: Event
    ghost var items: seq<Event>
    ghost var nodes: set<Event>

    ghost function Cycle(): seq<Event>
      reads this`items
    {
      [sentinel] + items + [sentinel]
    }

    /** The node at position `i`, and the sentinel just outside the list. */
    ghost function At(i: int): Event
      requires -1 <= i <= |items|
      reads this`items
    {
      Cycle()[i + 1]
    }

    ghost predicate Valid()
      reads this`items, this`nodes, nodes`next, nodes`prev
    {
      && (forall e :: e in Cycle() ==> e in nodes)
      && Chain(Cycle())
    }

    /** `nodes` holds nothing but the sentinel and the items. */
    ghost predicate Exact()
      reads this`items, this`nodes
    {
      nodes == Members(Cycle())
    }

    /** init_list. */
    constructor ()
      ensures Valid() && Exact() && items == [] && fresh(nodes)
    {
      sentinel := new Event.Sentinel();
      items, nodes := [], {sentinel};
    }

    lemma ItemIn(i: nat)
      requires Valid() && i < |items|
      ensures items[i] in nodes
    {
      assert items[i] == Cycle()[i + 1];
    }

    lemma SentinelIn()
      requires Valid()
      ensures sentinel in nodes
    {
      assert Cycle()[0] == sentinel;
    }

    lemma EmptyIsSentinel()
      requires Exact() && items == []
      ensures nodes == {sentinel}
    {
      assert Cycle() == [sentinel, sentinel];
    }

    lemma Linked(i: int)
      requires Valid() && -1 <= i < |items|
      ensures At(i).next == At(i + 1)
      ensures At(i + 1) == sentinel <==> i + 1 == |items|
    {
      assert Cycle()[i + 1].next == Cycle()[i + 2];
      if i + 1 < |items| {
        assert Cycle()[i + 2] != Cycle()[|items| + 1];
      }
    }

    /** Links `ev` in front of the node at position `k`. */
    method Insert(ev: Event, list: Event, ghost k: nat)
      requires Valid() && ev !in nodes && k <= |items| && list == At(k)
      modifies this`items, this`nodes, ({ev} + nodes)`next, ({ev} + nodes)`prev
      ensures Valid() && items == InsertAt(old(items), k, ev) && nodes == old(nodes) + {ev}
      ensures old(Exact()) ==> Exact()
    {
      ghost var c := Cycle();
      items, nodes := InsertAt(items, k, ev), nodes + {ev};
      assert Cycle() == InsertAt(c, k + 1, ev);
      MembersInserted(c, k + 1, ev);
      AddToList(ev, list, c, k + 1);
    }

    /** Unlinks the node at position `k`. */
    method Remove(ev: Event, ghost k: nat)
      requires Valid() && k < |items| && ev == items[k]
      modifies this`items, this`nodes, nodes`next, nodes`prev
      ensures Valid() && items == RemoveAt(old(items), k) && nodes == old(nodes) - {ev}
      ensures ev.next == null && ev.prev == null
      ensures old(Exact()) ==> Exact()
    {
      ghost var c := Cycle();
      RemovedIsAbsent(k);
      MembersRemoved(c, k + 1);
      items, nodes := RemoveAt(items, k), nodes - {ev};
      assert Cycle() == RemoveAt(c, k + 1);
      RemoveFromList(ev, c, k + 1);
    }

    lemma RemovedIsAbsent(k: nat)
      requires Valid() && k < |items|
      ensures items[k] !in RemoveAt(Cycle(), k + 1)
    {
      var c := Cycle();
      assert c[k + 1] == items[k] && c[0] == c[|c| - 1];
    }
  }

  /** A timer requested by a callback: the relative time and the clock it is added at. */
  datatype Arm = Arm(relative: Time, now: Time)

  function ArmOne(keys: seq<int>, arm: Arm): (r: seq<int>)
    ensures |r| == |keys| + 1
  {
    var d := Micros(arm.now) + Micros(arm.relative);
    InsertAt(keys, LeadingBelow(keys, d), d)
  }

  /** The keys after the timers of one callback were added, in order. */
  function ArmAll(keys: seq<int>, arms: seq<Arm>): (r: seq<int>)
    ensures |r| == |keys| + |arms|
  {
    if arms == [] then keys else ArmOne(ArmAll(keys, arms[..|arms| - 1]), arms[|arms| - 1])
  }

  /** What a callback may do to the loop: arm a timer, watch a descriptor that is not
      watched, or stop watching the event in a slot. */
  datatype Action = Schedule(arm: Arm) | Watch(fd: int, persist: bool) | Unwatch(slot: nat)

  /** The callback touches no descriptor. */
  predicate OnlyTimers(actions: seq<Action>) {
    forall i :: 0 <= i < |actions| ==> actions[i].Schedule?
  }

  ghost predicate AllOnlyTimers(plan: nat -> seq<Action>) {
    forall m :: OnlyTimers(plan(m))
  }

  function Arms(actions: seq<Action>): seq<Arm> {
    if actions == [] then []
    else
      var n := |actions| - 1;
      Arms(actions[..n]) + if actions[n].Schedule? then [actions[n].arm] else []
  }

  /** The keys after the timers of one callback's actions were added. */
  function KeysAfter(keys: seq<int>, actions: seq<Action>): seq<int> {
    ArmAll(keys, Arms(actions))
  }

  lemma KeysAfterStep(keys: seq<int>, actions: seq<Action>, i: nat)
    requires i < |actions|
    ensures KeysAfter(keys, actions[..i + 1])
         == if actions[i].Schedule? then ArmOne(KeysAfter(keys, actions[..i]), actions[i].arm)
            else KeysAfter(keys, actions[..i])
  {
    assert actions[..i + 1][..i] == actions[..i];
    var before, after := Arms(actions[..i]), Arms(actions[..i + 1]);
    if actions[i].Schedule? {
      assert after == before + [actions[i].arm];
      assert after[..|before|] == before;
    } else {
      assert after == before;
    }
  }

  /** `after` gives the keys after every number of callbacks. */
  ghost predicate Follows(after: nat -> seq<int>, plan: nat -> seq<Action>, m: nat) {
    after(m + 1) == KeysAfter(after(m), plan(m))
  }

  ghost predicate FollowsAll(after: nat -> seq<int>, plan: nat -> seq<Action>) {
    forall m :: Follows(after, plan, m)
  }

  /** `keys` are the deadlines of `s`, in microseconds. */
  ghost predicate Keyed(s: seq<Event>, keys: seq<int>)
    reads s`timeout
  {
    && |keys| == |s|
    && forall i :: 0 <= i < |s| ==> Micros(s[i].timeout) == keys[i]
  }

  lemma InsertKeyed(s: seq<Event>, keys: seq<int>, k: nat, ev: Event)
    requires Keyed(s, keys) && k <= |s|
    ensures Keyed(InsertAt(s, k, ev), InsertAt(keys, k, Micros(ev.timeout)))
  {
  }

  /** The entries of `table` that `hit` marks, in slot order. */
  ghost function Marked<T>(table: seq<T>, hit: seq<bool>): seq<T>
    requires |hit| == |table|
  {
    if table == [] then []
    else
      var n := |table| - 1;
      Marked(table[..n], hit[..n]) + if hit[n] then [table[n]] else []
  }

  function MarkedSlots(hit: seq<bool>): (r: seq<nat>)
    ensures forall i :: 0 <= i < |r| ==> r[i] < |hit| && hit[r[i]]
    ensures forall i, j :: 0 <= i < j < |r| ==> r[i] < r[j]
    ensures forall k :: 0 <= k < |hit| && hit[k] ==> k in r
  {
    if hit == [] then []
    else
      var n := |hit| - 1;
      MarkedSlots(hit[..n]) + if hit[n] then [n] else []
  }

  /** What Marked takes: the entries of the marked slots, each slot once, in order. */
  lemma {:induction false} MarkedIsInSlotOrder<T>(table: seq<T>, hit: seq<bool>)
    requires |hit| == |table|
    ensures |Marked(table, hit)| == |MarkedSlots(hit)|
    ensures forall i :: 0 <= i < |MarkedSlots(hit)| ==> Marked(table, hit)[i] == table[MarkedSlots(hit)[i]]
  {
    if table != [] {
      var n := |table| - 1;
      MarkedIsInSlotOrder(table[..n], hit[..n]);
    }
  }

  /** `table` after the first `i` slots were served: those in `drop` are free. */
  ghost function Cleared(table: seq<Event?>, drop: seq<bool>, i: nat): (r: seq<Event?>)
    requires |drop| == |table| && i <= |table|
    ensures |r| == |table|
    ensures forall j :: 0 <= j < |table| ==> r[j] == if j < i && drop[j] then null else table[j]
  {
    if i == 0 then table
    else if drop[i - 1] then Cleared(table, drop, i - 1)[i - 1 := null]
    else Cleared(table, drop, i - 1)
  }

  lemma MarkedStep<T>(table: seq<T>, hit: seq<bool>, i: nat)
    requires |hit| == |table| && i < |table|
    ensures Marked(table[..i + 1], hit[..i + 1])
         == Marked(table[..i], hit[..i]) + if hit[i] then [table[i]] else []
  {
    assert table[..i + 1][..i] == table[..i] && hit[..i + 1][..i] == hit[..i];
  }

  /** Slots without a mark add nothing. */
  lemma {:induction false} MarkedRest<T>(table: seq<T>, hit: seq<bool>, i: nat)
    requires |hit| == |table| && i <= |table|
    requires forall j :: i <= j < |table| ==> !hit[j]
    ensures Marked(table, hit) == Marked(table[..i], hit[..i])
    decreases |table| - i
  {
    if i == |table| {
      assert table[..i] == table && hit[..i] == hit;
    } else {
      MarkedStep(table, hit, i);
      MarkedRest(table, hit, i + 1);
    }
  }

  /** Slots know their own position, and `slotOf` sends each watched descriptor to the
      one slot that holds it. */
  ghost predicate Slots(table: seq<Event?>, slotOf: map<int, nat>)
    reads (set e: Event | e in table)`fd, (set e: Event | e in table)`index
  {
    && (forall i :: 0 <= i < |table| && table[i] != null ==>
          && table[i].index == i && table[i].fd >= 0
          && table[i].fd in slotOf && slotOf[table[i].fd] == i)
    && (forall f :: f in slotOf ==>
          slotOf[f] < |table| && table[slotOf[f]] != null && table[slotOf[f]].fd == f)
  }

  /** The descriptors in the marked slots. */
  ghost function FdsIn(table: seq<Event?>, drop: seq<bool>): set<int>
    requires |drop| == |table|
    reads (set e: Event | e in table)`fd
  {
    set i | 0 <= i < |table| && drop[i] && table[i] != null :: table[i].fd
  }

  /** `slotOf` sends each watched descriptor to its slot. */
  ghost predicate MapsFds(table: seq<Event?>, slotOf: map<int, nat>)
    reads (set e: Event | e in table)`fd
  {
    && (forall i :: 0 <= i < |table| && table[i] != null ==> table[i].fd in slotOf && slotOf[table[i].fd] == i)
    && (forall f :: f in slotOf ==>
          slotOf[f] < |table| && table[slotOf[f]] != null && table[slotOf[f]].fd == f)
  }

  /** What stays watched when the slots in `drop` are freed. */
  lemma StillWatched(table: seq<Event?>, slotOf: map<int, nat>, drop: seq<bool>, after: seq<Event?>,
                     slotOf': map<int, nat>)
    requires MapsFds(table, slotOf) && MapsFds(after, slotOf') && |after| == |table| == |drop|
    requires forall i :: 0 <= i < |table| ==> after[i] == if drop[i] then null else table[i]
    ensures slotOf'.Keys == slotOf.Keys - FdsIn(table, drop)
  {
    forall f
      ensures f in slotOf' <==> f in slotOf && f !in FdsIn(table, drop)
    {
      if f in slotOf {
        assert f in FdsIn(table, drop) ==> drop[slotOf[f]];
        assert !drop[slotOf[f]] ==> after[slotOf[f]] == table[slotOf[f]];
      }
      if f in slotOf' {
        assert after[slotOf'[f]] == table[slotOf'[f]];
      }
    }
  }

  lemma EmptyTable(table: seq<Event?>, slotOf: map<int, nat>)
    requires slotOf == map[] && forall i :: 0 <= i < |table| ==> table[i] == null
    ensures Slots(table, slotOf) && slotOf.Keys == {}
  {
  }

  /** `n` is one more than the largest descriptor, and 0 or 1 when there is none. */
  ghost predicate Bound(fds: set<int>, n: int) {
    && (forall f :: f in fds ==> f < n)
    && (if fds == {} then n == 0 || n == 1 else n - 1 in fds)
  }

  /** What a round collects from the timers and the watch table, and the table it leaves. */
  ghost predicate Gathered(timers: seq<Event>, table: seq<Event?>, k: nat, hit: seq<bool>, drop: seq<bool>,
                           collected: seq<Event>, left: seq<Event?>)
  {
    && k <= |timers| && |hit| == |drop| == |table|
    && collected == timers[..k] + Marked(table, hit) && left == Cleared(table, drop, |table|)
  }

  class Loop {
    const timerList: EventList
    const pendingList: EventList
    const watchTable: array<Event?>
    var readFds: set<int>
    var nfds: int
    // The deadlines of the timers, in microseconds, and every event fired so far.
    ghost var keys: seq<int>
    ghost var fired: seq<Event>
    // The slot of each watched descriptor, and a set that holds the watched events.
    ghost var slotOf: map<int, nat>
    ghost var watched: set<Event>
    // Every event that the loop may change.
    ghost var repr: set<Event>

    /** Both lists are well formed and disjoint, and the timers are in order. A clause that
        says `== true` of it is proved as a whole. */
    ghost predicate ValidLists()
      reads this`keys, timerList`items, timerList`nodes, pendingList`items, pendingList`nodes
      reads timerList.nodes`next, timerList.nodes`prev, timerList.items`timeout
      reads pendingList.nodes`next, pendingList.nodes`prev
    {
      && timerList != pendingList && timerList.nodes !! pendingList.nodes
      && timerList.Valid() && pendingList.Valid()
      && Keyed(timerList.items, keys) && Sorted(keys)
    }

    /** ril_event_init. */
    constructor ()
      ensures ValidLists() == true && timerList.items == [] && pendingList.items == []
      ensures ValidWatch() == true && watchTable[..] == seq(MAX_FD_EVENTS, _ => null) && readFds == {} && nfds == 0
      ensures keys == [] && fired == [] && watched == {}
      ensures fresh(repr) && fresh(watchTable) && Quiet() == true
    {
      timerList := new EventList();
      pendingList := new EventList();
      watchTable := new Event?[MAX_FD_EVENTS](_ => null);
      readFds, nfds, keys, fired, slotOf, watched := {}, 0, [], [], map[], {};
      repr := {};
      new;
      repr := timerList.nodes + pendingList.nodes;
      EmptyTable(watchTable[..], slotOf);
      assert ValidLists() == true;
    }

    /** The search loop of ril_timer_add: the first node that is not strictly earlier. */
    method FindPlace(timeout: Time, ghost k: nat) returns (list: Event)
      requires timerList.Valid() && Keyed(timerList.items, keys)
      requires k == LeadingBelow(keys, Micros(timeout))
      ensures list == timerList.At(k)
    {
      timerList.Linked(-1);
      list := timerList.sentinel.next;
      ghost var i := 0;
      while TimerLess(list.timeout, timeout) && list != timerList.sentinel
        invariant i <= k && list == timerList.At(i)
        invariant list == timerList.sentinel <==> i == |timerList.items|
        decreases k - i
      {
        timerList.Linked(i);
        list := list.next;
        i := i + 1;
      }
    }

    method LinkTimer(ev: Event, list: Event, ghost k: nat, ghost d: int)
      requires ValidLists() && ev !in timerList.nodes && ev !in pendingList.nodes
      requires Micros(ev.timeout) == d && k == LeadingBelow(keys, d)
      requires list == timerList.At(k)
      modifies this`keys, timerList`items, timerList`nodes
      modifies ({ev} + timerList.nodes)`next, ({ev} + timerList.nodes)`prev
      ensures ValidLists() == true && timerList.nodes == old(timerList.nodes) + {ev}
      ensures timerList.items == InsertAt(old(timerList.items), k, ev)
      ensures keys == InsertAt(old(keys), k, d)
    {
      InsertKeepsSorted(keys, d);
      InsertKeyed(timerList.items, keys, k, ev);
      keys := InsertAt(keys, k, d);
      timerList.Insert(ev, list, k);
    }

    /** The rest of ril_timer_add, once `ev` carries its deadline. */
    method PlaceTimer(ev: Event, ghost k: nat, ghost d: int)
      requires ValidLists() && ev !in timerList.nodes && ev !in pendingList.nodes
      requires Micros(ev.timeout) == d && k == LeadingBelow(keys, d)
      modifies this`keys, timerList`items, timerList`nodes
      modifies ({ev} + timerList.nodes)`next, ({ev} + timerList.nodes)`prev
      ensures ValidLists() == true && timerList.nodes == old(timerList.nodes) + {ev}
      ensures timerList.items == InsertAt(old(timerList.items), k, ev)
      ensures keys == InsertAt(old(keys), k, d)
    {
      var list := FindPlace(ev.timeout, k);
      LinkTimer(ev, list, k, d);
    }

    /** ril_timer_add with a relative time; `now` is the clock read inside. */
    method AddTimer(ev: Event, tv: Time, now: Time)
      requires ValidLists() && ev !in timerList.nodes && ev !in pendingList.nodes
      modifies this`keys, timerList`items, timerList`nodes, {ev}`fd, {ev}`timeout
      modifies ({ev} + timerList.nodes)`next, ({ev} + timerList.nodes)`prev
      ensures ValidLists() && ev.fd == -1 && timerList.nodes == old(timerList.nodes) + {ev}
      ensures timerList.items
           == InsertAt(old(timerList.items), LeadingBelow(old(keys), Micros(now) + Micros(tv)), ev)
      ensures keys == ArmOne(old(keys), Arm(tv, now))
    {
      ghost var d := Micros(now) + Micros(tv);
      ghost var k := LeadingBelow(keys, d);
      assert ArmOne(keys, Arm(tv, now)) == InsertAt(keys, k, d);
      ev.fd := -1;
      ev.timeout := TimerAdd(now, tv);
      PlaceTimer(ev, k, d);
    }

    /** ril_timer_add: without a relative time nothing happens. */
    method RilTimerAdd(ev: Event, tv: Option<Time>, now: Time)
      requires ValidLists() && ev !in timerList.nodes && ev !in pendingList.nodes
      modifies this`keys, timerList`items, timerList`nodes, {ev}`fd, {ev}`timeout
      modifies ({ev} + timerList.nodes)`next, ({ev} + timerList.nodes)`prev
      ensures ValidLists()
      ensures tv.None? ==> timerList.items == old(timerList.items) && keys == old(keys)
                           && timerList.nodes == old(timerList.nodes) && ev.fd == old(ev.fd)
      ensures tv.Some? ==>
        && timerList.items
        == InsertAt(old(timerList.items), LeadingBelow(old(keys), Micros(now) + Micros(tv.value)), ev)
        && keys == ArmOne(old(keys), Arm(tv.value, now))
        && timerList.nodes == old(timerList.nodes) + {ev} && ev.fd == -1
    {
      if tv.Some? {
        AddTimer(ev, tv.value, now);
      }
    }

    /** Unlinks the first timer. */
    method PopTimer(ev: Event)
      requires ValidLists() && timerList.items != [] && ev == timerList.items[0]
      modifies this`keys, timerList`items, timerList`nodes
      modifies timerList.nodes`next, timerList.nodes`prev
      ensures ValidLists() && timerList.items == old(timerList.items)[1..] && keys == old(keys)[1..]
      ensures timerList.nodes == old(timerList.nodes) - {ev}
    {
      keys := keys[1..];
      timerList.Remove(ev, 0);
    }

    /** Links an event at the end of the pending list. */
    method PushPending(ev: Event)
      requires ValidLists() && ev !in timerList.nodes && ev !in pendingList.nodes
      modifies pendingList`items, pendingList`nodes
      modifies ({ev} + pendingList.nodes)`next, ({ev} + pendingList.nodes)`prev
      ensures ValidLists() && pendingList.items == old(pendingList.items) + [ev]
      ensures pendingList.nodes == old(pendingList.nodes) + {ev}
      ensures old(pendingList.Exact()) ==> pendingList.Exact()
    {
      ghost var n := |pendingList.items|;
      assert InsertAt(pendingList.items, n, ev) == pendingList.items + [ev];
      pendingList.Insert(ev, pendingList.sentinel, n);
    }

    /** Unlinks the first pending event. */
    method PopPending(ev: Event)
      requires ValidLists() && pendingList.items != [] && ev == pendingList.items[0]
      modifies pendingList`items, pendingList`nodes
      modifies pendingList.nodes`next, pendingList.nodes`prev
      ensures ValidLists() && pendingList.items == old(pendingList.items)[1..]
      ensures pendingList.nodes == old(pendingList.nodes) - {ev}
      ensures old(pendingList.Exact()) ==> pendingList.Exact()
    {
      pendingList.Remove(ev, 0);
    }

    /** One expired timer: from the head of the timer list to the end of the pending list. */
    method MoveExpired(ev: Event) returns (next: Event)
      requires ValidLists() && timerList.items != [] && ev == timerList.items[0]
      modifies this`keys, timerList`items, timerList`nodes, pendingList`items, pendingList`nodes
      modifies (timerList.nodes + pendingList.nodes)`next, (timerList.nodes + pendingList.nodes)`prev
      ensures ValidLists() && keys == old(keys)[1..]
      ensures timerList.nodes <= old(timerList.nodes)
      ensures timerList.nodes + pendingList.nodes == old(timerList.nodes + pendingList.nodes)
      ensures pendingList.items + timerList.items == old(pendingList.items + timerList.items)
      ensures next == timerList.At(0) && (next == timerList.sentinel <==> timerList.items == [])
      ensures old(pendingList.Exact()) ==> pendingList.Exact()
    {
      ghost var ps, ts := pendingList.items, timerList.items;
      assert ps + [ev] + ts[1..] == ps + ts;
      timerList.ItemIn(0);
      timerList.Linked(0);
      next := ev.next;
      PopTimer(ev);
      PushPending(ev);
    }

    /** processTimeouts: `now` is the clock read inside. */
    method ProcessTimeouts(now: Time, ghost k: nat)
      requires ValidLists() && k == LeadingBelow(keys, Micros(now))
      modifies this`keys, timerList`items, timerList`nodes, pendingList`items, pendingList`nodes
      modifies (timerList.nodes + pendingList.nodes)`next, (timerList.nodes + pendingList.nodes)`prev
      ensures ValidLists()
      ensures timerList.nodes <= old(timerList.nodes)
      ensures timerList.nodes + pendingList.nodes == old(timerList.nodes + pendingList.nodes)
      ensures timerList.items == old(timerList.items)[k..] && keys == old(keys)[k..]
      ensures pendingList.items == old(pendingList.items) + old(timerList.items)[..k]
      ensures old(pendingList.Exact()) ==> pendingList.Exact()
    {
      ghost var ts, ks, i := timerList.items, keys, 0;
      timerList.Linked(-1);
      var tev: Event := timerList.sentinel.next;
      while tev != timerList.sentinel && TimerLess(tev.timeout, now)
        invariant ValidLists() && tev == timerList.At(0)
        invariant tev == timerList.sentinel <==> timerList.items == []
        invariant i <= |ts| && keys == ks[i..]
        invariant pendingList.items + timerList.items == old(pendingList.items) + ts
        invariant forall j :: 0 <= j < i ==> ks[j] < Micros(now)
        invariant timerList.nodes <= old(timerList.nodes)
        invariant timerList.nodes + pendingList.nodes == old(timerList.nodes + pendingList.nodes)
        invariant old(pendingList.Exact()) ==> pendingList.Exact()
        decreases |ts| - i
      {
        assert keys[0] == ks[i];
        tev := MoveExpired(tev);
        i := i + 1;
      }
      assert i < |ts| ==> keys[0] == ks[i];
      LeadingBelowUnique(ks, Micros(now), i);
      CutConcat(pendingList.items, timerList.items, old(pendingList.items), ts, i);
    }

    /** calcNextTimeout: no timer, or the wait until the first one, never negative. */
    method CalcNextTimeout(now: Time) returns (found: bool, tv: Time)
      requires ValidLists()
      ensures found <==> timerList.items != []
      ensures found ==>
        Micros(tv) == if keys[0] > Micros(now) then keys[0] - Micros(now) else 0
    {
      timerList.Linked(-1);
      var tev: Event := timerList.sentinel.next;
      tv := Timeval(0, 0);
      if tev == timerList.sentinel {
        return false, tv;
      }
      if TimerLess(now, tev.timeout) {
        tv := TimerSub(tev.timeout, now);
      }
      return true, tv;
    }

    ghost predicate ValidWatch()
      reads this`readFds, this`nfds, this`slotOf, this`watched, watchTable, watched`fd, watched`index
    {
      && watchTable.Length == MAX_FD_EVENTS
      && (forall i :: 0 <= i < watchTable.Length && watchTable[i] != null ==> watchTable[i] in watched)
      && Slots(watchTable[..], slotOf) && readFds == slotOf.Keys && Bound(readFds, nfds)
    }

    /** The scan of removeWatch: the largest watched descriptor, 0 when there is none. */
    method LargestFd() returns (n: int)
      requires Slots(watchTable[..], slotOf) && readFds == slotOf.Keys
      ensures Bound(readFds, n + 1)
    {
      n := 0;
      for i := 0 to watchTable.Length
        invariant n >= 0
        invariant forall f :: f in slotOf && slotOf[f] < i ==> f <= n
        invariant n > 0 ==> n in slotOf
      {
        var rev := watchTable[i];
        assert rev == watchTable[..][i];
        if rev != null && rev.fd > n {
          n := rev.fd;
        }
      }
      if n == 0 && exists f :: f in readFds {
        var f :| f in readFds;
        assert watchTable[..][slotOf[f]].fd == f;
      }
    }

    /** removeWatch. */
    method RemoveWatch(ev: Event, index: nat)
      requires ValidWatch() && index < watchTable.Length && watchTable[index] == ev
      modifies this`readFds, this`nfds, this`slotOf, watchTable, {ev}`index
      ensures ValidWatch() && watchTable[..] == old(watchTable[..])[index := null]
      ensures readFds == old(readFds) - {ev.fd} && ev.index == -1
    {
      assert watchTable[..][index] == ev;
      assert ev.fd in readFds;
      watchTable[index] := null;
      ev.index := -1;
      readFds := readFds - {ev.fd};
      slotOf := slotOf - {ev.fd};
      assert ev.fd + 1 != nfds ==> nfds - 1 in readFds;
      if ev.fd + 1 == nfds {
        var n := LargestFd();
        nfds := n + 1;
      }
    }

    /** The free slot of ril_event_add. The table stays well formed iff the descriptor was
        not watched before. */
    method FillSlot(ev: Event, i: nat)
      requires ValidWatch() && ev.fd >= 0 && i < watchTable.Length && watchTable[i] == null
      modifies this`readFds, this`nfds, this`slotOf, this`watched, watchTable, {ev}`index
      ensures ValidWatch() <==> ev.fd !in old(readFds)
      ensures watched == old(watched) + {ev}
      ensures watchTable[..] == old(watchTable[..])[i := ev] && ev.index == i
      ensures readFds == old(readFds) + {ev.fd} && nfds == if ev.fd >= old(nfds) then ev.fd + 1 else old(nfds)
    {
      ghost var j := if ev.fd in slotOf then slotOf[ev.fd] else i;
      assert watchTable[..][i] == null;
      assert ev.fd in slotOf ==> watchTable[..][j] != null && watchTable[..][j].fd == ev.fd;
      watchTable[i] := ev;
      ev.index := i;
      readFds := readFds + {ev.fd};
      slotOf, watched := slotOf[ev.fd := i], watched + {ev};
      if ev.fd >= nfds {
        nfds := ev.fd + 1;
      }
      assert j != i ==> watchTable[..][j] != null && watchTable[..][j].fd == ev.fd;
    }

    /** ril_event_add: the first free slot, or nothing when the table is full. */
    method RilEventAdd(ev: Event)
      requires ValidWatch() && ev.fd >= 0
      modifies this`readFds, this`nfds, this`slotOf, this`watched, watchTable, {ev}`index
      ensures null !in old(watchTable[..]) ==>
        && watchTable[..] == old(watchTable[..]) && readFds == old(readFds) && nfds == old(nfds)
        && ev.index == old(ev.index) && watched == old(watched) && ValidWatch()
      ensures null in old(watchTable[..]) ==>
        && 0 <= ev.index < MAX_FD_EVENTS && old(watchTable[..])[ev.index] == null
        && null !in old(watchTable[..])[..ev.index]
        && watchTable[..] == old(watchTable[..])[ev.index := ev] && readFds == old(readFds) + {ev.fd}
        && watched == old(watched) + {ev} && (ValidWatch() <==> ev.fd !in old(readFds))
    {
      for i := 0 to watchTable.Length
        invariant ValidWatch() && watchTable[..] == old(watchTable[..]) && ev.index == old(ev.index)
        invariant readFds == old(readFds) && nfds == old(nfds)
        invariant null !in watchTable[..i] && watched == old(watched)
      {
        if watchTable[i] == null {
          FillSlot(ev, i);
          break;
        }
      }
    }

    /** ril_event_del: an event that is not watched is left alone. */
    method RilEventDel(ev: Event)
      requires ValidWatch()
      requires 0 <= ev.index < MAX_FD_EVENTS ==> watchTable[ev.index] == ev
      modifies this`readFds, this`nfds, this`slotOf, watchTable, {ev}`index
      ensures ValidWatch()
      ensures 0 <= old(ev.index) < MAX_FD_EVENTS ==>
        && watchTable[..] == old(watchTable[..])[old(ev.index) := null]
        && readFds == old(readFds) - {ev.fd} && ev.index == -1
      ensures !(0 <= old(ev.index) < MAX_FD_EVENTS) ==>
        watchTable[..] == old(watchTable[..]) && readFds == old(readFds) && nfds == old(nfds)
    {
      if ev.index < 0 || ev.index >= MAX_FD_EVENTS {
        return;
      }
      RemoveWatch(ev, ev.index);
    }

    /** The loop between two callbacks: only the pending list may share events with the
        watch table. */
    ghost predicate Sound()
      reads this, timerList, pendingList`items, pendingList`nodes, watchTable, watched`fd, watched`index
      reads timerList.nodes`next, timerList.nodes`prev, timerList.items`timeout
      reads pendingList.nodes`next, pendingList.nodes`prev
    {
      && ValidLists() && ValidWatch() && watched !! timerList.nodes && pendingList.sentinel !in watched
      && watched <= repr && timerList.nodes <= repr && pendingList.nodes <= repr
    }

    /** ril_timer_add with an event that is new to the loop. */
    method AddNewTimer(ev: Event, arm: Arm)
      requires Sound() && ev !in repr
      modifies this`keys, this`repr, timerList`items, timerList`nodes, {ev}`fd, {ev}`timeout
      modifies ({ev} + timerList.nodes)`next, ({ev} + timerList.nodes)`prev
      ensures Sound() == true && keys == ArmOne(old(keys), arm)
      ensures repr == old(repr) + {ev} && timerList.nodes == old(timerList.nodes) + {ev}
    {
      RilTimerAdd(ev, Some(arm.relative), arm.now);
      repr := repr + {ev};
    }

    /** A callback arms a fresh timer. */
    method ArmTimer(arm: Arm)
      requires Sound() == true
      modifies this`keys, this`repr, timerList`items, timerList`nodes
      modifies timerList.nodes`next, timerList.nodes`prev
      ensures Sound() == true && keys == ArmOne(old(keys), arm)
      ensures fresh(repr - old(repr)) && fresh(timerList.nodes - old(timerList.nodes))
    {
      var ev := new Event(-1, false);
      AddNewTimer(ev, arm);
    }

    /** ril_event_add on a descriptor that is not watched. */
    method WatchValid(ev: Event)
      requires ValidLists() == true && ValidWatch() == true && ev.fd >= 0 && ev.fd !in readFds
      modifies this`readFds, this`nfds, this`slotOf, this`watched, watchTable, {ev}`index
      ensures ValidLists() == true && ValidWatch() == true && watched <= old(watched) + {ev}
      ensures readFds == if null in old(watchTable[..]) then old(readFds) + {ev.fd} else old(readFds)
    {
      RilEventAdd(ev);
    }

    /** ril_event_add with an event that is new to the loop, on a descriptor that is not
        watched. */
    method WatchNew(ev: Event)
      requires Sound() == true && ev !in repr && ev.fd >= 0 && ev.fd !in readFds
      modifies this`readFds, this`nfds, this`slotOf, this`watched, this`repr, watchTable, {ev}`index
      ensures Sound() == true && repr == old(repr) + {ev}
      ensures readFds == if null in old(watchTable[..]) then old(readFds) + {ev.fd} else old(readFds)
    {
      pendingList.SentinelIn();
      WatchValid(ev);
      repr := repr + {ev};
    }

    /** A callback watches a descriptor, unless it is watched already. */
    method WatchFd(fd: int, persist: bool)
      requires Sound() == true
      modifies this`readFds, this`nfds, this`slotOf, this`watched, this`repr, watchTable
      ensures Sound() == true && fresh(repr - old(repr))
      ensures readFds == if fd >= 0 && null in old(watchTable[..]) then old(readFds) + {fd} else old(readFds)
    {
      if fd >= 0 && fd !in readFds {
        var ev := new Event(fd, persist);
        WatchNew(ev);
      }
    }

    /** A callback stops watching the event in a slot. */
    method UnwatchSlot(slot: nat)
      requires Sound()
      modifies this`readFds, this`nfds, this`slotOf, watchTable, repr`index
      ensures Sound() == true && repr == old(repr)
      ensures slot < watchTable.Length && old(watchTable[slot]) != null ==>
        watchTable[..] == old(watchTable[..])[slot := null] && readFds == old(readFds) - {old(watchTable[slot]).fd}
      ensures slot < watchTable.Length ==> watchTable[slot] == null
      ensures slot >= watchTable.Length || old(watchTable[slot]) == null ==>
        watchTable[..] == old(watchTable[..]) && readFds == old(readFds)
    {
      if slot < watchTable.Length {
        var ev := watchTable[slot];
        if ev != null {
          assert watchTable[..][slot] == ev;
          RilEventDel(ev);
        }
      }
    }

    method RunAction(action: Action)
      requires Sound()
      modifies this`keys, this`readFds, this`nfds, this`slotOf, this`watched, this`repr, watchTable, repr`index
      modifies timerList`items, timerList`nodes, timerList.nodes`next, timerList.nodes`prev
      ensures Sound() && keys == if action.Schedule? then ArmOne(old(keys), action.arm) else old(keys)
      ensures action.Schedule? ==> watchTable[..] == old(watchTable[..]) && readFds == old(readFds)
      ensures action.Watch? && action.fd >= 0 && null in old(watchTable[..]) ==> action.fd in readFds
      ensures action.Unwatch? && action.slot < watchTable.Length ==> watchTable[action.slot] == null
      ensures fresh(repr - old(repr))
      ensures fresh(timerList.nodes - old(timerList.nodes))
    {
      match action {
        case Schedule(arm) => ArmTimer(arm);
        case Watch(fd, persist) => WatchFd(fd, persist);
        case Unwatch(slot) => UnwatchSlot(slot);
      }
    }

    /** The body of a callback. */
    method RunCallback(actions: seq<Action>)
      requires Sound() == true
      modifies this`keys, this`readFds, this`nfds, this`slotOf, this`watched, this`repr, watchTable, repr`index
      modifies timerList`items, timerList`nodes, timerList.nodes`next, timerList.nodes`prev
      ensures Sound() == true && keys == KeysAfter(old(keys), actions)
      ensures fresh(repr - old(repr))
      ensures fresh(timerList.nodes - old(timerList.nodes))
      ensures OnlyTimers(actions) ==> watchTable[..] == old(watchTable[..]) && readFds == old(readFds)
    {
      for i := 0 to |actions|
        invariant Sound() == true && keys == KeysAfter(old(keys), actions[..i])
        invariant fresh(repr - old(repr))
        invariant fresh(timerList.nodes - old(timerList.nodes))
        invariant OnlyTimers(actions) ==> watchTable[..] == old(watchTable[..]) && readFds == old(readFds)
      {
        KeysAfterStep(old(keys), actions, i);
        RunAction(actions[i]);
      }
      assert actions[..|actions|] == actions;
    }

    /** The first half of a round of firePending: unlink the first pending event. */
    method TakeFirst(ev: Event) returns (next: Event)
      requires Sound() == true && pendingList.items != [] && ev == pendingList.items[0]
      requires pendingList.Exact()
      modifies this`fired, pendingList`items, pendingList`nodes, pendingList.nodes`next, pendingList.nodes`prev
      ensures Sound() == true && fired == old(fired) + [ev] && pendingList.items == old(pendingList.items)[1..]
      ensures fired + pendingList.items == old(fired + pendingList.items)
      ensures pendingList.nodes == old(pendingList.nodes) - {ev} && pendingList.Exact() == true
      ensures next == pendingList.At(0) && (next == pendingList.sentinel <==> pendingList.items == [])
    {
      pendingList.Linked(0);
      next := ev.next;
      ghost var ps := pendingList.items;
      assert fired + [ev] + ps[1..] == fired + ps;
      fired := fired + [ev];
      PopPending(ev);
    }

    /** One round of firePending: unlink the first pending event, run its callback. */
    method FireFirst(ev: Event, actions: seq<Action>) returns (next: Event)
      requires Sound() == true && pendingList.items != [] && ev == pendingList.items[0]
      requires pendingList.Exact()
      modifies this`keys, this`fired, this`readFds, this`nfds, this`slotOf, this`watched, this`repr
      modifies watchTable, repr`index
      modifies timerList`items, timerList`nodes, pendingList`items, pendingList`nodes
      modifies (timerList.nodes + pendingList.nodes)`next, (timerList.nodes + pendingList.nodes)`prev
      ensures Sound() == true && keys == KeysAfter(old(keys), actions) && fired == old(fired) + [ev]
      ensures fired + pendingList.items == old(fired + pendingList.items)
      ensures pendingList.nodes == old(pendingList.nodes) - {ev}
      ensures fresh(timerList.nodes - old(timerList.nodes))
      ensures fresh(repr - old(repr))
      ensures next == pendingList.At(0) && (next == pendingList.sentinel <==> pendingList.items == [])
      ensures pendingList.Exact() == true
      ensures pendingList.items == old(pendingList.items)[1..]
      ensures OnlyTimers(actions) ==> watchTable[..] == old(watchTable[..]) && readFds == old(readFds)
    {
      next := TakeFirst(ev);
      RunCallback(actions);
    }

    /** firePending before its n-th callback: `all` is what is fired in the end. */
    ghost predicate FiringAt(n: nat, all: seq<Event>, base: nat, after: nat -> seq<int>)
      reads this`fired, this`keys, pendingList`items
    {
      fired + pendingList.items == all && |fired| == base + n && keys == after(n)
    }

    /** The n-th callback. */
    method FireNext(ev: Event, actions: seq<Action>, ghost n: nat, ghost all: seq<Event>, ghost base: nat,
                    ghost after: nat -> seq<int>, ghost plan: nat -> seq<Action>)
      returns (next: Event)
      requires Sound() == true && pendingList.items != [] && ev == pendingList.items[0]
      requires FiringAt(n, all, base, after) == true && actions == plan(n) && Follows(after, plan, n)
      requires pendingList.Exact()
      modifies this, timerList, pendingList, watchTable, repr
      ensures Sound() == true && FiringAt(n + 1, all, base, after) == true && fresh(repr - old(repr))
      ensures next == pendingList.At(0) && (next == pendingList.sentinel <==> pendingList.items == [])
      ensures pendingList.Exact() && |pendingList.items| < old(|pendingList.items|)
      ensures OnlyTimers(actions) ==> watchTable[..] == old(watchTable[..]) && readFds == old(readFds)
    {
      next := FireFirst(ev, actions);
    }

    /** firePending: runs the callbacks of the events that are pending on entry, in order,
        and no others, whatever those callbacks arm or watch. The i-th callback does
        `plan(i)`, and `after(i)` are the keys before it. */
    method FirePending(plan: nat -> seq<Action>, ghost after: nat -> seq<int>)
      requires Sound() == true && pendingList.Exact()
      requires keys == after(0) && FollowsAll(after, plan) == true
      modifies this, timerList, pendingList, watchTable, repr
      ensures Sound() == true && pendingList.items == [] && fired == old(fired + pendingList.items)
      ensures keys == after(|old(pendingList.items)|) && pendingList.Exact() && fresh(repr - old(repr))
      ensures AllOnlyTimers(plan) ==> watchTable[..] == old(watchTable[..]) && readFds == old(readFds)
    {
      ghost var all, base := fired + pendingList.items, |fired|;
      pendingList.Linked(-1);
      var ev: Event := pendingList.sentinel.next;
      var n := 0;
      while ev != pendingList.sentinel
        invariant Sound() == true && FiringAt(n, all, base, after) == true && fresh(repr - old(repr))
        invariant ev == pendingList.At(0) && (ev == pendingList.sentinel <==> pendingList.items == [])
        invariant pendingList.Exact() == true
        invariant AllOnlyTimers(plan) ==>
                    watchTable[..] == old(watchTable[..]) && readFds == old(readFds)
        decreases |pendingList.items|
      {
        assert Follows(after, plan, n);
        ev := FireNext(ev, plan(n), n, all, base, after, plan);
        n := n + 1;
      }
    }

    /** The ready slots are the watched ones reported by select; the ones to drop are
        those whose event is not persistent, and `gone` are their descriptors. */
    ghost predicate ReadySlots(hit: seq<bool>, drop: seq<bool>, gone: set<int>, rfds: set<int>)
      reads watchTable, (set e: Event | e in watchTable[..])`fd, (set e: Event | e in watchTable[..])`persist
    {
      && |hit| == |drop| == watchTable.Length && gone == FdsIn(watchTable[..], drop)
      && forall i :: 0 <= i < |hit| ==>
           && (hit[i] <==> watchTable[i] != null && watchTable[i].fd in rfds)
           && (drop[i] <==> hit[i] && !watchTable[i].persist)
    }

    /** One ready slot of processReadReadies. */
    method ServeSlot(rev: Event, i: nat)
      requires ValidLists() && ValidWatch() && i < watchTable.Length && watchTable[i] == rev
      requires rev !in timerList.nodes && rev !in pendingList.nodes
      modifies this`readFds, this`nfds, this`slotOf, watchTable, {rev}`index
      modifies pendingList`items, pendingList`nodes
      modifies ({rev} + pendingList.nodes)`next, ({rev} + pendingList.nodes)`prev
      ensures ValidLists() == true && ValidWatch() == true
      ensures pendingList.items == old(pendingList.items) + [rev]
      ensures pendingList.nodes == old(pendingList.nodes) + {rev}
      ensures watchTable[..] == if rev.persist then old(watchTable[..]) else old(watchTable[..])[i := null]
      ensures old(pendingList.Exact()) ==> pendingList.Exact()
    {
      PushPending(rev);
      if !rev.persist {
        RemoveWatch(rev, i);
      }
    }

    /** The state of processReadReadies before slot `i`, with `left` ready descriptors
        still to be met and those in `served` behind it. */
    ghost predicate Scanned(i: nat, left: nat, served: set<int>, rfds: set<int>,
                            table: seq<Event?>, hit: seq<bool>, drop: seq<bool>)
      reads this`readFds, this`nfds, this`slotOf, this`watched, watchTable, watched`fd, watched`index
      reads timerList`nodes, pendingList`nodes
      reads (set e: Event | e in table)`fd, (set e: Event | e in table)`persist
      requires i <= |table| == |hit| == |drop|
    {
      && ValidWatch() && watchTable[..] == Cleared(table, drop, i)
      && served <= rfds && left == |rfds| - |served|
      && (forall j :: i <= j < |table| && table[j] != null ==>
            && table[j] !in timerList.nodes && table[j] !in pendingList.nodes
            && table[j].fd !in served)
      && (forall j :: i <= j < |table| ==>
            && (hit[j] <==> table[j] != null && table[j].fd in rfds)
            && (drop[j] <==> hit[j] && !table[j].persist))
    }

    /** The same, seen by the scan. */
    method CountSlot(rev: Event, i: nat, ghost left: nat, ghost served: set<int>, ghost rfds: set<int>,
                     ghost table: seq<Event?>, ghost hit: seq<bool>, ghost drop: seq<bool>)
      requires ValidLists() && i < |table| == |hit| == |drop| && left > 0
      requires Scanned(i, left, served, rfds, table, hit, drop)
      requires table[i] == rev && hit[i]
      modifies this`readFds, this`nfds, this`slotOf, watchTable, {rev}`index
      modifies pendingList`items, pendingList`nodes
      modifies ({rev} + pendingList.nodes)`next, ({rev} + pendingList.nodes)`prev
      ensures ValidLists()
      ensures Scanned(i + 1, left - 1, served + {rev.fd}, rfds, table, hit, drop)
      ensures pendingList.items == old(pendingList.items) + [rev]
      ensures pendingList.nodes == old(pendingList.nodes) + {rev}
      ensures old(pendingList.Exact()) ==> pendingList.Exact()
    {
      assert watchTable[..][i] == rev;
      ServeSlot(rev, i);
    }

    /** The body of the scan. */
    method ScanSlot(i: nat, left: nat, rfds: set<int>, ghost served: set<int>, ghost base: seq<Event>,
                    ghost table: seq<Event?>, ghost hit: seq<bool>, ghost drop: seq<bool>)
      returns (left': nat, ghost served': set<int>)
      requires ValidLists() && i < |table| == |hit| == |drop| && left > 0
      requires Scanned(i, left, served, rfds, table, hit, drop)
      requires pendingList.items == base + Marked(table[..i], hit[..i])
      modifies this`readFds, this`nfds, this`slotOf, watchTable, watched`index
      modifies pendingList`items, pendingList`nodes
      modifies (watched + pendingList.nodes)`next, (watched + pendingList.nodes)`prev
      ensures ValidLists() && Scanned(i + 1, left', served', rfds, table, hit, drop)
      ensures pendingList.items == base + Marked(table[..i + 1], hit[..i + 1])
      ensures pendingList.nodes <= old(pendingList.nodes) + watched
      ensures old(pendingList.Exact()) ==> pendingList.Exact()
    {
      MarkedStep(table, hit, i);
      assert base + Marked(table[..i + 1], hit[..i + 1])
          == pendingList.items + if hit[i] then [table[i]] else [];
      var rev := watchTable[i];
      assert watchTable[..][i] == rev == table[i];
      left', served' := left, served;
      if rev != null && rev.fd in rfds {
        CountSlot(rev, i, left, served, rfds, table, hit, drop);
        left', served' := left - 1, served + {rev.fd};
      }
    }

    /** When the scan ends, no ready slot is left behind: if it ended because `left` is 0,
        every ready descriptor is already served. */
    lemma ScanEnds(i: nat, served: set<int>, left: nat, rfds: set<int>,
                   table: seq<Event?>, hit: seq<bool>, drop: seq<bool>)
      requires i <= |table| == |hit| == |drop| && Scanned(i, left, served, rfds, table, hit, drop)
      requires i == |table| || left == 0
      ensures Marked(table, hit) == Marked(table[..i], hit[..i])
      ensures watchTable[..] == Cleared(table, drop, |table|)
    {
      if left == 0 {
        SameSize(served, rfds);
      }
      MarkedRest(table, hit, i);
      assert Cleared(table, drop, |table|) == Cleared(table, drop, i);
    }

    /** What readFds has lost when the slots in `drop` are free. */
    lemma Freed(table: seq<Event?>, slots0: map<int, nat>, drop: seq<bool>)
      requires ValidWatch() && MapsFds(table, slots0) && |drop| == |table|
      requires watchTable[..] == Cleared(table, drop, |table|)
      ensures readFds == slots0.Keys - FdsIn(table, drop)
    {
      StillWatched(table, slots0, drop, watchTable[..], slotOf);
    }

    /** processReadReadies: `rfds` is what select returned and `n` its count. Every event
        that is still watched and ready is queued, in slot order, and stops being watched
        unless it is persistent. The count never ends the scan early. */
    method ProcessReadReadies(rfds: set<int>, n: nat, ghost hit: seq<bool>, ghost drop: seq<bool>, ghost gone: set<int>)
      requires ValidLists() == true && ValidWatch() == true && n == |rfds| && ReadySlots(hit, drop, gone, rfds) == true
      requires watched !! timerList.nodes && watched !! pendingList.nodes
      modifies this`readFds, this`nfds, this`slotOf, watchTable, watched`index
      modifies pendingList`items, pendingList`nodes
      modifies (watched + pendingList.nodes)`next, (watched + pendingList.nodes)`prev
      ensures ValidLists() && ValidWatch()
      ensures pendingList.items == old(pendingList.items) + Marked(old(watchTable[..]), hit)
      ensures watchTable[..] == Cleared(old(watchTable[..]), drop, |old(watchTable[..])|)
      ensures readFds == old(readFds) - gone
      ensures pendingList.nodes <= old(pendingList.nodes) + watched
      ensures old(pendingList.Exact()) ==> pendingList.Exact()
    {
      ghost var slots0 := slotOf;
      ghost var base, table := pendingList.items, watchTable[..];
      ghost var served: set<int> := {};
      var left := n;
      var i := 0;
      while i < watchTable.Length && left > 0
        invariant i <= watchTable.Length && ValidLists() == true
        invariant Scanned(i, left, served, rfds, table, hit, drop) == true
        invariant pendingList.nodes <= old(pendingList.nodes) + watched
        invariant old(pendingList.Exact()) ==> pendingList.Exact()
        invariant pendingList.items == base + Marked(table[..i], hit[..i])
      {
        left, served := ScanSlot(i, left, rfds, served, base, table, hit, drop);
        i := i + 1;
      }
      ScanEnds(i, served, left, rfds, table, hit, drop);
      Freed(table, slots0, drop);
    }

    /** processTimeouts between two rounds: the watch table is as it was. */
    method Expire(now: Time, rfds: set<int>, ghost hit: seq<bool>, ghost drop: seq<bool>, ghost gone: set<int>)
      returns (ghost k: nat)
      requires ValidLists() == true && ValidWatch() == true && pendingList.items == []
      requires ReadySlots(hit, drop, gone, rfds) == true && pendingList.Exact() == true
      requires watched !! timerList.nodes && watched !! pendingList.nodes
      modifies this`keys, timerList`items, timerList`nodes, pendingList`items, pendingList`nodes
      modifies (timerList.nodes + pendingList.nodes)`next, (timerList.nodes + pendingList.nodes)`prev
      ensures ValidLists() == true && ValidWatch() == true && ReadySlots(hit, drop, gone, rfds) == true
      ensures watched !! timerList.nodes && watched !! pendingList.nodes && pendingList.Exact() == true
      ensures timerList.nodes + pendingList.nodes == old(timerList.nodes + pendingList.nodes)
      ensures k == LeadingBelow(old(keys), Micros(now)) && k <= |old(timerList.items)| == |old(keys)|
      ensures keys == old(keys)[k..] && timerList.items == old(timerList.items)[k..]
      ensures pendingList.items == old(timerList.items)[..k]
    {
      k := LeadingBelow(keys, Micros(now));
      ProcessTimeouts(now, k);
      assert ValidWatch() == true && ReadySlots(hit, drop, gone, rfds) == true;
    }

    /** What one round of ril_event_loop queues after select returned: the expired timers
        in the order of the list, then the ready descriptors in slot order. */
    method Collect(now: Time, rfds: set<int>, n: nat, ghost hit: seq<bool>, ghost drop: seq<bool>, ghost gone: set<int>)
      returns (ghost k: nat)
      requires ValidLists() == true && ValidWatch() == true && pendingList.items == []
      requires n == |rfds| && ReadySlots(hit, drop, gone, rfds) == true
      requires watched !! timerList.nodes && watched !! pendingList.nodes
      requires pendingList.Exact() == true
      modifies this`keys, this`readFds, this`nfds, this`slotOf, watchTable, watched`index
      modifies timerList`items, timerList`nodes, pendingList`items, pendingList`nodes
      modifies (watched + timerList.nodes + pendingList.nodes)`next
      modifies (watched + timerList.nodes + pendingList.nodes)`prev
      ensures ValidLists() == true && ValidWatch() == true
      ensures timerList.nodes + pendingList.nodes <= old(watched + timerList.nodes + pendingList.nodes)
      ensures watched !! timerList.nodes && watched == old(watched)
      ensures k == LeadingBelow(old(keys), Micros(now))
      ensures keys == old(keys)[k..] && timerList.items == old(timerList.items)[k..]
      ensures pendingList.items == old(timerList.items)[..k] + Marked(old(watchTable[..]), hit)
      ensures watchTable[..] == Cleared(old(watchTable[..]), drop, |old(watchTable[..])|)
      ensures readFds == old(readFds) - gone
      ensures pendingList.Exact() == true
    {
      k := Expire(now, rfds, hit, drop, gone);
      ProcessReadReadies(rfds, n, hit, drop, gone);
    }

    /** The loop at the top of ril_event_loop. */
    ghost predicate Quiet()
      reads this, timerList, pendingList`items, pendingList`nodes, watchTable, watched`fd, watched`index
      reads timerList.nodes`next, timerList.nodes`prev, timerList.items`timeout
      reads pendingList.nodes`next, pendingList.nodes`prev
    {
      && ValidLists() && ValidWatch() && pendingList.items == [] && pendingList.Exact()
      && watched !! timerList.nodes && watched !! pendingList.nodes
      && watched <= repr && timerList.nodes <= repr && pendingList.nodes <= repr
    }

    /** The watch table holds these events. */
    ghost predicate TableIs(table: seq<Event?>)
      reads watchTable
    {
      watchTable.Length == |table| && forall i :: 0 <= i < |table| ==> watchTable[i] == table[i]
    }

    /** The same for a quiet loop. */
    method Gather(now: Time, rfds: set<int>, n: nat, ghost hit: seq<bool>, ghost drop: seq<bool>, ghost gone: set<int>)
      returns (ghost k: nat, ghost collected: seq<Event>, ghost left: seq<Event?>)
      requires Quiet() && n == |rfds| && ReadySlots(hit, drop, gone, rfds)
      modifies this, timerList, pendingList, watchTable, repr
      ensures Sound() == true && pendingList.Exact() == true && repr == old(repr)
      ensures fired == old(fired) && k == LeadingBelow(old(keys), Micros(now)) && keys == old(keys)[k..]
      ensures pendingList.items == collected && TableIs(left) == true && readFds == old(readFds) - gone
      ensures Gathered(old(timerList.items), old(watchTable[..]), k, hit, drop, collected, left) == true
    {
      pendingList.SentinelIn();
      k := Collect(now, rfds, n, hit, drop, gone);
      collected, left := pendingList.items, watchTable[..];
    }

    /** The end of a round: firePending leaves the loop as it was before select. */
    method FireCollected(plan: nat -> seq<Action>, ghost after: nat -> seq<int>, ghost repr0: set<Event>,
                         ghost fired0: seq<Event>, ghost collected: seq<Event>, ghost left: seq<Event?>,
                         ghost fds: set<int>)
      requires Sound() == true && pendingList.Exact() == true && repr == repr0
      requires fired == fired0 && pendingList.items == collected && TableIs(left) == true && readFds == fds
      requires keys == after(0) && FollowsAll(after, plan) == true
      modifies this, timerList, pendingList, watchTable, repr
      ensures Quiet() == true && fired == fired0 + collected && keys == after(|collected|) && fresh(repr - repr0)
      ensures AllOnlyTimers(plan) ==> TableIs(left) == true && readFds == fds
    {
      FirePending(plan, after);
      pendingList.EmptyIsSentinel();
    }

    /** One round of ril_event_loop after select returned: everything collected is fired,
        once and in order, nothing stays pending, and the loop is ready for the next round,
        whatever the callbacks did. If they only armed timers, the slots in `drop` are free
        now, their descriptors are not watched any more, and all others are as before.
        `after(i)` are the keys before the i-th callback. */
    method Iterate(now: Time, rfds: set<int>, n: nat, plan: nat -> seq<Action>, ghost hit: seq<bool>,
                   ghost drop: seq<bool>, ghost gone: set<int>, ghost after: nat -> seq<int>)
      returns (ghost k: nat, ghost collected: seq<Event>, ghost left: seq<Event?>)
      requires Quiet() == true && n == |rfds| && ReadySlots(hit, drop, gone, rfds) == true
      requires after(0) == keys[LeadingBelow(keys, Micros(now))..] && FollowsAll(after, plan) == true
      modifies this, timerList, pendingList, watchTable, repr
      ensures Quiet() == true && fresh(repr - old(repr))
      ensures k == LeadingBelow(old(keys), Micros(now))
      ensures Gathered(old(timerList.items), old(watchTable[..]), k, hit, drop, collected, left) == true
      ensures fired == old(fired) + collected && keys == after(|collected|)
      ensures AllOnlyTimers(plan) ==> TableIs(left) == true && readFds == old(readFds) - gone
    {
      k, collected, left := Gather(now, rfds, n, hit, drop, gone);
      ghost var repr0 := repr;
      FireCollected(plan, after, repr0, old(fired), collected, left, old(readFds) - gone);
    }
  }
}
