/** The data structures of ril_event.cpp carry out the steps of the wake-up protocol: each
    method here runs one function of the event loop and is one step, or a given sequence of
    steps, of the machine that the whole-run results are about. */
module EventLoopSteps {
  import opened Clock
  import opened EventLoop
  import opened TimerQueue
  import opened Wrappers
  import P = WakeupProtocol

  /** The timer list shows the waiting timers. */
  ghost predicate ShowsTimers(items: seq<Event>, keys: seq<int>, waiting: seq<Timer>)
    reads items`id, items`fd
  {
    && |items| == |waiting| && keys == Deadlines(waiting)
    && forall i :: 0 <= i < |items| ==> items[i].id == waiting[i].id && items[i].fd == -1
  }

  ghost predicate ShowsItem(ev: Event, item: P.Item)
    reads ev`id, ev`fd
  {
    match item
    case Expired(timer, _) => ev.id == timer.id && ev.fd == -1
    case Ready(fd) => ev.fd == fd
  }

  ghost predicate ShowsPending(items: seq<Event>, pending: seq<P.Item>)
    reads items`id, items`fd
  {
    |items| == |pending| && forall i :: 0 <= i < |items| ==> ShowsItem(items[i], pending[i])
  }

  /** The loop shows the state of the machine. */
  ghost predicate Shows(l: Loop, s: P.State)
    reads l, l.timerList`items, l.pendingList`items
    reads l.timerList.items`id, l.timerList.items`fd, l.pendingList.items`id, l.pendingList.items`fd
  {
    && ShowsTimers(l.timerList.items, l.keys, s.waiting) && ShowsPending(l.pendingList.items, s.pending)
    && l.readFds == s.watched
  }

  method WatchPipe(l: Loop, ev: Event)
    requires l.ValidLists() == true && l.ValidWatch() == true && null in l.watchTable[..]
    requires ev.fd >= 0 && ev.fd !in l.readFds
    modifies l`readFds, l`nfds, l`slotOf, l`watched, l.watchTable, {ev}`index
    ensures l.ValidLists() == true && l.ValidWatch() == true && ev in l.watchTable[..]
    ensures l.readFds == old(l.readFds) + {ev.fd}
  {
    l.RilEventAdd(ev);
    assert l.watchTable[..][ev.index] == ev;
  }

  /** The start of the event loop: the lists are empty, and the pipe is watched. */
  method StartLoop(wakeFd: int, ghost clock: int) returns (l: Loop, ev: Event, ghost s: P.State)
    requires wakeFd >= 0
    ensures fresh(l) && l.ValidLists() == true && l.ValidWatch() == true && Shows(l, s) == true
    ensures P.Init(s) == true && s.wakeFd == wakeFd && s.clock == clock
    ensures ev.fd == wakeFd && ev.persist && ev in l.watchTable[..]
  {
    l := new Loop();
    ev := new Event(wakeFd, true);
    assert l.watchTable[..][0] == null;
    WatchPipe(l, ev);
    s := P.State(clock, 0, wakeFd, [], {wakeFd}, [], [], 0, {}, P.Top);
  }

  lemma InsertDeadline(ts: seq<Timer>, k: nat, t: Timer)
    requires k <= |ts|
    ensures Deadlines(InsertAt(ts, k, t)) == InsertAt(Deadlines(ts), k, t.deadline)
  {
  }

  lemma InsertShown(items: seq<Event>, keys: seq<int>, waiting: seq<Timer>, k: nat, ev: Event, t: Timer)
    requires ShowsTimers(items, keys, waiting) && k <= |items| && ev.id == t.id && ev.fd == -1
    ensures ShowsTimers(InsertAt(items, k, ev), InsertAt(keys, k, t.deadline), InsertAt(waiting, k, t))
  {
    InsertDeadline(waiting, k, t);
    var items', waiting' := InsertAt(items, k, ev), InsertAt(waiting, k, t);
    forall i | 0 <= i < |items'|
      ensures items'[i].id == waiting'[i].id && items'[i].fd == -1
    {
      if i < k {
        assert items'[i] == items[i] && waiting'[i] == waiting[i];
      } else if i > k {
        assert items'[i] == items[i - 1] && waiting'[i] == waiting[i - 1];
      }
    }
  }

  lemma NotAmong(list: EventList, ev: Event)
    requires list.Valid() && ev !in list.nodes
    ensures ev !in list.items
  {
  }

  /** ril_timer_add as an insertion into the waiting timers. */
  method InsertTimer(l: Loop, ev: Event, tv: Time, now: Time, ghost k: nat, ghost waiting: seq<Timer>, ghost t: Timer)
    requires l.ValidLists() == true && ev !in l.timerList.nodes && ev !in l.pendingList.nodes
    requires ShowsTimers(l.timerList.items, l.keys, waiting) && ev !in l.timerList.items
    requires ev.id == t.id && t.deadline == Micros(now) + Micros(tv) && k == LeadingBelow(l.keys, t.deadline)
    modifies l`keys, l.timerList`items, l.timerList`nodes, {ev}`fd, {ev}`timeout
    modifies ({ev} + l.timerList.nodes)`next, ({ev} + l.timerList.nodes)`prev
    ensures l.ValidLists() == true
    ensures ShowsTimers(l.timerList.items, l.keys, InsertAt(waiting, k, t)) == true
  {
    ghost var items, keys := l.timerList.items, l.keys;
    assert ArmOne(keys, Arm(tv, now)) == InsertAt(keys, k, t.deadline);
    l.AddTimer(ev, tv, now);
    assert ShowsTimers(items, keys, waiting) == true;
    InsertShown(items, keys, waiting, k, ev, t);
  }

  lemma AddStep(s: P.State, onLoop: bool, thread: nat, relative: int) returns (s': P.State)
    requires if onLoop then s.pc.InCallback? else thread !in s.adders
    ensures P.Next(s, if onLoop then P.LoopAdd(relative) else P.AdderAdd(thread, relative), s') == true
    ensures s'.pending == s.pending && s'.watched == s.watched
    ensures var t := Timer(s.nextId, s.clock + relative);
            s'.waiting == InsertAt(s.waiting, LeadingBelow(Deadlines(s.waiting), t.deadline), t)
  {
    s' := P.AddTimer(s, relative);
    s' := if onLoop then s' else s'.(adders := s.adders + {thread});
  }

  /** ril_timer_add is the insertion of an adder, or of a callback on the loop thread. */
  method AddTimer(l: Loop, ev: Event, tv: Time, now: Time, ghost onLoop: bool, ghost thread: nat, ghost s: P.State)
    returns (ghost s': P.State)
    requires l.ValidLists() == true && ev !in l.timerList.nodes && ev !in l.pendingList.nodes
    requires Shows(l, s) && Micros(now) == s.clock && if onLoop then s.pc.InCallback? else thread !in s.adders
    modifies l`keys, l.timerList`items, l.timerList`nodes, {ev}`fd, {ev}`timeout, {ev}`id
    modifies ({ev} + l.timerList.nodes)`next, ({ev} + l.timerList.nodes)`prev
    ensures l.ValidLists() == true && Shows(l, s') == true
    ensures P.Next(s, if onLoop then P.LoopAdd(Micros(tv)) else P.AdderAdd(thread, Micros(tv)), s') == true
  {
    NotAmong(l.timerList, ev);
    NotAmong(l.pendingList, ev);
    ghost var t := Timer(s.nextId, s.clock + Micros(tv));
    ghost var k := LeadingBelow(l.keys, t.deadline);
    s' := AddStep(s, onLoop, thread, Micros(tv));
    assert s'.waiting == InsertAt(s.waiting, k, t);
    ev.id := s.nextId;
    assert ShowsTimers(l.timerList.items, l.keys, s.waiting) == true;
    InsertTimer(l, ev, tv, now, k, s.waiting, t);
    assert ShowsPending(l.pendingList.items, s.pending) == true;
  }

  lemma SweepShown(items: seq<Event>, keys: seq<int>, pend: seq<Event>, s: P.State, k: nat)
    requires ShowsTimers(items, keys, s.waiting) && ShowsPending(pend, s.pending)
    requires k == LeadingBelow(Deadlines(s.waiting), s.clock)
    ensures k <= |items| && |P.Moved(s)| == k
    ensures ShowsTimers(items[k..], keys[k..], s.waiting[k..])
    ensures ShowsPending(pend + items[..k], s.pending + P.Moved(s))
  {
    assert Deadlines(s.waiting[k..]) == keys[k..];
    forall i | 0 <= i < |pend| + k
      ensures ShowsItem((pend + items[..k])[i], (s.pending + P.Moved(s))[i])
    {
      if i >= |pend| {
        assert P.Moved(s)[i - |pend|] == P.Expired(s.waiting[i - |pend|], s.clock);
      }
    }
  }

  lemma SweepStep(s: P.State) returns (s': P.State)
    requires s.pc.Awake?
    ensures P.Next(s, P.Sweep, s') == true && s'.watched == s.watched
    ensures s'.waiting == s.waiting[|P.Moved(s)|..] && s'.pending == s.pending + P.Moved(s)
  {
    s' := P.SweepTimers(s).(pc := P.Swept(s.pc.readable));
  }

  /** processTimeouts is the sweep. */
  method ProcessTimeouts(l: Loop, now: Time, ghost s: P.State) returns (ghost s': P.State)
    requires l.ValidLists() == true && Shows(l, s) && Micros(now) == s.clock && s.pc.Awake?
    modifies l`keys, l.timerList`items, l.timerList`nodes, l.pendingList`items, l.pendingList`nodes
    modifies (l.timerList.nodes + l.pendingList.nodes)`next, (l.timerList.nodes + l.pendingList.nodes)`prev
    ensures l.ValidLists() == true && Shows(l, s') == true && P.Next(s, P.Sweep, s') == true
  {
    ghost var k := LeadingBelow(l.keys, s.clock);
    SweepShown(l.timerList.items, l.keys, l.pendingList.items, s, k);
    ghost var items, pend := l.timerList.items[k..], l.pendingList.items + l.timerList.items[..k];
    ghost var keys := l.keys[k..];
    s' := SweepStep(s);
    assert ShowsTimers(items, keys, s'.waiting) == true && ShowsPending(pend, s'.pending) == true;
    l.ProcessTimeouts(now, k);
    assert ShowsTimers(items, keys, s'.waiting) == true && ShowsPending(pend, s'.pending) == true;
  }

  /** The first half of a round of firePending is one FireNext step. */
  method TakePending(l: Loop, ev: Event, ghost s: P.State) returns (ghost s': P.State)
    requires l.ValidLists() && Shows(l, s) && s.pc.Firing?
    requires l.pendingList.items != [] && ev == l.pendingList.items[0]
    modifies l.pendingList`items, l.pendingList`nodes, l.pendingList.nodes`next, l.pendingList.nodes`prev
    ensures l.ValidLists() == true && Shows(l, s') && P.Next(s, P.FireNext, s')
    ensures s'.pc == if s.pending[0] == P.Ready(s.wakeFd) then P.Draining else P.InCallback
  {
    s' := s.(pending := s.pending[1..], fired := s.fired + [s.pending[0]],
             pc := if s.pending[0] == P.Ready(s.wakeFd) then P.Draining else P.InCallback);
    l.PopPending(ev);
  }

  /** calcNextTimeout is a read of the head and a read of the clock. */
  method CalcNextTimeout(l: Loop, now: Time, ghost s: P.State)
    returns (found: bool, tv: Time, ghost s1: P.State, ghost s2: P.State)
    requires l.ValidLists() && Shows(l, s) && Micros(now) == s.clock && s.pc.FdsCopied?
    ensures P.Next(s, P.ReadHead, s1) && P.Next(s1, P.ReadClock, s2) && Shows(l, s2)
    ensures found ==> Micros(tv) >= 0
    ensures s2.pc == P.Asleep(s.pc.fds, s.clock, if found then P.AtMost(Micros(tv)) else P.Forever)
  {
    found, tv := l.CalcNextTimeout(now);
    s1 := s.(pc := P.HeadRead(s.pc.fds, if s.waiting == [] then P.NoTimer else P.First(s.waiting[0].deadline)));
    s2 := s.(pc := P.Asleep(s.pc.fds, s.clock, if found then P.AtMost(Micros(tv)) else P.Forever));
  }

  lemma WatchStep(s: P.State, onLoop: bool, thread: nat, fd: int, room: bool) returns (s': P.State)
    requires if onLoop then s.pc.InCallback? else thread !in s.adders
    ensures P.Next(s, if onLoop then P.LoopWatch(fd, room) else P.AdderWatch(thread, fd, room), s') == true
    ensures s'.waiting == s.waiting && s'.pending == s.pending
    ensures s'.watched == if room then s.watched + {fd} else s.watched
  {
    s' := P.AddFd(s, fd, room);
    s' := if onLoop then s' else s'.(adders := s.adders + {thread});
  }

  method WatchShown(l: Loop, ev: Event, ghost room: bool, ghost s': P.State)
    requires l.ValidWatch() == true && ev.fd >= 0 && room == (null in l.watchTable[..])
    requires ShowsTimers(l.timerList.items, l.keys, s'.waiting) && ShowsPending(l.pendingList.items, s'.pending)
    requires s'.watched == if room then l.readFds + {ev.fd} else l.readFds
    modifies l`readFds, l`nfds, l`slotOf, l`watched, l.watchTable, {ev}`index
    ensures Shows(l, s') == true && (l.ValidWatch() <==> (room ==> ev.fd !in old(l.readFds)))
  {
    l.RilEventAdd(ev);
  }

  /** ril_event_add, from an adder that then writes the pipe, or from a callback. */
  method AddEvent(l: Loop, ev: Event, ghost onLoop: bool, ghost thread: nat, ghost s: P.State)
    returns (ghost room: bool, ghost s': P.State)
    requires l.ValidWatch() == true && ev.fd >= 0 && Shows(l, s)
    requires if onLoop then s.pc.InCallback? else thread !in s.adders
    modifies l`readFds, l`nfds, l`slotOf, l`watched, l.watchTable, {ev}`index
    ensures Shows(l, s') == true && room == (null in old(l.watchTable[..]))
    ensures l.ValidWatch() <==> (room ==> ev.fd !in old(l.readFds))
    ensures P.Next(s, if onLoop then P.LoopWatch(ev.fd, room) else P.AdderWatch(thread, ev.fd, room), s') == true
  {
    room := null in l.watchTable[..];
    s' := WatchStep(s, onLoop, thread, ev.fd, room);
    WatchShown(l, ev, room, s');
  }

  /** ril_event_del: a step for a watched event, which is not that of the pipe, and nothing
      otherwise. */
  method DeleteEvent(l: Loop, ev: Event, ghost s: P.State) returns (ghost s': P.State)
    requires l.ValidWatch() == true && Shows(l, s)
    requires 0 <= ev.index < MAX_FD_EVENTS ==> l.watchTable[ev.index] == ev && ev.fd != s.wakeFd
    modifies l`readFds, l`nfds, l`slotOf, l.watchTable, {ev}`index
    ensures l.ValidWatch() == true && Shows(l, s')
    ensures if 0 <= old(ev.index) < MAX_FD_EVENTS then P.Next(s, P.Unwatch(ev.fd), s') else s' == s
  {
    s' := if 0 <= ev.index < MAX_FD_EVENTS then s.(watched := s.watched - {ev.fd}) else s;
    l.RilEventDel(ev);
  }
}
