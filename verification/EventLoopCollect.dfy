/** processReadReadies as a step of the wake-up protocol: the ready slots of the watch
    table are the descriptors that the protocol collects. */
module EventLoopCollect {
  import opened EventLoop
  import opened EventLoopSteps
  import P = WakeupProtocol

  /** Which slots are ready, and which of them are freed. */
  ghost predicate Hits(table: seq<Event?>, hit: seq<bool>, drop: seq<bool>, rfds: set<int>)
    reads (set e: Event | e in table)`fd, (set e: Event | e in table)`persist
  {
    && |hit| == |drop| == |table|
    && forall i :: 0 <= i < |table| ==>
         && (hit[i] <==> table[i] != null && table[i].fd in rfds)
         && (drop[i] <==> hit[i] && !table[i].persist)
  }

  /** The descriptors in some slots of the table. */
  ghost function FdsAt(table: seq<Event?>, slots: seq<nat>): (fds: seq<int>)
    requires forall i :: 0 <= i < |slots| ==> slots[i] < |table| && table[slots[i]] != null
    reads (set e: Event | e in table)`fd
    ensures |fds| == |slots| && forall i :: 0 <= i < |fds| ==> fds[i] == table[slots[i]].fd
  {
    if slots == [] then [] else [table[slots[0]].fd] + FdsAt(table, slots[1..])
  }

  /** The marked slots hold each watched descriptor that is ready once. */
  lemma ReadyOnce(table: seq<Event?>, slotOf: map<int, nat>, hit: seq<bool>, drop: seq<bool>, rfds: set<int>)
    requires Slots(table, slotOf) && Hits(table, hit, drop, rfds)
    ensures P.IsReady(FdsAt(table, MarkedSlots(hit)), rfds * slotOf.Keys)
  {
    var slots, ready := MarkedSlots(hit), FdsAt(table, MarkedSlots(hit));
    forall f | f in rfds * slotOf.Keys ensures f in ready {
      assert hit[slotOf[f]];
      var i :| 0 <= i < |slots| && slots[i] == slotOf[f];
      assert ready[i] == f;
    }
    forall i | 0 <= i < |ready| ensures ready[i] in rfds * slotOf.Keys && slotOf[ready[i]] == slots[i] {
      assert hit[slots[i]];
    }
    forall i, j | 0 <= i < j < |ready| ensures ready[i] != ready[j] {
      assert slots[i] < slots[j];
    }
  }

  /** The marked events, in the order of their slots. */
  lemma MarkedEvents(table: seq<Event?>, hit: seq<bool>) returns (events: seq<Event>)
    requires |hit| == |table| && forall i :: 0 <= i < |table| && hit[i] ==> table[i] != null
    ensures events == Marked(table, hit) && |events| == |MarkedSlots(hit)|
    ensures forall i :: 0 <= i < |events| ==> events[i] == table[MarkedSlots(hit)[i]]
  {
    MarkedIsInSlotOrder(table, hit);
    var marked := Marked(table, hit);
    forall i | 0 <= i < |marked| ensures marked[i] != null {
      assert marked[i] == table[MarkedSlots(hit)[i]];
    }
    events := marked;
  }

  lemma AppendShown(pend: seq<Event>, pending: seq<P.Item>, events: seq<Event>, fds: seq<int>)
    requires ShowsPending(pend, pending) && |events| == |fds|
    requires forall i :: 0 <= i < |events| ==> events[i].fd == fds[i]
    ensures ShowsPending(pend + events, pending + P.ReadyItems(fds))
  {
    forall i | 0 <= i < |pend + events|
      ensures ShowsItem((pend + events)[i], (pending + P.ReadyItems(fds))[i])
    {
    }
  }

  /** processReadReadies on the watched descriptors. */
  method ServeReady(l: Loop, rfds: set<int>, n: nat, ghost hit: seq<bool>, ghost drop: seq<bool>,
                    ghost table: seq<Event?>, ghost events: seq<Event>, ghost dropped: set<int>)
    requires l.ValidLists() == true && l.ValidWatch() == true && n == |rfds|
    requires table == l.watchTable[..] && Hits(table, hit, drop, rfds) && dropped == FdsIn(table, drop)
    requires events == Marked(table, hit)
    requires l.watched !! l.timerList.nodes && l.watched !! l.pendingList.nodes
    modifies l`readFds, l`nfds, l`slotOf, l.watchTable, l.watched`index, l.pendingList`items, l.pendingList`nodes
    modifies (l.watched + l.pendingList.nodes)`next, (l.watched + l.pendingList.nodes)`prev
    ensures l.ValidLists() == true && l.ValidWatch() == true
    ensures l.pendingList.items == old(l.pendingList.items) + events
    ensures l.readFds == old(l.readFds) - dropped
  {
    assert l.ReadySlots(hit, drop, dropped, rfds);
    l.ProcessReadReadies(rfds, n, hit, drop, dropped);
  }

  /** The same for events that show `pending`. */
  method ServeShown(l: Loop, rfds: set<int>, n: nat, ghost hit: seq<bool>, ghost drop: seq<bool>,
                    ghost table: seq<Event?>, ghost events: seq<Event>, ghost dropped: set<int>, ghost s': P.State)
    requires l.ValidLists() == true && l.ValidWatch() == true && n == |rfds|
    requires table == l.watchTable[..] && Hits(table, hit, drop, rfds) == true && dropped == FdsIn(table, drop)
    requires events == Marked(table, hit)
    requires l.watched !! l.timerList.nodes && l.watched !! l.pendingList.nodes
    requires ShowsPending(l.pendingList.items + events, s'.pending) == true
    requires ShowsTimers(l.timerList.items, l.keys, s'.waiting) == true && s'.watched == l.readFds - dropped
    modifies l`readFds, l`nfds, l`slotOf, l.watchTable, l.watched`index, l.pendingList`items, l.pendingList`nodes
    modifies (l.watched + l.pendingList.nodes)`next, (l.watched + l.pendingList.nodes)`prev
    ensures l.ValidLists() == true && l.ValidWatch() == true && Shows(l, s') == true
  {
    ghost var timers, items := l.timerList.items, l.pendingList.items + events;
    ServeReady(l, rfds, n, hit, drop, table, events, dropped);
    assert ShowsPending(items, s'.pending) == true;
    assert ShowsTimers(timers, l.keys, s'.waiting) == true;
  }

  /** The collection as a step. */
  lemma CollectStep(table: seq<Event?>, slotOf: map<int, nat>, hit: seq<bool>, drop: seq<bool>, s: P.State)
    returns (ready: seq<int>, s': P.State)
    requires Slots(table, slotOf) && s.pc.Swept? && Hits(table, hit, drop, s.pc.readable) && s.watched == slotOf.Keys
    requires forall i :: 0 <= i < |table| && table[i] != null && table[i].fd == s.wakeFd ==> table[i].persist
    ensures ready == FdsAt(table, MarkedSlots(hit))
    ensures s' == s.(pc := P.Firing, pending := s.pending + P.ReadyItems(ready),
                     watched := s.watched - FdsIn(table, drop))
    ensures P.Next(s, P.CollectReady(ready, FdsIn(table, drop)), s')
  {
    ready := FdsAt(table, MarkedSlots(hit));
    ReadyOnce(table, slotOf, hit, drop, s.pc.readable);
    s' := s.(pc := P.Firing, pending := s.pending + P.ReadyItems(ready),
             watched := s.watched - FdsIn(table, drop));
  }

  /** processReadReadies is the collection of the ready descriptors; the event of the pipe
      is persistent. */
  method ProcessReadReadies(l: Loop, rfds: set<int>, n: nat, ghost hit: seq<bool>, ghost drop: seq<bool>,
                            ghost s: P.State)
    returns (ghost ready: seq<int>, ghost dropped: set<int>, ghost s': P.State)
    requires l.ValidLists() == true && l.ValidWatch() && Shows(l, s) && s.pc.Swept? && rfds == s.pc.readable
    requires n == |rfds| && Hits(l.watchTable[..], hit, drop, rfds)
    requires l.watched !! l.timerList.nodes && l.watched !! l.pendingList.nodes
    requires forall ev :: ev in l.watchTable[..] && ev != null && ev.fd == s.wakeFd ==> ev.persist
    modifies l`readFds, l`nfds, l`slotOf, l.watchTable, l.watched`index, l.pendingList`items, l.pendingList`nodes
    modifies (l.watched + l.pendingList.nodes)`next, (l.watched + l.pendingList.nodes)`prev
    ensures l.ValidLists() == true && l.ValidWatch() == true && Shows(l, s') == true
    ensures P.Next(s, P.CollectReady(ready, dropped), s') == true
  {
    ghost var table := l.watchTable[..];
    dropped := FdsIn(table, drop);
    ready, s' := CollectStep(table, l.slotOf, hit, drop, s);
    ghost var events := MarkedEvents(table, hit);
    AppendShown(l.pendingList.items, s.pending, events, ready);
    ServeShown(l, rfds, n, hit, drop, table, events, dropped, s');
  }
}
