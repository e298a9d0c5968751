/** The event loop as a protocol between the loop thread and the threads that add timers
    and descriptors: the timer list, the watched descriptors, the wake-up pipe, and what
    select is told. The loop copies readFds and computes its sleep without listMutex, one
    read at a time; adders change the lists under the mutex and write the pipe afterwards. */
module WakeupProtocol {
  import opened TimerQueue

  /** What firePending finds: an expired timer, with the clock processTimeouts read, or a
      descriptor that select reported. */
  datatype Item = Expired(timer: Timer, readAt: int) | Ready(fd: int)

  /** What select is given: no bound, or a wait in microseconds. */
  datatype Wait = Forever | AtMost(micros: nat)

  datatype Head = NoTimer | First(deadline: int)

  datatype Pc =
    | Top                                // at the head of the loop
    | FdsCopied(fds: set<int>)           // readFds is copied
    | HeadRead(fds: set<int>, head: Head) // timer_list.next is read, the clock is not
    | Asleep(fds: set<int>, asOf: int, wait: Wait) // in select
    | Awake(readable: set<int>)          // select has returned these descriptors
    | Swept(readable: set<int>)          // after processTimeouts
    | Firing                             // in firePending, between two callbacks
    | InCallback                         // inside a callback
    | Draining                           // inside processWakeupCallback
    | Stopped                            // select failed: the daemon restarts

  datatype State = State(
    clock: int,
    nextId: nat,             // one identity per added timer
    wakeFd: int,             // the read end of the pipe
    waiting: seq<Timer>,     // timer_list
    watched: set<int>,       // readFds
    pending: seq<Item>,      // pending_list
    fired: seq<Item>,        // history of the callbacks that were run
    pipe: nat,               // unread bytes
    adders: set<nat>,        // threads between ril_timer_add or ril_event_add and the end of triggerEvLoop
    pc: Pc)

  datatype Step =
    | Tick(to: int)
    | AdderAdd(thread: nat, relative: int)
    | AdderWatch(thread: nat, fd: int, room: bool) // rilEventAddWakeup, if the table has room
    | AdderWrite(thread: nat)
    | Unwatch(fd: int)                   // ril_event_del, on any thread
    | CopyFds
    | ReadHead
    | ReadClock
    | SelectReturns(readable: set<int>)
    | SelectInterrupted
    | SelectFails
    | Sweep
    | CollectReady(ready: seq<int>, dropped: set<int>)
    | FireNext
    | LoopAdd(relative: int)
    | LoopWatch(fd: int, room: bool)
    | CallbackReturns
    | DrainSome(n: nat)
    | DrainEmpty
    | FiringDone

  const READ_SIZE: nat := 16

  /** ril_timer_add, under listMutex. */
  function AddTimer(s: State, relative: int): State {
    var t := Timer(s.nextId, s.clock + relative);
    s.(waiting := InsertAt(s.waiting, LeadingBelow(Deadlines(s.waiting), t.deadline), t),
       nextId := s.nextId + 1)
  }

  /** The timers strictly before the clock, as processTimeouts queues them. */
  function Moved(s: State): (items: seq<Item>)
    ensures |items| == LeadingBelow(Deadlines(s.waiting), s.clock)
    ensures forall i :: 0 <= i < |items| ==> items[i] == Expired(s.waiting[i], s.clock)
  {
    var k := LeadingBelow(Deadlines(s.waiting), s.clock);
    seq(k, i requires 0 <= i < k => Expired(s.waiting[i], s.clock))
  }

  /** processTimeouts, under listMutex. */
  function SweepTimers(s: State): State {
    s.(waiting := s.waiting[|Moved(s)|..], pending := s.pending + Moved(s))
  }

  /** ril_event_add, under listMutex. */
  function AddFd(s: State, fd: int, room: bool): State {
    if room then s.(watched := s.watched + {fd}) else s
  }

  function ReadyItems(fds: seq<int>): (items: seq<Item>)
    ensures |items| == |fds| && forall i :: 0 <= i < |fds| ==> items[i] == Ready(fds[i])
  {
    seq(|fds|, i requires 0 <= i < |fds| => Ready(fds[i]))
  }

  /** The ready descriptors that are still watched, each once. */
  predicate IsReady(ready: seq<int>, fds: set<int>) {
    && (forall i, j :: 0 <= i < j < |ready| ==> ready[i] != ready[j])
    && (forall f :: f in fds ==> f in ready) && (forall i :: 0 <= i < |ready| ==> ready[i] in fds)
  }

  /** select returns without waiting for another descriptor. */
  predicate SelectIsOver(s: State)
    requires s.pc.Asleep?
  {
    (s.pipe > 0 && s.wakeFd in s.pc.fds) || (s.pc.wait.AtMost? && s.clock >= s.pc.asOf + s.pc.wait.micros)
  }

  predicate Next(s: State, step: Step, s': State) {
    match step
    case Tick(to) => to >= s.clock && s' == s.(clock := to)
    case AdderAdd(thread, relative) =>
      thread !in s.adders && s' == AddTimer(s, relative).(adders := s.adders + {thread})
    case AdderWatch(thread, fd, room) =>
      thread !in s.adders && s' == AddFd(s, fd, room).(adders := s.adders + {thread})
    case AdderWrite(thread) =>
      thread in s.adders && s' == s.(pipe := s.pipe + 1, adders := s.adders - {thread})
    case Unwatch(fd) => fd != s.wakeFd && s' == s.(watched := s.watched - {fd})
    case CopyFds => s.pc.Top? && s' == s.(pc := FdsCopied(s.watched))
    case ReadHead =>
      s.pc.FdsCopied? &&
      s' == s.(pc := HeadRead(s.pc.fds, if s.waiting == [] then NoTimer else First(s.waiting[0].deadline)))
    case ReadClock =>
      s.pc.HeadRead? &&
      s' == s.(pc := Asleep(s.pc.fds, s.clock,
        match s.pc.head
        case NoTimer => Forever
        case First(d) => AtMost(if d > s.clock then d - s.clock else 0)))
    case SelectReturns(readable) =>
      s.pc.Asleep? && readable <= s.pc.fds && (readable != {} || SelectIsOver(s)) &&
      (s.wakeFd in readable <==> s.pipe > 0 && s.wakeFd in s.pc.fds) && s' == s.(pc := Awake(readable))
    case SelectInterrupted => s.pc.Asleep? && s' == s.(pc := Top)
    case SelectFails => s.pc.Asleep? && s' == s.(pc := Stopped)
    case Sweep => s.pc.Awake? && s' == SweepTimers(s).(pc := Swept(s.pc.readable))
    case CollectReady(ready, dropped) =>
      s.pc.Swept? && IsReady(ready, s.pc.readable * s.watched) && dropped <= s.pc.readable && s.wakeFd !in dropped &&
      s' == s.(pc := Firing, pending := s.pending + ReadyItems(ready), watched := s.watched - dropped)
    case FireNext =>
      s.pc.Firing? && s.pending != [] &&
      s' == s.(pending := s.pending[1..], fired := s.fired + [s.pending[0]],
               pc := if s.pending[0] == Ready(s.wakeFd) then Draining else InCallback)
    case LoopAdd(relative) => s.pc.InCallback? && s' == AddTimer(s, relative)
    case LoopWatch(fd, room) => s.pc.InCallback? && s' == AddFd(s, fd, room)
    case CallbackReturns => s.pc.InCallback? && s' == s.(pc := Firing)
    case DrainSome(n) =>
      s.pc.Draining? && 0 < n <= READ_SIZE && n <= s.pipe && s' == s.(pipe := s.pipe - n)
    case DrainEmpty => s.pc.Draining? && s.pipe == 0 && s' == s.(pc := Firing)
    case FiringDone => s.pc.Firing? && s.pending == [] && s' == s.(pc := Top)
  }

  predicate Init(s: State) {
    && s.nextId == 0 && s.waiting == [] && s.watched == {s.wakeFd} && s.pending == [] && s.fired == []
    && s.pipe == 0 && s.adders == {} && s.pc == Top
  }

  ghost predicate Steps(s: State, s': State) {
    exists step :: Next(s, step, s')
  }

  /** A run: any interleaving of steps from an initial state. */
  ghost predicate IsRun(run: seq<State>) {
    && run != [] && Init(run[0])
    && forall i :: 0 <= i < |run| - 1 ==> Steps(run[i], run[i + 1])
  }

  // ---------------------------------------------------------------- lost wake-ups

  /** No timer expires before the sleep ends. A wait of 0 is no sleep. */
  predicate SleepIsShort(ts: seq<Timer>, asOf: int, wait: Wait) {
    match wait
    case Forever => ts == []
    case AtMost(w) => w == 0 || NoneBefore(ts, asOf + w)
  }

  /** A byte is in the pipe, or will be: the loop will not stay in select. */
  predicate Alarmed(s: State) {
    s.pipe > 0 || s.adders != {}
  }

  /** Every waiting timer respects the bound the loop sleeps with, or is about to sleep
      with, unless the loop is alarmed. */
  predicate TimersCovered(s: State) {
    match s.pc
    case HeadRead(_, head) =>
      Alarmed(s) || (if head.First? then NoneBefore(s.waiting, head.deadline) else s.waiting == [])
    case Asleep(_, asOf, wait) => asOf <= s.clock && (Alarmed(s) || SleepIsShort(s.waiting, asOf, wait))
    case _ => true
  }

  /** Every watched descriptor is in the copy that select is given, unless the loop is
      alarmed; the pipe always is. */
  predicate FdsCovered(s: State) {
    && s.wakeFd in s.watched
    && match s.pc
       case FdsCopied(fds) => s.wakeFd in fds && (Alarmed(s) || s.watched <= fds)
       case HeadRead(fds, _) => s.wakeFd in fds && (Alarmed(s) || s.watched <= fds)
       case Asleep(fds, _, _) => s.wakeFd in fds && (Alarmed(s) || s.watched <= fds)
       case _ => true
  }

  // ---------------------------------------------------------------- timer accounting

  /** How often the timer `id` occurs. */
  function Occ(ts: seq<Timer>, id: nat): (n: nat)
    ensures n > 0 <==> exists i :: 0 <= i < |ts| && ts[i].id == id
  {
    if ts == [] then 0 else (if ts[0].id == id then 1 else 0) + Occ(ts[1..], id)
  }

  /** The expired timers among some items, in order. */
  function Timers(items: seq<Item>): seq<Timer> {
    if items == [] then []
    else (if items[0].Expired? then [items[0].timer] else []) + Timers(items[1..])
  }

  function Places(s: State, id: nat): nat {
    Occ(s.waiting, id) + Occ(Timers(s.pending), id) + Occ(Timers(s.fired), id)
  }

  /** Every timer ever added is in exactly one place, and the three places hold no other. */
  ghost predicate Accounted(s: State) {
    && |s.waiting| + |Timers(s.pending)| + |Timers(s.fired)| == s.nextId
    && forall id: nat :: Places(s, id) == if id < s.nextId then 1 else 0
  }

  /** Nothing expires before its deadline is strictly past. */
  predicate Overdue(items: seq<Item>, clock: int) {
    forall i :: 0 <= i < |items| && items[i].Expired? ==>
      items[i].timer.deadline < items[i].readAt <= clock
  }

  ghost predicate Inv(s: State) {
    && Sorted(Deadlines(s.waiting)) && Accounted(s)
    && Overdue(s.pending, s.clock) && Overdue(s.fired, s.clock)
    && TimersCovered(s) && FdsCovered(s)
  }

  lemma {:induction false} OccConcat(a: seq<Timer>, b: seq<Timer>, id: nat)
    ensures Occ(a + b, id) == Occ(a, id) + Occ(b, id)
  {
    if a == [] {
      assert a + b == b;
    } else {
      assert (a + b)[1..] == a[1..] + b;
      OccConcat(a[1..], b, id);
    }
  }

  lemma {:induction false} TimersConcat(a: seq<Item>, b: seq<Item>)
    ensures Timers(a + b) == Timers(a) + Timers(b)
  {
    if a == [] {
      assert a + b == b;
    } else {
      assert (a + b)[0] == a[0] && (a + b)[1..] == a[1..] + b;
      TimersConcat(a[1..], b);
    }
  }

  lemma OccInserted(ts: seq<Timer>, k: nat, t: Timer, id: nat)
    requires k <= |ts|
    ensures Occ(InsertAt(ts, k, t), id) == Occ(ts, id) + if t.id == id then 1 else 0
  {
    assert ts == ts[..k] + ts[k..];
    OccConcat(ts[..k], ts[k..], id);
    OccConcat(ts[..k] + [t], ts[k..], id);
    OccConcat(ts[..k], [t], id);
  }

  lemma AddKeepsOrder(s: State, relative: int)
    requires Sorted(Deadlines(s.waiting))
    ensures Sorted(Deadlines(AddTimer(s, relative).waiting))
  {
    var t := Timer(s.nextId, s.clock + relative);
    var k := LeadingBelow(Deadlines(s.waiting), t.deadline);
    InsertKeepsSorted(Deadlines(s.waiting), t.deadline);
    assert Deadlines(InsertAt(s.waiting, k, t)) == InsertAt(Deadlines(s.waiting), k, t.deadline);
  }

  lemma {:induction false} TimersOfMoved(items: seq<Item>, ts: seq<Timer>)
    requires |items| == |ts|
    requires forall i :: 0 <= i < |items| ==> items[i].Expired? && items[i].timer == ts[i]
    ensures Timers(items) == ts
  {
    if ts != [] {
      TimersOfMoved(items[1..], ts[1..]);
    }
  }

  lemma {:induction false} TimersOfReady(fds: seq<int>)
    ensures Timers(ReadyItems(fds)) == []
  {
    if fds != [] {
      assert ReadyItems(fds)[1..] == ReadyItems(fds[1..]);
      TimersOfReady(fds[1..]);
    }
  }

  /** Moving a prefix of the waiting timers to the pending list loses and adds none. */
  lemma MovePlaces(waiting: seq<Timer>, k: nat, pending: seq<Item>, items: seq<Item>, id: nat)
    requires k <= |waiting| && Timers(items) == waiting[..k]
    ensures Occ(waiting[k..], id) + Occ(Timers(pending + items), id)
         == Occ(waiting, id) + Occ(Timers(pending), id)
    ensures |Timers(pending + items)| == |Timers(pending)| + k
  {
    TimersConcat(pending, items);
    OccConcat(Timers(pending), waiting[..k], id);
    OccConcat(waiting[..k], waiting[k..], id);
    assert waiting == waiting[..k] + waiting[k..];
  }

  lemma FireKeepsPlaces(pending: seq<Item>, fired: seq<Item>, id: nat)
    requires pending != []
    ensures Occ(Timers(pending[1..]), id) + Occ(Timers(fired + [pending[0]]), id)
         == Occ(Timers(pending), id) + Occ(Timers(fired), id)
    ensures |Timers(pending[1..])| + |Timers(fired + [pending[0]])| == |Timers(pending)| + |Timers(fired)|
  {
    var first := [pending[0]];
    assert pending == first + pending[1..];
    TimersConcat(first, pending[1..]);
    TimersConcat(fired, first);
    OccConcat(Timers(first), Timers(pending[1..]), id);
    OccConcat(Timers(fired), Timers(first), id);
  }

  lemma AddKeepsPlaces(s: State, relative: int, id: nat)
    ensures Places(AddTimer(s, relative), id) == Places(s, id) + if id == s.nextId then 1 else 0
  {
    var t := Timer(s.nextId, s.clock + relative);
    OccInserted(s.waiting, LeadingBelow(Deadlines(s.waiting), t.deadline), t, id);
  }

  ghost predicate Adds(step: Step) {
    step.AdderAdd? || step.LoopAdd?
  }

  lemma NextKeepsPlaces(s: State, step: Step, s': State, id: nat)
    requires Next(s, step, s')
    ensures Places(s', id) == Places(s, id) + if Adds(step) && id == s.nextId then 1 else 0
    ensures |s'.waiting| + |Timers(s'.pending)| + |Timers(s'.fired)| - s'.nextId
         == |s.waiting| + |Timers(s.pending)| + |Timers(s.fired)| - s.nextId
  {
    match step
    case Sweep =>
      TimersOfMoved(Moved(s), s.waiting[..|Moved(s)|]);
      MovePlaces(s.waiting, |Moved(s)|, s.pending, Moved(s), id);
    case FireNext => FireKeepsPlaces(s.pending, s.fired, id);
    case CollectReady(ready, _) =>
      TimersConcat(s.pending, ReadyItems(ready));
      TimersOfReady(ready);
      assert Timers(s.pending) + [] == Timers(s.pending);
    case AdderAdd(_, relative) => AddKeepsPlaces(s, relative, id);
    case LoopAdd(relative) => AddKeepsPlaces(s, relative, id);
    case _ =>
  }

  lemma NextKeepsAccounted(s: State, step: Step, s': State)
    requires Accounted(s) && Next(s, step, s')
    ensures Accounted(s')
  {
    forall id: nat
      ensures Places(s', id) == if id < s'.nextId then 1 else 0
    {
      NextKeepsPlaces(s, step, s', id);
    }
    NextKeepsPlaces(s, step, s', 0);
  }

  lemma NextKeepsOrder(s: State, step: Step, s': State)
    requires Sorted(Deadlines(s.waiting)) && Next(s, step, s')
    ensures Sorted(Deadlines(s'.waiting))
  {
    match step
    case AdderAdd(_, relative) => AddKeepsOrder(s, relative);
    case LoopAdd(relative) => AddKeepsOrder(s, relative);
    case _ =>
  }

  lemma HeadIsFirst(ts: seq<Timer>)
    requires Sorted(Deadlines(ts)) && ts != []
    ensures NoneBefore(ts, ts[0].deadline)
  {
    forall i | 0 <= i < |ts| ensures ts[i].deadline >= ts[0].deadline {
      assert Deadlines(ts)[0] <= Deadlines(ts)[i];
    }
  }

  lemma NextKeepsTimersCovered(s: State, step: Step, s': State)
    requires Sorted(Deadlines(s.waiting)) && TimersCovered(s) && Next(s, step, s')
    ensures TimersCovered(s')
  {
    match step
    case AdderAdd(thread, _) => assert thread in s'.adders;
    case ReadHead => if s.waiting != [] { HeadIsFirst(s.waiting); }
    case _ =>
  }

  lemma NextKeepsFdsCovered(s: State, step: Step, s': State)
    requires FdsCovered(s) && Next(s, step, s')
    ensures FdsCovered(s')
  {
    if step.AdderWatch? || step.AdderAdd? { assert step.thread in s'.adders; }
  }

  lemma NextKeepsOverdue(s: State, step: Step, s': State)
    requires Overdue(s.pending, s.clock) && Overdue(s.fired, s.clock) && Next(s, step, s')
    ensures Overdue(s'.pending, s'.clock) && Overdue(s'.fired, s'.clock)
  {
  }

  lemma NextKeepsInv(s: State, step: Step, s': State)
    requires Inv(s) && Next(s, step, s')
    ensures Inv(s')
  {
    NextKeepsAccounted(s, step, s');
    NextKeepsOrder(s, step, s');
    NextKeepsTimersCovered(s, step, s');
    NextKeepsFdsCovered(s, step, s');
    NextKeepsOverdue(s, step, s');
  }

  lemma {:induction false} RunKeepsInv(run: seq<State>, i: nat)
    requires IsRun(run) && i < |run|
    ensures Inv(run[i])
  {
    if i > 0 {
      RunKeepsInv(run, i - 1);
      assert 0 <= i - 1 < |run| - 1;
      var step :| Next(run[i - 1], step, run[i]);
      NextKeepsInv(run[i - 1], step, run[i]);
    }
  }

  // ---------------------------------------------------------------- main results

  /** No timer is due before the end of the sleep: the clock reading the wait was computed
      from, plus the wait. */
  predicate SleepsInTime(s: State)
    requires s.pc.Asleep?
  {
    forall j :: 0 <= j < |s.waiting| ==> s.pc.wait.AtMost? && s.waiting[j].deadline >= s.pc.asOf + s.pc.wait.micros
  }

  /** No lost wake-up: whenever the loop is in select, the pipe holds an unread byte, or an
      adder has yet to write one, or no timer is due before the sleep ends; the last iff the
      first timer was not due before the clock reading, which is what calcNextTimeout tests.
      A wait that is not 0 always qualifies. */
  lemma NoLostWakeup(run: seq<State>, i: nat)
    requires IsRun(run) && i < |run| && run[i].pc.Asleep? && !Alarmed(run[i])
    ensures var s := run[i];
            && (SleepsInTime(s) <==> s.waiting == [] || s.waiting[0].deadline >= s.pc.asOf)
            && (s.pc.wait != AtMost(0) ==> SleepsInTime(s))
  {
    RunKeepsInv(run, i);
    if run[i].waiting != [] {
      HeadIsFirst(run[i].waiting);
    }
  }

  /** The same for descriptors: unless a byte is in the pipe or an adder has yet to write
      one, select watches every descriptor that is watched, although readFds was copied
      without the mutex; and it always watches the pipe. */
  lemma NoLostDescriptor(run: seq<State>, i: nat)
    requires IsRun(run) && i < |run| && run[i].pc.Asleep?
    ensures run[i].wakeFd in run[i].pc.fds
    ensures Alarmed(run[i]) || run[i].watched <= run[i].pc.fds
  {
    RunKeepsInv(run, i);
  }

  /** A loop that select is still entitled to block has no overdue timer, once every adder
      has written its byte. */
  lemma NeverOversleeps(run: seq<State>, i: nat)
    requires IsRun(run) && i < |run| && run[i].pc.Asleep?
    requires !SelectIsOver(run[i]) && run[i].adders == {}
    ensures forall j :: 0 <= j < |run[i].waiting| ==> run[i].clock <= run[i].waiting[j].deadline
  {
    RunKeepsInv(run, i);
  }

  lemma {:induction false} TwiceIsTwo(ts: seq<Timer>, i: nat, j: nat)
    requires i < j < |ts| && ts[i].id == ts[j].id
    ensures Occ(ts, ts[i].id) >= 2
  {
    if i == 0 {
      assert ts[1..][j - 1].id == ts[0].id;
    } else {
      TwiceIsTwo(ts[1..], i - 1, j - 1);
    }
  }

  /** Over a whole run every timer is waiting, pending or fired, in one place and once:
      added = waiting + pending + fired, and no timer is fired twice or fired and kept. */
  lemma EachTimerOnce(run: seq<State>, i: nat)
    requires IsRun(run) && i < |run|
    ensures var s := run[i];
            && s.nextId == |s.waiting| + |Timers(s.pending)| + |Timers(s.fired)|
            && (forall j, k :: 0 <= j < k < |Timers(s.fired)| ==> Timers(s.fired)[j].id != Timers(s.fired)[k].id)
            && (forall j, k :: 0 <= j < |Timers(s.fired)| && 0 <= k < |s.waiting| ==>
                  Timers(s.fired)[j].id != s.waiting[k].id)
            && (forall id: nat :: id < s.nextId <==> Places(s, id) > 0)
  {
    RunKeepsInv(run, i);
    var s := run[i];
    var ts := Timers(s.fired);
    forall j, k | 0 <= j < k < |ts|
      ensures ts[j].id != ts[k].id
    {
      assert Places(s, ts[j].id) <= 1;
      if ts[j].id == ts[k].id {
        TwiceIsTwo(ts, j, k);
      }
    }
    forall j, k | 0 <= j < |ts| && 0 <= k < |s.waiting|
      ensures ts[j].id != s.waiting[k].id
    {
      assert Places(s, ts[j].id) <= 1;
    }
  }

  /** A callback only runs for a timer whose deadline was strictly past when
      processTimeouts read the clock. */
  lemma FiredOnlyWhenPast(run: seq<State>, i: nat, j: nat)
    requires IsRun(run) && i < |run| && j < |run[i].fired| && run[i].fired[j].Expired?
    ensures run[i].fired[j].timer.deadline < run[i].fired[j].readAt <= run[i].clock
  {
    RunKeepsInv(run, i);
  }

  predicate InFiring(s: State) {
    s.pc.Firing? || s.pc.InCallback? || s.pc.Draining?
  }

  /** Fired plus pending stays the same, and pending only shrinks. */
  predicate Serves(s: State, s': State) {
    s'.fired + s'.pending == s.fired + s.pending && |s'.pending| <= |s.pending|
  }

  lemma FiringStep(s: State, step: Step, s': State)
    requires InFiring(s) && InFiring(s') && Next(s, step, s')
    ensures Serves(s, s')
  {
    if step.FireNext? {
      assert s.pending == [s.pending[0]] + s.pending[1..];
      assert s.fired + s.pending == s.fired + [s.pending[0]] + s.pending[1..];
    } else {
      assert s'.fired == s.fired && s'.pending == s.pending;
    }
  }

  lemma FiringStepAt(run: seq<State>, j: nat)
    requires IsRun(run) && j + 1 < |run| && InFiring(run[j]) && InFiring(run[j + 1])
    ensures Serves(run[j], run[j + 1])
  {
    assert Steps(run[j], run[j + 1]);
    var step :| Next(run[j], step, run[j + 1]);
    FiringStep(run[j], step, run[j + 1]);
  }

  predicate ServesAt(run: seq<State>, k: nat) {
    k + 1 < |run| && Serves(run[k], run[k + 1])
  }

  lemma {:induction false} ServesChain(run: seq<State>, i: nat, j: nat)
    requires i <= j < |run| && forall k :: i <= k < j ==> ServesAt(run, k)
    ensures Serves(run[i], run[j])
    decreases j - i
  {
    if i < j {
      ServesChain(run, i, j - 1);
      assert ServesAt(run, j - 1);
    }
  }

  /** firePending serves exactly the events that were pending when it started, in order,
      however many timers the callbacks and the other threads add meanwhile. */
  lemma FiringServesTheSnapshot(run: seq<State>, i: nat, j: nat)
    requires IsRun(run) && i <= j < |run|
    requires forall k {:trigger InFiring(run[k])} :: i <= k <= j ==> InFiring(run[k])
    ensures Serves(run[i], run[j])
    ensures run[j].pending == [] ==> run[j].fired == run[i].fired + run[i].pending
  {
    forall k | i <= k < j ensures ServesAt(run, k) {
      assert InFiring(run[k]) && InFiring(run[k + 1]);
      FiringStepAt(run, k);
    }
    ServesChain(run, i, j);
  }

  // ---------------------------------------------------------------- what the steps achieve

  /** A timer that is added waits with its deadline, behind every earlier deadline; the
      others stay. */
  lemma AddedTimerWaits(run: seq<State>, i: nat, thread: nat, relative: int, s': State)
    requires IsRun(run) && i < |run|
    requires Next(run[i], AdderAdd(thread, relative), s') || Next(run[i], LoopAdd(relative), s')
    ensures var s, t := run[i], Timer(run[i].nextId, run[i].clock + relative);
            exists k :: 0 <= k <= |s.waiting| && s'.waiting == s.waiting[..k] + [t] + s.waiting[k..]
              && (forall j :: 0 <= j < |s.waiting| ==> (j < k <==> s.waiting[j].deadline < t.deadline))
  {
    RunKeepsInv(run, i);
    var s := run[i];
    var d := s.clock + relative;
    var k := LeadingBelow(Deadlines(s.waiting), d);
    InsertKeepsSorted(Deadlines(s.waiting), d);
    assert s'.waiting == s.waiting[..k] + [Timer(s.nextId, d)] + s.waiting[k..];
    forall j | 0 <= j < |s.waiting| ensures j < k <==> s.waiting[j].deadline < d {
      assert Deadlines(s.waiting)[j] == s.waiting[j].deadline;
    }
  }

  /** The sweep makes exactly the timers pending whose deadline is strictly past. */
  lemma SweepTakesTheExpired(run: seq<State>, i: nat, s': State, j: nat)
    requires IsRun(run) && i < |run| && Next(run[i], Sweep, s') && j < |run[i].waiting|
    ensures var s, t := run[i], run[i].waiting[j];
            if t.deadline < s.clock then Expired(t, s.clock) in s'.pending && t !in s'.waiting
            else t in s'.waiting && s'.pending[|s.pending|..] == Moved(s) && Expired(t, s.clock) !in Moved(s)
  {
    RunKeepsInv(run, i);
    var s := run[i];
    var k := |Moved(s)|;
    forall n | 0 <= n < |s.waiting| ensures n < k <==> s.waiting[n].deadline < s.clock {
      SweepIsExact(Deadlines(s.waiting), s.clock, n);
    }
    if j < k {
      assert s'.pending[|s.pending| + j] == Expired(s.waiting[j], s.clock);
      assert forall n :: 0 <= n < |s'.waiting| ==> s'.waiting[n] == s.waiting[k + n];
    } else {
      assert s'.waiting[j - k] == s.waiting[j];
    }
  }

  /** A byte in the pipe ends the sleep: select can return, with the pipe among the
      descriptors. */
  lemma AlarmEndsTheSleep(run: seq<State>, i: nat) returns (s': State)
    requires IsRun(run) && i < |run| && run[i].pc.Asleep? && run[i].pipe > 0
    ensures Next(run[i], SelectReturns({run[i].wakeFd}), s')
    ensures s'.pc.Awake? && run[i].wakeFd in s'.pc.readable
  {
    RunKeepsInv(run, i);
    s' := run[i].(pc := Awake({run[i].wakeFd}));
  }

  /** The wake-up callback ends with an empty pipe, and an adder never ends without a byte. */
  lemma PipeIsDrained(s: State, step: Step, s': State)
    requires Next(s, step, s')
    ensures s.pc.Draining? && !s'.pc.Draining? ==> s'.pipe == 0
    ensures forall t :: t in s.adders && t !in s'.adders ==> s'.pipe == s.pipe + 1
  {
  }

  lemma {:induction false} Listing(fds: set<int>) returns (ready: seq<int>)
    ensures IsReady(ready, fds)
    decreases |fds|
  {
    ready := [];
    if exists f :: f in fds {
      var f :| f in fds;
      var rest := Listing(fds - {f});
      ready := [f] + rest;
      assert forall g :: g in fds ==> g == f || g in rest;
    }
  }

  /** Outside select the loop can always go on, and in select once it is over. */
  lemma LoopGoesOn(run: seq<State>, i: nat) returns (step: Step, s': State)
    requires IsRun(run) && i < |run| && !run[i].pc.Stopped? && (run[i].pc.Asleep? ==> SelectIsOver(run[i]))
    ensures Next(run[i], step, s') && (s'.pc != run[i].pc || s'.pipe < run[i].pipe)
  {
    RunKeepsInv(run, i);
    var s := run[i];
    match s.pc
    case Top => step, s' := CopyFds, s.(pc := FdsCopied(s.watched));
    case FdsCopied(fds) =>
      step := ReadHead;
      s' := s.(pc := HeadRead(fds, if s.waiting == [] then NoTimer else First(s.waiting[0].deadline)));
    case HeadRead(fds, head) =>
      step := ReadClock;
      s' := s.(pc := Asleep(fds, s.clock, match head
                                          case NoTimer => Forever
                                          case First(d) => AtMost(if d > s.clock then d - s.clock else 0)));
    case Asleep(_, _, _) =>
      var readable := if s.pipe > 0 then {s.wakeFd} else {};
      step, s' := SelectReturns(readable), s.(pc := Awake(readable));
    case Awake(readable) => step, s' := Sweep, SweepTimers(s).(pc := Swept(readable));
    case Swept(readable) =>
      var ready := Listing(readable * s.watched);
      step := CollectReady(ready, {});
      s' := s.(pc := Firing, pending := s.pending + ReadyItems(ready), watched := s.watched - {});
    case Firing =>
      if s.pending == [] {
        step, s' := FiringDone, s.(pc := Top);
      } else {
        step := FireNext;
        s' := s.(pending := s.pending[1..], fired := s.fired + [s.pending[0]],
                 pc := if s.pending[0] == Ready(s.wakeFd) then Draining else InCallback);
      }
    case InCallback => step, s' := CallbackReturns, s.(pc := Firing);
    case Draining =>
      if s.pipe == 0 {
        step, s' := DrainEmpty, s.(pc := Firing);
      } else {
        step, s' := DrainSome(1), s.(pipe := s.pipe - 1);
      }
  }

  // ---------------------------------------------------------------- an expired head

  lemma Extended(run: seq<State>, step: Step, s': State) returns (longer: seq<State>)
    requires IsRun(run) && Next(run[|run| - 1], step, s')
    ensures IsRun(longer) && longer[|longer| - 1] == s'
  {
    longer := run + [s'];
    assert Steps(run[|run| - 1], s');
  }

  /** A timer is added from another thread, and the byte in the pipe ends the sleep. */
  lemma OneAdder() returns (run: seq<State>)
    ensures IsRun(run)
    ensures run[|run| - 1] == State(0, 1, 3, [Timer(0, 10)], {3}, [], [], 1, {}, Awake({3}))
  {
    var s0 := State(0, 0, 3, [], {3}, [], [], 0, {}, Top);
    var s1 := s0.(waiting := [Timer(0, 10)], nextId := 1, adders := {0});
    var s2 := s1.(adders := {}, pipe := 1);
    assert Next(s0, AdderAdd(0, 10), s1) by { assert Deadlines([]) == []; }
    run := Extended([s0], AdderAdd(0, 10), s1);
    run := Extended(run, AdderWrite(0), s2);
    run := Extended(run, CopyFds, s2.(pc := FdsCopied({3})));
    run := Extended(run, ReadHead, s2.(pc := HeadRead({3}, First(10))));
    run := Extended(run, ReadClock, s2.(pc := Asleep({3}, 0, AtMost(10))));
    run := Extended(run, SelectReturns({3}), s2.(pc := Awake({3})));
  }

  lemma NothingIsDue(s: State)
    requires s.waiting == [Timer(0, 10)] && s.clock == 0
    ensures SweepTimers(s) == s
  {
    assert Deadlines(s.waiting)[0] == 10;
    assert Moved(s) == [];
  }

  /** The loop has taken notice of the byte. */
  lemma PipeIsReady() returns (run: seq<State>)
    ensures IsRun(run)
    ensures run[|run| - 1] == State(0, 1, 3, [Timer(0, 10)], {3}, [Ready(3)], [], 1, {}, Firing)
  {
    run := OneAdder();
    var s := run[|run| - 1];
    NothingIsDue(s);
    run := Extended(run, Sweep, s.(pc := Swept({3})));
    assert s.watched - {} == s.watched && {3} * {3} == {3};
    run := Extended(run, CollectReady([3], {}), s.(pending := [Ready(3)], pc := Firing));
  }

  /** The pipe is empty again. */
  lemma OneTimer() returns (run: seq<State>)
    ensures IsRun(run)
    ensures run[|run| - 1] == State(0, 1, 3, [Timer(0, 10)], {3}, [], [Ready(3)], 0, {}, Firing)
  {
    run := PipeIsReady();
    var s := run[|run| - 1];
    run := Extended(run, FireNext, s.(pending := [], fired := [Ready(3)], pc := Draining));
    run := Extended(run, DrainSome(1), s.(pending := [], fired := [Ready(3)], pipe := 0, pc := Draining));
    run := Extended(run, DrainEmpty, s.(pending := [], fired := [Ready(3)], pipe := 0, pc := Firing));
  }

  /** The condition can fail: with an expired head the loop passes a wait of 0 to select,
      and then a timer is due before the reading plus the wait, although the pipe is empty
      and nobody is adding. No time is lost, because such a select returns at once. */
  lemma ExpiredHeadIsTheException() returns (run: seq<State>)
    ensures IsRun(run)
    ensures var s := run[|run| - 1];
            && s.pc == Asleep({3}, 20, AtMost(0)) && !Alarmed(s)
            && s.waiting == [Timer(0, 10)] && !SleepsInTime(s) && SelectIsOver(s)
  {
    run := OneTimer();
    var s := run[|run| - 1];
    run := Extended(run, FiringDone, s.(pc := Top));
    run := Extended(run, Tick(20), s.(clock := 20, pc := Top));
    run := Extended(run, CopyFds, s.(clock := 20, pc := FdsCopied({3})));
    run := Extended(run, ReadHead, s.(clock := 20, pc := HeadRead({3}, First(10))));
    run := Extended(run, ReadClock, s.(clock := 20, pc := Asleep({3}, 20, AtMost(0))));
    assert run[|run| - 1].waiting[0].deadline < 20;
  }
}
