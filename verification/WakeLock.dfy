/** The counted partial wake lock of ril.cpp and the timers that release it. The timer
    callback is not atomic in the source: it reads its cancel flag, then takes the mutex,
    then clears s_last_wake_timeout_info, and the other threads run in between. */
module WakeLock {
  import opened TimerQueue
  import opened Wrappers

  /** ANDROID_WAKE_LOCK_SECS and ANDROID_WAKE_LOCK_USECS together. */
  const TIMEOUT_USEC: int := 200000

  datatype Pc =
    | Idle
    | Firing(reading: int)                        // firePending, after a sweep at `reading`
    | InCallback(reading: int, id: nat, cancelled: bool) // the cancel flag is read
    | Applied(reading: int, id: nat)              // the lock is updated, the info not freed

  datatype State = State(
    counted: bool,          // version >= 13
    clock: int,
    nextId: nat,
    waiting: seq<Timer>,    // wake timers on timer_list
    pending: seq<Timer>,    // wake timers on pending_list
    cancelled: set<nat>,    // timers whose userParam is not NULL
    held: bool,
    count: nat,             // s_wakelock_count
    last: Option<nat>,      // s_last_wake_timeout_info
    grabbers: set<nat>,     // below 13: threads that hold the lock and have no timer yet
    lastGrab: int,          // history: the clock of the latest grab or schedule
    pc: Pc)

  datatype Step =
    | Tick(to: int)
    | Grab                      // grabPartialWakeLock, version >= 13, under the mutex
    | Release                   // releaseWakeLock
    | Acquire(thread: nat)      // grabPartialWakeLock, version < 13
    | Schedule(thread: nat)     // the end of send_unsolResponse, version < 13
    | Sweep                     // processTimeouts
    | FireStart | FireApply | FireClear
    | FiringDone

  function CancelLast(s: State): set<nat> {
    if s.last.Some? then s.cancelled + {s.last.value} else s.cancelled
  }

  /** internalRequestTimedCallback for wakeTimeoutCallback, and the new timer becomes the
      last one; the previous one is cancelled. */
  function NewTimer(s: State): State {
    var t := Timer(s.nextId, s.clock + TIMEOUT_USEC);
    s.(waiting := InsertAt(s.waiting, LeadingBelow(Deadlines(s.waiting), t.deadline), t),
       nextId := s.nextId + 1, cancelled := CancelLast(s), last := Some(t.id), lastGrab := s.clock)
  }

  predicate Next(s: State, step: Step, s': State) {
    match step
    case Tick(to) => to >= s.clock && s' == s.(clock := to)
    case Grab => s.counted && s' == NewTimer(s).(held := true, count := s.count + 1)
    case Release =>
      s' == if !s.counted then s.(held := false)
            else if s.count > 1 then s.(count := s.count - 1)
            else s.(count := 0, held := false, cancelled := CancelLast(s))
    case Acquire(thread) =>
      !s.counted && thread !in s.grabbers &&
      s' == s.(held := true, grabbers := s.grabbers + {thread}, lastGrab := s.clock)
    case Schedule(thread) =>
      !s.counted && thread in s.grabbers && s' == NewTimer(s).(grabbers := s.grabbers - {thread})
    case Sweep =>
      var k := LeadingBelow(Deadlines(s.waiting), s.clock);
      s.pc.Idle? &&
      s' == s.(waiting := s.waiting[k..], pending := s.pending + s.waiting[..k], pc := Firing(s.clock))
    case FireStart =>
      s.pc.Firing? && s.pending != [] &&
      s' == s.(pending := s.pending[1..],
               pc := InCallback(s.pc.reading, s.pending[0].id, s.pending[0].id in s.cancelled))
    case FireApply =>
      s.pc.InCallback? &&
      s' == (if s.pc.cancelled then s else s.(held := false, count := if s.counted then 0 else s.count))
              .(pc := Applied(s.pc.reading, s.pc.id))
    case FireClear =>
      s.pc.Applied? &&
      s' == s.(last := if s.last == Some(s.pc.id) then None else s.last, pc := Firing(s.pc.reading))
    case FiringDone => s.pc.Firing? && s.pending == [] && s' == s.(pc := Idle)
  }

  predicate Init(s: State) {
    && s.nextId == 0 && s.waiting == [] && s.pending == [] && s.cancelled == {}
    && !s.held && s.count == 0 && s.last == None && s.grabbers == {} && s.pc == Idle
    && s.lastGrab <= s.clock
  }

  ghost predicate Steps(s: State, s': State) {
    exists step :: Next(s, step, s')
  }

  ghost predicate IsRun(run: seq<State>) {
    && run != [] && Init(run[0])
    && forall i :: 0 <= i < |run| - 1 ==> Steps(run[i], run[i + 1])
  }

  /** All linked wake timers, in the order in which they will be fired. */
  function Linked(s: State): seq<Timer> {
    s.pending + s.waiting
  }

  predicate Has(ts: seq<Timer>, id: nat) {
    exists i :: 0 <= i < |ts| && ts[i].id == id
  }

  /** The timer can still release the lock: it is linked, or its callback has not yet
      updated the lock, and it is not cancelled. */
  predicate Armed(s: State, id: nat) {
    id !in s.cancelled && (Has(Linked(s), id) || (s.pc.InCallback? && s.pc.id == id))
  }

  // ---------------------------------------------------------------- what every step keeps

  predicate Distinct(ts: seq<Timer>, bound: nat) {
    && (forall i :: 0 <= i < |ts| ==> ts[i].id < bound)
    && (forall i, j :: 0 <= i < j < |ts| ==> ts[i].id != ts[j].id)
  }

  predicate Fresh(s: State) {
    && Distinct(Linked(s), s.nextId)
    && (s.pc.InCallback? || s.pc.Applied? ==> s.pc.id < s.nextId && !Has(Linked(s), s.pc.id))
    && (forall id :: id in s.cancelled ==> id < s.nextId)
    && (s.last.Some? ==> s.last.value < s.nextId)
  }

  /** s_last_wake_timeout_info is NULL or points to a timer that is not freed. */
  predicate LastIsLive(s: State) {
    s.last.Some? ==>
      || Has(Linked(s), s.last.value)
      || ((s.pc.InCallback? || s.pc.Applied?) && s.pc.id == s.last.value)
  }

  /** Only the last timer is ever armed, and a held lock has an armed timer or a thread
      that is about to arm one. */
  ghost predicate Guarded(s: State) {
    && (forall id: nat :: Armed(s, id) ==> s.last == Some(id))
    && (s.held ==> s.grabbers != {} || (s.last.Some? && Armed(s, s.last.value)))
    && (s.counted ==> s.grabbers == {} && (s.held <==> s.count > 0))
    && (s.pc.InCallback? && s.pc.cancelled ==> s.pc.id in s.cancelled)
  }

  predicate DueInTime(ts: seq<Timer>, last: Option<nat>, bound: int) {
    forall i :: 0 <= i < |ts| && last == Some(ts[i].id) ==> ts[i].deadline <= bound
  }

  /** The last timer is due one timeout after the latest grab, and while timers are being
      fired the waiting ones are not due. */
  predicate OnTime(s: State) {
    && Sorted(Deadlines(s.waiting)) && s.lastGrab <= s.clock
    && DueInTime(Linked(s), s.last, s.lastGrab + TIMEOUT_USEC)
    && (!s.pc.Idle? ==> s.pc.reading <= s.clock && NoneBefore(s.waiting, s.pc.reading))
  }

  ghost predicate Inv(s: State) {
    Fresh(s) && LastIsLive(s) && Guarded(s) && OnTime(s)
  }

  predicate AddsTimer(step: Step) {
    step.Grab? || step.Schedule?
  }

  lemma InsertHas(ts: seq<Timer>, k: nat, t: Timer, id: nat)
    requires k <= |ts|
    ensures Has(InsertAt(ts, k, t), id) <==> Has(ts, id) || id == t.id
  {
    var r := InsertAt(ts, k, t);
    if Has(ts, id) {
      var i :| 0 <= i < |ts| && ts[i].id == id;
      assert r[if i < k then i else i + 1] == ts[i];
    }
    assert r[k] == t;
  }

  lemma InsertDistinct(ts: seq<Timer>, k: nat, t: Timer)
    requires k <= |ts| && Distinct(ts, t.id)
    ensures Distinct(InsertAt(ts, k, t), t.id + 1)
  {
  }

  /** Where a new timer goes in the order of firing. */
  lemma NewTimerLinks(s: State) returns (k: nat)
    ensures k <= |Linked(s)|
    ensures Linked(NewTimer(s)) == InsertAt(Linked(s), k, Timer(s.nextId, s.clock + TIMEOUT_USEC))
  {
    var i := LeadingBelow(Deadlines(s.waiting), s.clock + TIMEOUT_USEC);
    k := |s.pending| + i;
    assert Linked(NewTimer(s)) == InsertAt(Linked(s), k, Timer(s.nextId, s.clock + TIMEOUT_USEC));
  }

  lemma SweepLinks(s: State, s': State)
    requires Next(s, Sweep, s')
    ensures Linked(s') == Linked(s)
  {
  }

  lemma FireStartHas(s: State, s': State, id: nat)
    requires Next(s, FireStart, s') && Fresh(s)
    ensures Linked(s') == Linked(s)[1..] && Linked(s)[0].id == s'.pc.id
    ensures Has(Linked(s), id) <==> Has(Linked(s'), id) || id == s'.pc.id
    ensures !Has(Linked(s'), s'.pc.id)
  {
    assert Linked(s') == Linked(s)[1..];
    assert Linked(s)[0] == s.pending[0];
    if Has(Linked(s), id) {
      var i :| 0 <= i < |Linked(s)| && Linked(s)[i].id == id;
      assert i > 0 ==> Linked(s')[i - 1].id == id;
    }
    if Has(Linked(s'), id) {
      var i :| 0 <= i < |Linked(s')| && Linked(s')[i].id == id;
      assert Linked(s)[i + 1].id == id;
    }
  }

  /** Who is linked after a step. */
  lemma NextHas(s: State, step: Step, s': State, id: nat)
    requires Next(s, step, s') && Fresh(s)
    ensures Has(Linked(s'), id) || (step.FireStart? && id == s'.pc.id)
      <==> Has(Linked(s), id) || (AddsTimer(step) && id == s.nextId)
  {
    match step
    case Sweep => SweepLinks(s, s');
    case FireStart => FireStartHas(s, s', id);
    case Grab =>
      var k := NewTimerLinks(s);
      InsertHas(Linked(s), k, Timer(s.nextId, s.clock + TIMEOUT_USEC), id);
    case Schedule(_) =>
      var k := NewTimerLinks(s);
      InsertHas(Linked(s), k, Timer(s.nextId, s.clock + TIMEOUT_USEC), id);
    case _ =>
  }

  lemma HasIsFresh(s: State, id: nat)
    requires Distinct(Linked(s), s.nextId) && Has(Linked(s), id)
    ensures id < s.nextId
  {
  }

  lemma NextKeepsFresh(s: State, step: Step, s': State)
    requires Next(s, step, s') && Fresh(s)
    ensures Fresh(s')
  {
    match step
    case Sweep => SweepLinks(s, s');
    case FireStart => FireStartHas(s, s', 0);
    case Grab =>
      var k := NewTimerLinks(s);
      InsertDistinct(Linked(s), k, Timer(s.nextId, s.clock + TIMEOUT_USEC));
      if !s.pc.Idle? && !s.pc.Firing? { NextHas(s, step, s', s.pc.id); }
    case Schedule(_) =>
      var k := NewTimerLinks(s);
      InsertDistinct(Linked(s), k, Timer(s.nextId, s.clock + TIMEOUT_USEC));
      if !s.pc.Idle? && !s.pc.Firing? { NextHas(s, step, s', s.pc.id); }
    case _ =>
  }

  lemma NextKeepsLive(s: State, step: Step, s': State)
    requires Next(s, step, s') && Fresh(s) && LastIsLive(s)
    ensures LastIsLive(s')
  {
    if s'.last.Some? {
      NextHas(s, step, s', s'.last.value);
    }
  }

  /** Who is armed after a step: a new timer, or one that was armed and is not cancelled. */
  lemma NextArms(s: State, step: Step, s': State, id: nat)
    requires Next(s, step, s') && Fresh(s)
    ensures Armed(s', id) <==>
      && id !in s'.cancelled
      && (Armed(s, id) || (AddsTimer(step) && id == s.nextId))
      && !(step.FireApply? && id == s.pc.id)
  {
    NextHas(s, step, s', id);
    assert s.cancelled <= s'.cancelled;
    assert s.nextId !in s'.cancelled;
    if Has(Linked(s), id) {
      HasIsFresh(s, id);
    }
  }

  lemma NextKeepsGuarded(s: State, step: Step, s': State)
    requires Next(s, step, s') && Fresh(s) && Guarded(s)
    ensures Guarded(s')
  {
    forall id: nat | Armed(s', id)
      ensures s'.last == Some(id)
    {
      NextArms(s, step, s', id);
    }
    if s'.last.Some? {
      NextArms(s, step, s', s'.last.value);
    }
    if s.last.Some? {
      NextArms(s, step, s', s.last.value);
    }
  }

  lemma AddKeepsSorted(s: State)
    requires Sorted(Deadlines(s.waiting))
    ensures Sorted(Deadlines(NewTimer(s).waiting))
  {
    var d := s.clock + TIMEOUT_USEC;
    var ds := Deadlines(s.waiting);
    InsertKeepsSorted(ds, d);
    assert Deadlines(NewTimer(s).waiting) == InsertAt(ds, LeadingBelow(ds, d), d);
  }

  lemma InsertNoneBefore(ts: seq<Timer>, k: nat, t: Timer, bound: int)
    requires k <= |ts| && NoneBefore(ts, bound) && t.deadline >= bound
    ensures NoneBefore(InsertAt(ts, k, t), bound)
  {
  }

  lemma InsertDueInTime(ts: seq<Timer>, k: nat, t: Timer, bound: int)
    requires k <= |ts| && t.deadline <= bound && forall i :: 0 <= i < |ts| ==> ts[i].id != t.id
    ensures DueInTime(InsertAt(ts, k, t), Some(t.id), bound)
  {
  }

  lemma AddOnTime(s: State)
    requires OnTime(s) && Fresh(s)
    ensures OnTime(NewTimer(s))
  {
    var t := Timer(s.nextId, s.clock + TIMEOUT_USEC);
    AddKeepsSorted(s);
    var k := NewTimerLinks(s);
    InsertDueInTime(Linked(s), k, t, s.clock + TIMEOUT_USEC);
    if !s.pc.Idle? {
      InsertNoneBefore(s.waiting, LeadingBelow(Deadlines(s.waiting), t.deadline), t, s.pc.reading);
    }
  }

  lemma SweepOnTime(s: State, s': State)
    requires Next(s, Sweep, s') && OnTime(s)
    ensures OnTime(s')
  {
    SweepLinks(s, s');
    var ds := Deadlines(s.waiting);
    var k := LeadingBelow(ds, s.clock);
    forall i | 0 <= i < |s'.waiting|
      ensures s'.waiting[i].deadline >= s.clock
    {
      SweepIsExact(ds, s.clock, k + i);
    }
  }

  lemma NextKeepsOnTime(s: State, step: Step, s': State)
    requires Next(s, step, s') && Fresh(s) && OnTime(s)
    ensures OnTime(s')
  {
    match step
    case Sweep => SweepOnTime(s, s');
    case Grab => AddOnTime(s);
    case Schedule(_) => AddOnTime(s);
    case FireStart => FireStartHas(s, s', 0);
    case _ =>
  }

  lemma NextKeepsInv(s: State, step: Step, s': State)
    requires Inv(s) && Next(s, step, s')
    ensures Inv(s')
  {
    NextKeepsFresh(s, step, s');
    NextKeepsLive(s, step, s');
    NextKeepsGuarded(s, step, s');
    NextKeepsOnTime(s, step, s');
  }

  lemma {:induction false} RunKeepsInv(run: seq<State>, i: nat)
    requires IsRun(run) && i < |run|
    ensures Inv(run[i])
  {
    if i > 0 {
      RunKeepsInv(run, i - 1);
      assert 0 <= i - 1 < |run| - 1;
      var step :| Next(run[i - 1], step, run[i]);
      NextKeepsInv(run[i - 1], step, run[i]);
    }
  }

  // ---------------------------------------------------------------- main results

  /** In every interleaving, for both versions: at most one timer is armed, and it is
      s_last_wake_timeout_info; a held lock has that timer, except below version 13 while
      some thread is between its grab and its timer; from version 13 on, held means
      count > 0; and s_last_wake_timeout_info never points to a freed timer. */
  lemma HeldHasItsTimer(run: seq<State>, i: nat)
    requires IsRun(run) && i < |run|
    ensures var s := run[i];
            && (forall id: nat :: Armed(s, id) ==> s.last == Some(id))
            && (s.held && (s.counted || s.grabbers == {}) ==> s.last.Some? && Armed(s, s.last.value))
            && (s.counted ==> (s.held <==> s.count > 0))
            && LastIsLive(s)
  {
    RunKeepsInv(run, i);
  }

  /** Bounded hold: once the timers due at a clock reading more than one timeout after the
      latest grab are fired, the lock is released and the count is zero. */
  lemma HoldIsBounded(run: seq<State>, i: nat)
    requires IsRun(run) && i < |run|
    requires run[i].pc.Firing? && run[i].pending == [] && run[i].grabbers == {}
    requires run[i].pc.reading > run[i].lastGrab + TIMEOUT_USEC
    ensures !run[i].held && (run[i].counted ==> run[i].count == 0)
  {
    RunKeepsInv(run, i);
    var s := run[i];
    assert Linked(s) == s.waiting;
  }

  /** A release takes one from the count, and the last one frees the lock and leaves no
      timer armed; below version 13 every release frees the lock. */
  lemma ReleaseReleases(run: seq<State>, i: nat, s': State)
    requires IsRun(run) && i < |run| && Next(run[i], Release, s')
    ensures var s := run[i];
            && (s'.held <==> s.counted && s.count > 1)
            && (s.counted ==> s'.count == if s.count > 1 then s.count - 1 else 0)
            && (s.counted && s.count <= 1 ==> forall id: nat :: !Armed(s', id))
            && (s.counted && s.count > 1 ==> forall id: nat :: Armed(s', id) <==> Armed(s, id))
            && s'.pending == s.pending && s'.waiting == s.waiting
  {
    RunKeepsInv(run, i);
    forall id: nat
      ensures Armed(s', id) <==> Armed(run[i], id) && (run[i].counted && run[i].count <= 1 ==> run[i].last != Some(id))
    {
      NextArms(run[i], Release, s', id);
    }
  }

  /** A grab holds the lock, counts, and leaves exactly one timer armed: a new one, due one
      timeout after the grab. */
  lemma GrabHolds(run: seq<State>, i: nat, s': State)
    requires IsRun(run) && i < |run| && Next(run[i], Grab, s')
    ensures s'.held && s'.count == run[i].count + 1
    ensures ArmsAnew(run[i], s')
  {
    RunKeepsInv(run, i);
    NewTimerIsArmed(run[i], Grab, s');
  }

  /** Below version 13 the grab holds the lock, and the timer comes with the response. */
  lemma AcquireHolds(run: seq<State>, i: nat, thread: nat, s': State)
    requires IsRun(run) && i < |run|
    ensures Next(run[i], Acquire(thread), s') ==> s'.held && thread in s'.grabbers
    ensures Next(run[i], Schedule(thread), s') ==>
              s'.held == run[i].held && thread !in s'.grabbers && ArmsAnew(run[i], s')
  {
    RunKeepsInv(run, i);
    if Next(run[i], Schedule(thread), s') {
      NewTimerIsArmed(run[i], Schedule(thread), s');
    }
  }

  /** The only armed timer is a new one, which is due 200000 us after the clock. */
  ghost predicate ArmsAnew(s: State, s': State) {
    && Timer(s.nextId, s.clock + 200000) in s'.waiting && s'.last == Some(s.nextId)
    && (forall id: nat :: Armed(s', id) <==> id == s.nextId)
  }

  lemma NewTimerIsArmed(s: State, step: Step, s': State)
    requires Inv(s) && Next(s, step, s') && AddsTimer(step)
    ensures ArmsAnew(s, s')
  {
    var t := Timer(s.nextId, s.clock + TIMEOUT_USEC);
    assert s'.waiting[LeadingBelow(Deadlines(s.waiting), t.deadline)] == t;
    NextKeepsInv(s, step, s');
    NextArms(s, step, s', s.nextId);
  }

  /** The callback of a wake timer releases the lock iff it read no cancel flag, and the
      flag it read is the one that was set when the event loop started it. */
  lemma CallbackReleasesUnlessCancelled(run: seq<State>, i: nat, s': State)
    requires IsRun(run) && i < |run|
    ensures Next(run[i], FireStart, s') ==>
              run[i].pending != [] && s'.pending == run[i].pending[1..] && s'.pc.InCallback?
              && s'.pc.id == run[i].pending[0].id && (s'.pc.cancelled <==> s'.pc.id in run[i].cancelled)
    ensures Next(run[i], FireApply, s') ==>
              if run[i].pc.cancelled then s'.held == run[i].held && s'.count == run[i].count
              else !s'.held && (run[i].counted ==> s'.count == 0)
    ensures Next(run[i], FireClear, s') ==>
              s'.last == if run[i].last == Some(run[i].pc.id) then None else run[i].last
  {
    RunKeepsInv(run, i);
  }

  /** From version 13 on: held, a positive count, and an armed last timer are one thing. */
  predicate Exact(s: State) {
    && (s.held <==> s.count > 0)
    && (s.held <==> s.last.Some? && Armed(s, s.last.value))
  }

  /** A callback that read an unset cancel flag, and was then overtaken by a new grab. */
  predicate Overtaken(s: State) {
    s.pc.InCallback? && !s.pc.cancelled && s.held && s.last != Some(s.pc.id)
  }

  /** Exactness survives every step but one: the callback of an overtaken timer. Then the
      new grab's lock is released under it. */
  lemma ExactUnlessOvertaken(s: State, step: Step, s': State)
    requires Inv(s) && s.counted && Exact(s) && Next(s, step, s')
    ensures Exact(s') <==> !(step.FireApply? && Overtaken(s))
  {
    NextKeepsInv(s, step, s');
    if s.last.Some? {
      NextArms(s, step, s', s.last.value);
    }
    if s'.last.Some? {
      NextArms(s, step, s', s'.last.value);
    }
  }

  /** No grab runs between a callback's read of its flag and its update of the lock. */
  predicate NoOvertaking(run: seq<State>) {
    forall i :: 0 <= i < |run| - 1 && run[i].pc.InCallback? ==> run[i + 1].nextId == run[i].nextId
  }

  ghost predicate UncancelledIsLast(s: State) {
    s.pc.InCallback? && !s.pc.cancelled && s.held ==> s.last == Some(s.pc.id)
  }

  lemma NextKeepsUncancelled(s: State, step: Step, s': State)
    requires Inv(s) && s.counted && Exact(s) && UncancelledIsLast(s) && Next(s, step, s')
    requires s.pc.InCallback? ==> s'.nextId == s.nextId
    ensures UncancelledIsLast(s')
  {
    if step.FireStart? {
      var id := s'.pc.id;
      FireStartHas(s, s', id);
      assert id !in s.cancelled ==> Armed(s, id);
    }
  }

  lemma {:induction false} RunKeepsExact(run: seq<State>, i: nat)
    requires IsRun(run) && NoOvertaking(run) && i < |run| && run[0].counted
    ensures Exact(run[i]) && UncancelledIsLast(run[i]) && run[i].counted
  {
    if i > 0 {
      var s, s' := run[i - 1], run[i];
      RunKeepsExact(run, i - 1);
      RunKeepsInv(run, i - 1);
      assert 0 <= i - 1 < |run| - 1 && run[i - 1 + 1] == s';
      var step :| Next(s, step, s');
      ExactUnlessOvertaken(s, step, s');
      NextKeepsUncancelled(s, step, s');
    }
  }

  /** Version 13 and later: in every state of a run without overtaking, the lock is held
      iff the count is positive iff exactly one un-cancelled timer exists, the last one. */
  lemma HeldIffCountIffTimer(run: seq<State>, i: nat)
    requires IsRun(run) && NoOvertaking(run) && i < |run| && run[0].counted
    ensures var s := run[i];
            && (s.held <==> s.count > 0)
            && (s.held <==> exists id: nat :: Armed(s, id))
            && (forall id: nat :: Armed(s, id) ==> s.last == Some(id))
  {
    RunKeepsExact(run, i);
    RunKeepsInv(run, i);
  }

  lemma Extended(run: seq<State>, step: Step, s': State) returns (longer: seq<State>)
    requires IsRun(run) && Next(run[|run| - 1], step, s')
    ensures IsRun(longer) && longer[0] == run[0] && longer[|longer| - 1] == s'
  {
    longer := run + [s'];
    assert Steps(run[|run| - 1], s');
  }

  /** A run that ends inside the callback of the only timer, which is not cancelled. */
  lemma FirstCallback() returns (run: seq<State>)
    ensures IsRun(run) && run[0].counted
    ensures run[|run| - 1] == State(true, 1 + TIMEOUT_USEC, 1, [], [], {}, true, 1, Some(0), {}, 0,
                                    InCallback(1 + TIMEOUT_USEC, 0, false))
  {
    var s0 := State(true, 0, 0, [], [], {}, false, 0, None, {}, 0, Idle);
    var first := Timer(0, TIMEOUT_USEC);
    var s1 := s0.(waiting := [first], nextId := 1, held := true, count := 1, last := Some(0));
    var s2 := s1.(clock := 1 + TIMEOUT_USEC);
    var s3 := s2.(waiting := [], pending := [first], pc := Firing(s2.clock));
    assert Next(s0, Grab, s1) by { assert Deadlines(s0.waiting) == []; }
    run := Extended([s0], Grab, s1);
    run := Extended(run, Tick(s2.clock), s2);
    assert Next(s2, Sweep, s3) by { assert Deadlines(s2.waiting) == [TIMEOUT_USEC]; }
    run := Extended(run, Sweep, s3);
    run := Extended(run, FireStart, s3.(pending := [], pc := InCallback(s2.clock, 0, false)));
  }

  /** The race is real: a run in which a grab falls between a callback's read of its flag
      and its update of the lock, and leaves an armed timer over a released lock. */
  lemma OvertakenGrabIsLost() returns (run: seq<State>)
    ensures IsRun(run) && run[0].counted
    ensures var s := run[|run| - 1];
            s.nextId == 2 && !s.held && s.count == 0 && s.last == Some(1) && Armed(s, 1)
  {
    run := FirstCallback();
    var s4 := run[|run| - 1];
    var s5 := NewTimer(s4).(held := true, count := 2);
    var s6 := s5.(held := false, count := 0, pc := Applied(s4.pc.reading, 0));
    run := Extended(run, Grab, s5);
    run := Extended(run, FireApply, s6);
    var k := NewTimerLinks(s4);
    assert Linked(s6) == Linked(NewTimer(s4));
    assert Linked(s6)[k].id == 1;
  }

  // ---------------------------------------------------------------- the code of the steps

  /** UserCallbackInfo: a user parameter that is not NULL cancels the wake timer. */
  class CallbackInfo {
    ghost const id: nat
    var userParam: bool

    constructor (ghost id: nat)
      ensures this.id == id && !userParam
    {
      this.id, userParam := id, false;
    }
  }

  /** The wake-lock globals of ril.cpp. Each method is one step of the machine above; `s`
      and `s'` are the machine's states before and after. */
  class Globals {
    const version: int
    var held: bool
    var count: nat
    var last: CallbackInfo?
    ghost var infos: seq<CallbackInfo>

    ghost predicate Shows(s: State)
      reads this, infos
    {
      && (s.counted <==> version >= 13) && held == s.held && count == s.count
      && |infos| == s.nextId
      && (forall i :: 0 <= i < |infos| ==> infos[i].id == i)
      && (forall i :: 0 <= i < |infos| ==> (infos[i].userParam <==> i in s.cancelled))
      && (last == null ==> s.last == None)
      && (last != null ==> last in infos && s.last == Some(last.id))
    }

    constructor (version: int)
      ensures this.version == version && infos == []
      ensures forall s :: Init(s) && (s.counted <==> version >= 13) ==> Shows(s)
    {
      this.version, held, count, last, infos := version, false, 0, null, [];
    }

    /** The request of a wake timer, and its becoming the last one. */
    method ReplaceLast(ghost s: State)
      requires Shows(s) && Fresh(s)
      modifies this`last, this`infos, infos
      ensures Shows(NewTimer(s))
      ensures last != null && fresh(last) && !last.userParam && infos == old(infos) + [last]
      ensures old(last) != null ==> old(last).userParam
    {
      var info := new CallbackInfo(|infos|);
      if last != null {
        last.userParam := true;
      }
      last := info;
      infos := infos + [info];
    }

    /** grabPartialWakeLock. */
    method GrabPartialWakeLock(ghost s: State, ghost thread: nat) returns (ghost s': State)
      requires Shows(s) && Fresh(s) && thread !in s.grabbers
      modifies this, infos
      ensures Shows(s') && Next(s, if version >= 13 then Grab else Acquire(thread), s')
      ensures held && count == if version >= 13 then old(count) + 1 else old(count)
      ensures version >= 13 ==> last != null && fresh(last) && !last.userParam
      ensures version >= 13 && old(last) != null ==> old(last).userParam
      ensures version < 13 ==> last == old(last)
    {
      if version >= 13 {
        ReplaceLast(s);
        held, count := true, count + 1;
        s' := NewTimer(s).(held := true, count := s.count + 1);
      } else {
        held := true;
        s' := s.(held := true, grabbers := s.grabbers + {thread}, lastGrab := s.clock);
      }
    }

    /** The end of send_unsolResponse, for a response that wakes the host. */
    method ScheduleTimeout(ghost s: State, ghost thread: nat) returns (ghost s': State)
      requires Shows(s) && Fresh(s) && version < 13 && thread in s.grabbers
      modifies this`last, this`infos, infos
      ensures Shows(s') && Next(s, Schedule(thread), s')
      ensures last != null && fresh(last) && !last.userParam
      ensures old(last) != null ==> old(last).userParam
    {
      ReplaceLast(s);
      s' := NewTimer(s).(grabbers := s.grabbers - {thread});
    }

    /** releaseWakeLock. */
    method ReleaseWakeLock(ghost s: State) returns (ghost s': State)
      requires Shows(s) && Fresh(s)
      modifies this`held, this`count, infos
      ensures Shows(s') && Next(s, Release, s')
      ensures held == (version >= 13 && old(count) > 1 && old(held))
      ensures count == if version < 13 then old(count) else if old(count) > 1 then old(count) - 1 else 0
      ensures version >= 13 && old(count) <= 1 && last != null ==> last.userParam
    {
      if version >= 13 {
        if count > 1 {
          count := count - 1;
          s' := s.(count := s.count - 1);
        } else {
          count, held := 0, false;
          if last != null {
            last.userParam := true;
          }
          s' := s.(count := 0, held := false, cancelled := CancelLast(s));
        }
      } else {
        held := false;
        s' := s.(held := false);
      }
    }

    /** wakeTimeoutCallback, with the flag that userTimerCallback read. */
    method WakeTimeoutCallback(param: bool, ghost s: State) returns (ghost s': State)
      requires Shows(s) && s.pc.InCallback? && param == s.pc.cancelled
      modifies this`held, this`count
      ensures Shows(s') && Next(s, FireApply, s')
      ensures param ==> held == old(held) && count == old(count)
      ensures !param ==> !held && count == if version >= 13 then 0 else old(count)
    {
      s' := s.(pc := Applied(s.pc.reading, s.pc.id));
      if !param {
        if version >= 13 {
          count, held := 0, false;
        } else {
          held := false;
        }
        s' := s'.(held := false, count := if s.counted then 0 else s.count);
      }
    }

    /** The end of userTimerCallback, before the info is freed. */
    method ForgetInfo(info: CallbackInfo, ghost s: State) returns (ghost s': State)
      requires Shows(s) && s.pc.Applied? && info in infos && info.id == s.pc.id
      modifies this`last
      ensures Shows(s') && Next(s, FireClear, s')
      ensures last != info && (old(last) != info ==> last == old(last))
    {
      s' := s.(last := if s.last == Some(s.pc.id) then None else s.last, pc := Firing(s.pc.reading));
      if last != null && last == info {
        last := null;
      }
    }
  }
}
