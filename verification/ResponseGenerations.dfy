/** The callback objects of one SIM slot in ril_service.cpp: they are installed by
    setResponseFunctions and dropped by checkReturnStatus when a call through them fails.
    Both services of a slot share one read-write lock, which cannot be upgraded, so
    checkReturnStatus gives the read lock up and compares a counter. */
module ResponseGenerations {
  import opened Wrappers

  datatype Kind = Radio | OemHook

  /** The callbacks are named by the installation they came with. */
  datatype Service = Service(
    counter: nat,
    response: Option<nat>, indication: Option<nat>,
    installs: nat, clears: nat)           // history

  datatype Phase =
    | Outside                                   // holds nothing
    | Reading                                   // holds the read lock
    | Failed(kind: Kind, used: nat)             // a call through `used` failed; read lock
    | Noted(kind: Kind, used: nat, counter: nat)     // the counter is read; read lock
    | Upgrading(kind: Kind, used: nat, counter: nat) // holds nothing
    | Checking(kind: Kind, used: nat, counter: nat)  // holds the write lock
    | Resuming(write: bool)                     // done; holds the write lock or nothing
    | Installing(kind: Kind, done: bool)        // setResponseFunctions; write lock

  datatype State = State(radio: Service, oem: Service, threads: map<nat, Phase>)

  datatype Step =
    | ReadLock(t: nat) | ReadUnlock(t: nat)
    | CallFails(t: nat, kind: Kind, used: nat)  // a call through a callback fails
    | Note(t: nat) | Drop(t: nat) | Upgrade(t: nat)
    | Compare(t: nat)                           // clear, if the counter is unchanged
    | Release(t: nat) | Resume(t: nat)
    | BeginInstall(t: nat, kind: Kind) | Install(t: nat, response: bool, indication: bool) | EndInstall(t: nat)

  predicate HoldsRead(p: Phase) {
    p.Reading? || p.Failed? || p.Noted?
  }

  predicate HoldsWrite(p: Phase) {
    p.Checking? || p.Installing? || (p.Resuming? && p.write)
  }

  /** pthread_rwlock_rdlock and pthread_rwlock_wrlock return only in these states. */
  predicate CanRead(s: State) {
    forall t :: t in s.threads ==> !HoldsWrite(s.threads[t])
  }

  predicate CanWrite(s: State) {
    forall t :: t in s.threads ==> !HoldsWrite(s.threads[t]) && !HoldsRead(s.threads[t])
  }

  function Get(s: State, kind: Kind): Service {
    if kind.Radio? then s.radio else s.oem
  }

  function Put(s: State, kind: Kind, v: Service): State {
    if kind.Radio? then s.(radio := v) else s.(oem := v)
  }

  function Move(s: State, t: nat, p: Phase): State {
    s.(threads := s.threads[t := p])
  }

  function Cleared(v: Service): Service {
    v.(response := None, indication := None, counter := v.counter + 1, clears := v.clears + 1)
  }

  /** Either callback may be given as null. */
  function Installed(v: Service, response: bool, indication: bool): Service {
    v.(response := if response then Some(v.installs) else None,
       indication := if indication then Some(v.installs) else None,
       counter := v.counter + 1, installs := v.installs + 1)
  }

  /** The callbacks of installation `used` are there. */
  predicate Uses(v: Service, used: nat) {
    v.response == Some(used) || v.indication == Some(used)
  }

  predicate Next(s: State, step: Step, s': State) {
    match step
    case ReadLock(t) => t in s.threads && s.threads[t].Outside? && CanRead(s) && s' == Move(s, t, Reading)
    case ReadUnlock(t) => t in s.threads && s.threads[t].Reading? && s' == Move(s, t, Outside)
    case CallFails(t, kind, used) =>
      t in s.threads && s.threads[t].Reading? && Uses(Get(s, kind), used) && s' == Move(s, t, Failed(kind, used))
    case Note(t) =>
      t in s.threads && s.threads[t].Failed? &&
      var p := s.threads[t];
      s' == Move(s, t, Noted(p.kind, p.used, Get(s, p.kind).counter))
    case Drop(t) =>
      t in s.threads && s.threads[t].Noted? &&
      var p := s.threads[t];
      s' == Move(s, t, Upgrading(p.kind, p.used, p.counter))
    case Upgrade(t) =>
      t in s.threads && s.threads[t].Upgrading? && CanWrite(s) &&
      var p := s.threads[t];
      s' == Move(s, t, Checking(p.kind, p.used, p.counter))
    case Compare(t) =>
      t in s.threads && s.threads[t].Checking? &&
      var p := s.threads[t];
      var v := Get(s, p.kind);
      s' == Move(if p.counter == v.counter then Put(s, p.kind, Cleared(v)) else s, t, Resuming(true))
    case Release(t) =>
      t in s.threads && s.threads[t] == Resuming(true) && s' == Move(s, t, Resuming(false))
    case Resume(t) =>
      t in s.threads && s.threads[t] == Resuming(false) && CanRead(s) && s' == Move(s, t, Reading)
    case BeginInstall(t, kind) =>
      t in s.threads && s.threads[t].Outside? && CanWrite(s) && s' == Move(s, t, Installing(kind, false))
    case Install(t, response, indication) =>
      t in s.threads && s.threads[t].Installing? && !s.threads[t].done &&
      var kind := s.threads[t].kind;
      s' == Move(Put(s, kind, Installed(Get(s, kind), response, indication)), t, Installing(kind, true))
    case EndInstall(t) =>
      t in s.threads && s.threads[t].Installing? && s.threads[t].done && s' == Move(s, t, Outside)
  }

  predicate Init(s: State) {
    && s.radio == Service(0, None, None, 0, 0) && s.oem == Service(0, None, None, 0, 0)
    && forall t :: t in s.threads ==> s.threads[t] == Outside
  }

  ghost predicate Steps(s: State, s': State) {
    exists step :: Next(s, step, s')
  }

  ghost predicate IsRun(run: seq<State>) {
    && run != [] && Init(run[0])
    && forall i :: 0 <= i < |run| - 1 ==> Steps(run[i], run[i + 1])
  }

  // ---------------------------------------------------------------- what every step keeps

  /** A writer is alone. */
  predicate Exclusive(s: State) {
    forall t, u :: t in s.threads && u in s.threads && t != u && HoldsWrite(s.threads[t]) ==>
      !HoldsWrite(s.threads[u]) && !HoldsRead(s.threads[u])
  }

  predicate Sound(v: Service) {
    && v.counter == v.installs + v.clears
    && (v.response.Some? ==> v.response.value + 1 == v.installs)
    && (v.indication.Some? ==> v.indication.value + 1 == v.installs)
  }

  /** What a thread in checkReturnStatus knows of its service: while it holds the read lock
      the callbacks that failed are the latest; afterwards they still are, unless the counter
      has moved on. */
  predicate Remembers(s: State, p: Phase) {
    match p
    case Failed(kind, used) => used + 1 == Get(s, kind).installs
    case Noted(kind, used, counter) => used + 1 == Get(s, kind).installs && Get(s, kind).counter == counter
    case Upgrading(kind, used, counter) => Recalls(Get(s, kind), used, counter)
    case Checking(kind, used, counter) => Recalls(Get(s, kind), used, counter)
    case _ => true
  }

  predicate Recalls(v: Service, used: nat, counter: nat) {
    counter <= v.counter && used < v.installs && (counter == v.counter ==> used + 1 == v.installs)
  }

  predicate Inv(s: State) {
    && Exclusive(s) && Sound(s.radio) && Sound(s.oem)
    && forall t :: t in s.threads ==> Remembers(s, s.threads[t])
  }

  lemma NextKeepsExclusive(s: State, step: Step, s': State)
    requires Exclusive(s) && Next(s, step, s')
    ensures Exclusive(s')
  {
  }

  lemma NextKeepsMemory(s: State, step: Step, s': State, t: nat)
    requires Inv(s) && Next(s, step, s') && t in s'.threads
    ensures Remembers(s', s'.threads[t])
  {
    assert Remembers(s, s.threads[t]);
  }

  lemma NextKeepsInv(s: State, step: Step, s': State)
    requires Inv(s) && Next(s, step, s')
    ensures Inv(s')
  {
    NextKeepsExclusive(s, step, s');
    forall t | t in s'.threads ensures Remembers(s', s'.threads[t]) {
      NextKeepsMemory(s, step, s', t);
    }
  }

  lemma {:induction false} RunKeepsInv(run: seq<State>, i: nat)
    requires IsRun(run) && i < |run|
    ensures Inv(run[i])
  {
    if i > 0 {
      RunKeepsInv(run, i - 1);
      assert 0 <= i - 1 < |run| - 1;
      var step :| Next(run[i - 1], step, run[i]);
      NextKeepsInv(run[i - 1], step, run[i]);
    }
  }

  // ---------------------------------------------------------------- main results

  /** Callbacks are cleared only by a thread whose failed call used exactly them: in every
      interleaving, a step that drops a callback without installing others is the comparison
      of a thread that failed on that very installation. So callbacks that were installed
      meanwhile are never erased by an older failure. */
  lemma OnlyTheFailedGenerationIsCleared(run: seq<State>, i: nat, step: Step, s': State, kind: Kind, g: nat)
    requires IsRun(run) && i < |run| && Next(run[i], step, s')
    requires Uses(Get(run[i], kind), g) && Get(s', kind).installs == Get(run[i], kind).installs
    requires Get(s', kind) != Get(run[i], kind)
    ensures var s := run[i];
            step.Compare? && s.threads[step.t].kind == kind && s.threads[step.t].used == g
  {
    RunKeepsInv(run, i);
    if step.Compare? {
      assert Remembers(run[i], run[i].threads[step.t]);
    }
  }

  /** A comparison clears iff the counter is the noted one: both callbacks go together, the
      counter rises by one, and the failed callbacks were the latest ones. Otherwise nothing
      changes; and the other service never does. */
  lemma CompareClearsIffUnchanged(run: seq<State>, i: nat, t: nat, s': State)
    requires IsRun(run) && i < |run| && Next(run[i], Compare(t), s')
    ensures var s := run[i];
            var p := s.threads[t];
            var v, v' := Get(s, p.kind), Get(s', p.kind);
            && p.counter <= v.counter
            && (p.counter == v.counter ==>
                  && v'.response.None? && v'.indication.None? && v'.counter == v.counter + 1
                  && p.used == v.installs - 1 && v'.installs == v.installs)
            && (p.counter != v.counter ==> v' == v)
            && (p.kind.Radio? ==> s'.oem == s.oem) && (p.kind.OemHook? ==> s'.radio == s.radio)
  {
    RunKeepsInv(run, i);
    assert Remembers(run[i], run[i].threads[t]);
  }

  /** An installation replaces both callbacks by those that were given, where null is given
      too, raises the counter by one, and leaves the other service alone. */
  lemma InstallReplacesBoth(run: seq<State>, i: nat, t: nat, response: bool, indication: bool, s': State)
    requires IsRun(run) && i < |run| && Next(run[i], Install(t, response, indication), s')
    ensures var s := run[i];
            var kind := s.threads[t].kind;
            var v, v' := Get(s, kind), Get(s', kind);
            && (v'.response.Some? <==> response) && (v'.indication.Some? <==> indication)
            && (forall g: nat :: Uses(v, g) ==> !Uses(v', g))
            && v'.counter == v.counter + 1
            && (kind.Radio? ==> s'.oem == s.oem) && (kind.OemHook? ==> s'.radio == s.radio)
  {
    RunKeepsInv(run, i);
  }

  /** No other step changes a service. */
  lemma OthersChangeNothing(s: State, step: Step, s': State)
    requires Next(s, step, s') && !step.Compare? && !step.Install?
    ensures s'.radio == s.radio && s'.oem == s.oem
  {
  }

  /** Every change of a service raises its counter. */
  lemma ChangeRaisesCounter(s: State, step: Step, s': State, kind: Kind)
    requires Next(s, step, s')
    ensures Get(s', kind) == Get(s, kind) || Get(s', kind).counter == Get(s, kind).counter + 1
  {
  }

  lemma {:induction false} CounterGrows(run: seq<State>, i: nat, j: nat, kind: Kind)
    requires IsRun(run) && i <= j < |run|
    ensures Get(run[i], kind).counter <= Get(run[j], kind).counter
    ensures Get(run[i], kind).counter == Get(run[j], kind).counter ==> Get(run[i], kind) == Get(run[j], kind)
    decreases j - i
  {
    if i < j {
      CounterGrows(run, i, j - 1, kind);
      assert Steps(run[j - 1], run[j - 1 + 1]);
      var step :| Next(run[j - 1], step, run[j]);
      ChangeRaisesCounter(run[j - 1], step, run[j], kind);
    }
  }

  /** The thread is inside checkReturnStatus, between the read of the counter and the
      comparison, with what it noted. */
  predicate Checks(s: State, t: nat, kind: Kind, used: nat, counter: nat) {
    t in s.threads &&
    (s.threads[t] == Noted(kind, used, counter) || s.threads[t] == Upgrading(kind, used, counter)
     || s.threads[t] == Checking(kind, used, counter))
  }

  predicate InCheck(s: State, t: nat) {
    t in s.threads && (s.threads[t].Noted? || s.threads[t].Upgrading? || s.threads[t].Checking?)
  }

  lemma NoteStays(run: seq<State>, j: nat, t: nat, kind: Kind, used: nat, counter: nat)
    requires IsRun(run) && j + 1 < |run| && Checks(run[j], t, kind, used, counter) && InCheck(run[j + 1], t)
    ensures Checks(run[j + 1], t, kind, used, counter)
  {
    assert Steps(run[j], run[j + 1]);
    var step :| Next(run[j], step, run[j + 1]);
  }

  lemma {:induction false} NoteIsKept(run: seq<State>, i: nat, j: nat, t: nat, kind: Kind, used: nat, counter: nat)
    requires IsRun(run) && i <= j < |run| && Checks(run[i], t, kind, used, counter)
    requires forall k :: i <= k <= j ==> InCheck(run[k], t)
    ensures Checks(run[j], t, kind, used, counter)
    decreases j - i
  {
    if i < j {
      NoteIsKept(run, i, j - 1, t, kind, used, counter);
      NoteStays(run, j - 1, t, kind, used, counter);
    }
  }

  /** The law of checkReturnStatus, over the time between its read of the counter and its
      comparison, in which it holds no lock: the callbacks are dropped iff the service is
      still what it was at the read; otherwise it is left as the others made it. */
  lemma DropsIffNothingHappened(run: seq<State>, i: nat, j: nat, t: nat, s': State)
    requires IsRun(run) && i < j < |run| && Next(run[i], Note(t), run[i + 1]) && Next(run[j], Compare(t), s')
    requires forall k :: i < k <= j ==> InCheck(run[k], t)
    ensures var kind := run[i].threads[t].kind;
            var v0, v, v' := Get(run[i], kind), Get(run[j], kind), Get(s', kind);
            if v == v0 then v'.response.None? && v'.indication.None? && v'.counter == v.counter + 1 else v' == v
  {
    var p := run[i].threads[t];
    NoteIsKept(run, i + 1, j, t, p.kind, p.used, Get(run[i], p.kind).counter);
    CompareClearsIffUnchanged(run, j, t, s');
    CounterGrows(run, i, j, p.kind);
  }

  /** What a thread does next; of a thread outside, a call. */
  function NextOf(p: Phase, t: nat): Step {
    match p
    case Outside => ReadLock(t)
    case Reading => ReadUnlock(t)
    case Failed(_, _) => Note(t)
    case Noted(_, _, _) => Drop(t)
    case Upgrading(_, _, _) => Upgrade(t)
    case Checking(_, _, _) => Compare(t)
    case Resuming(write) => if write then Release(t) else Resume(t)
    case Installing(_, done) => if done then EndInstall(t) else Install(t, true, true)
  }

  /** No thread waits for ever: whoever holds the lock can go on, and if nobody does,
      everybody can. */
  lemma HolderGoesOn(run: seq<State>, i: nat, t: nat) returns (s': State)
    requires IsRun(run) && i < |run| && t in run[i].threads
    requires var s := run[i];
             HoldsRead(s.threads[t]) || HoldsWrite(s.threads[t]) || CanWrite(s)
    ensures Next(run[i], NextOf(run[i].threads[t], t), s')
  {
    var s := run[i];
    var p := s.threads[t];
    match p
    case Outside => s' := Move(s, t, Reading);
    case Reading => s' := Move(s, t, Outside);
    case Failed(kind, used) => s' := Move(s, t, Noted(kind, used, Get(s, kind).counter));
    case Noted(kind, used, counter) => s' := Move(s, t, Upgrading(kind, used, counter));
    case Upgrading(kind, used, counter) => s' := Move(s, t, Checking(kind, used, counter));
    case Checking(kind, used, counter) =>
      s' := Move(if counter == Get(s, kind).counter then Put(s, kind, Cleared(Get(s, kind))) else s, t, Resuming(true));
    case Resuming(write) => s' := Move(s, t, if write then Resuming(false) else Reading);
    case Installing(kind, done) =>
      s' := if done then Move(s, t, Outside)
            else Move(Put(s, kind, Installed(Get(s, kind), true, true)), t, Installing(kind, true));
  }

  /** The counter is the number of installations and clearings, and every callback in a
      service is from its latest installation. */
  lemma CounterCountsChanges(run: seq<State>, i: nat, kind: Kind)
    requires IsRun(run) && i < |run|
    ensures var v := Get(run[i], kind);
            && v.counter == v.installs + v.clears
            && forall g: nat :: Uses(v, g) ==> g == v.installs - 1
  {
    RunKeepsInv(run, i);
  }

  /** A thread that may call through the callbacks has a stable view: no step of another
      thread changes either service while it holds the read lock. */
  lemma ReadersSeeNoChange(run: seq<State>, i: nat, step: Step, s': State, t: nat)
    requires IsRun(run) && i < |run| && Next(run[i], step, s')
    requires t in run[i].threads && HoldsRead(run[i].threads[t])
    ensures s'.radio == run[i].radio && s'.oem == run[i].oem
  {
    RunKeepsInv(run, i);
  }

  // ---------------------------------------------------------------- the code of the steps

  class Callback {
    ghost const generation: nat

    constructor (ghost generation: nat)
      ensures this.generation == generation
    {
      this.generation := generation;
    }
  }

  /** One service of the slot: its callback fields and its counter. */
  class ServiceFields {
    var counter: nat
    var response: Callback?
    var indication: Callback?

    ghost predicate Shows(v: Service)
      reads this
    {
      && counter == v.counter
      && (if response == null then v.response == None else v.response == Some(response.generation))
      && (if indication == null then v.indication == None else v.indication == Some(indication.generation))
    }

    constructor ()
      ensures forall s, kind :: Init(s) ==> Shows(Get(s, kind))
    {
      counter, response, indication := 0, null, null;
    }

    /** The part of checkReturnStatus under the write lock. */
    method ClearIfUnchanged(noted: nat, ghost s: State, ghost t: nat) returns (ghost s': State)
      requires t in s.threads && s.threads[t].Checking? && noted == s.threads[t].counter
      requires Shows(Get(s, s.threads[t].kind))
      modifies this
      ensures Next(s, Compare(t), s') && Shows(Get(s', s.threads[t].kind))
      ensures noted == old(counter) ==> response == null && indication == null && counter == old(counter) + 1
      ensures noted != old(counter) ==>
        response == old(response) && indication == old(indication) && counter == old(counter)
    {
      ghost var v := Get(s, s.threads[t].kind);
      s' := Move(if noted == v.counter then Put(s, s.threads[t].kind, Cleared(v)) else s, t, Resuming(true));
      if noted == counter {
        response, indication := null, null;
        counter := counter + 1;
      }
    }

    /** The part of setResponseFunctions under the write lock. */
    method SetResponseFunctions(responseParam: Callback?, indicationParam: Callback?, ghost s: State, ghost t: nat)
      returns (ghost s': State)
      requires t in s.threads && s.threads[t].Installing? && !s.threads[t].done
      requires Shows(Get(s, s.threads[t].kind))
      requires responseParam != null ==> responseParam.generation == Get(s, s.threads[t].kind).installs
      requires indicationParam != null ==> indicationParam.generation == Get(s, s.threads[t].kind).installs
      modifies this
      ensures Next(s, Install(t, responseParam != null, indicationParam != null), s')
      ensures Shows(Get(s', s.threads[t].kind))
      ensures response == responseParam && indication == indicationParam && counter == old(counter) + 1
    {
      ghost var kind := s.threads[t].kind;
      s' := Move(Put(s, kind, Installed(Get(s, kind), responseParam != null, indicationParam != null)),
                 t, Installing(kind, true));
      response := responseParam;
      indication := indicationParam;
      counter := counter + 1;
    }
  }
}
