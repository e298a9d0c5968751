/** The mutexes around the vendor: one per channel, and s_proxyQMutex, s_malDoneMutex and
    s_malMutex. Any number of threads runs the functions that take them, in any order; a
    completion may also arrive inside a vendor call, on the caller's own thread. */
module LockOrder {
  import opened Channels
  import opened Wrappers

  datatype Lock = Channel(i: nat) | ProxyQ | MalDone | Mal

  datatype Role =
    | Worker(ch: nat)        // mtkProxyWorker
    | TimerFired             // mtkProxyTimerFired
    | OnRequest(cid: int)    // mtkOnRequestLocked
    | Dispatch(sim: nat)     // malDispatch
    | Completion             // malComplete
    | ServerLoop             // malServerLoop, around one connection

  /** What a thread does next. `Sleep` is a condition wait, which gives the mutex up and
      has to acquire it again. */
  datatype Op = Acquire(l: Lock) | Release(l: Lock) | Sleep(l: Lock) | Vendor | End

  function ChannelOf(role: Role): Lock {
    match role
    case Worker(ch) => Channel(ChannelIndex(ch))
    case OnRequest(cid) => Channel(ChannelIndex(cid))
    case Dispatch(sim) => Channel(ChannelIndex(6 * sim))
    case _ => Channel(0)
  }

  /** The locking code of each function, in program order. */
  function Code(role: Role): seq<Op> {
    var ch := ChannelOf(role);
    match role
    case Worker(_) => [Acquire(ProxyQ), Sleep(ProxyQ), Release(ProxyQ), Acquire(ch), Vendor, Release(ch), End]
    case TimerFired => [Acquire(ProxyQ), Release(ProxyQ), End]
    case OnRequest(_) => [Acquire(ch), Vendor, Release(ch), End]
    case Dispatch(_) =>
      [Acquire(MalDone), Release(MalDone), Acquire(ch), Vendor, Release(ch), // one attempt
       Acquire(MalDone), Sleep(MalDone), Release(MalDone),                   // its completion
       Acquire(MalDone), Release(MalDone), Acquire(Mal), Release(Mal), End]  // the answer
    case Completion => [Acquire(MalDone), Release(MalDone), End]
    case ServerLoop => [Acquire(Mal), Release(Mal), Acquire(Mal), Release(Mal), End]
  }

  /** `inner` is the position in a completion that runs inside the vendor call. */
  datatype Thread = Thread(role: Role, pc: nat, inner: Option<nat>)

  predicate Proper(th: Thread) {
    && th.pc < |Code(th.role)|
    && (th.inner.Some? ==> Code(th.role)[th.pc] == Vendor && th.inner.value < 2)
  }

  function Current(th: Thread): Op
    requires Proper(th)
  {
    if th.inner.Some? then Code(Completion)[th.inner.value] else Code(th.role)[th.pc]
  }

  function Advanced(th: Thread): Thread {
    if th.inner == Some(1) then th.(inner := None)
    else if th.inner.Some? then th.(inner := Some(th.inner.value + 1))
    else th.(pc := th.pc + 1)
  }

  datatype State = State(threads: seq<Thread>, owner: map<Lock, nat>)

  datatype Step =
    | Lock(t: nat)           // the mutex is free
    | Unlock(t: nat)
    | Pass(t: nat)           // the condition holds, or the wait timed out
    | Doze(t: nat)           // pthread_cond_wait gives the mutex up
    | VendorReturns(t: nat)
    | VendorCompletes(t: nat) // a completion starts on this thread
    | Retry(t: nat)          // malDispatch makes another attempt
    | Start(t: nat, role: Role)

  predicate Next(s: State, step: Step, s': State) {
    && step.t < |s.threads| && Proper(s.threads[step.t])
    && var t := step.t;
       var th := s.threads[t];
       var op := Current(th);
       match step
       case Lock(_) =>
         op.Acquire? && op.l !in s.owner &&
         s' == State(s.threads[t := Advanced(th)], s.owner[op.l := t])
       case Unlock(_) =>
         op.Release? && s' == State(s.threads[t := Advanced(th)], s.owner - {op.l})
       case Pass(_) => op.Sleep? && s' == s.(threads := s.threads[t := Advanced(th)])
       case Doze(_) =>
         op.Sleep? && th.pc > 0 && s' == State(s.threads[t := th.(pc := th.pc - 1)], s.owner - {op.l})
       case VendorReturns(_) => op.Vendor? && s' == s.(threads := s.threads[t := Advanced(th)])
       case VendorCompletes(_) => op.Vendor? && s' == s.(threads := s.threads[t := th.(inner := Some(0))])
       case Retry(_) =>
         th.role.Dispatch? && th.pc == 8 && s' == s.(threads := s.threads[t := th.(pc := 0)])
       case Start(_, role) => op.End? && s' == s.(threads := s.threads[t := Thread(role, 0, None)])
  }

  predicate Init(s: State) {
    s.owner == map[] && forall t :: 0 <= t < |s.threads| ==> s.threads[t].pc == 0 && s.threads[t].inner == None
  }

  ghost predicate Steps(s: State, s': State) {
    exists step :: Next(s, step, s')
  }

  ghost predicate IsRun(run: seq<State>) {
    && run != [] && Init(run[0])
    && forall i :: 0 <= i < |run| - 1 ==> Steps(run[i], run[i + 1])
  }

  // ---------------------------------------------------------------- what every step keeps

  /** The mutexes that a function holds at a place in its code. */
  function Own(role: Role, pc: nat): set<Lock> {
    match role
    case Worker(_) => if 1 <= pc <= 2 then {ProxyQ} else if 4 <= pc <= 5 then {ChannelOf(role)} else {}
    case TimerFired => if pc == 1 then {ProxyQ} else {}
    case OnRequest(_) => if 1 <= pc <= 2 then {ChannelOf(role)} else {}
    case Dispatch(_) =>
      if pc == 1 || 6 <= pc <= 7 || pc == 9 then {MalDone}
      else if 3 <= pc <= 4 then {ChannelOf(role)}
      else if pc == 11 then {Mal} else {}
    case Completion => if pc == 1 then {MalDone} else {}
    case ServerLoop => if pc == 1 || pc == 3 then {Mal} else {}
  }

  function Held(th: Thread): set<Lock> {
    Own(th.role, th.pc) + if th.inner == Some(1) then {MalDone} else {}
  }

  function HeldBy(ths: seq<Thread>): (held: seq<set<Lock>>)
    ensures |held| == |ths| && forall t :: 0 <= t < |ths| ==> held[t] == Held(ths[t])
  {
    seq(|ths|, t requires 0 <= t < |ths| => Held(ths[t]))
  }

  /** The owners of the mutexes are the threads that hold them. */
  ghost predicate Consistent(held: seq<set<Lock>>, owner: map<Lock, nat>) {
    && (forall l :: l in owner ==> owner[l] < |held| && l in held[owner[l]])
    && (forall t, l :: 0 <= t < |held| && l in held[t] ==> l in owner && owner[l] == t)
  }

  /** The mutex map says of every thread what its place in the code says. */
  ghost predicate Inv(s: State) {
    && (forall t :: 0 <= t < |s.threads| ==> Proper(s.threads[t]))
    && Consistent(HeldBy(s.threads), s.owner)
  }

  lemma AcquireEffect(th: Thread)
    requires Proper(th) && Current(th).Acquire?
    ensures Proper(Advanced(th)) && Held(Advanced(th)) == Held(th) + {Current(th).l}
  {
  }

  lemma ReleaseEffect(th: Thread)
    requires Proper(th) && Current(th).Release?
    ensures Proper(Advanced(th)) && Current(th).l in Held(th)
    ensures Held(Advanced(th)) == Held(th) - {Current(th).l}
  {
  }

  lemma SleepEffect(th: Thread)
    requires Proper(th) && Current(th).Sleep?
    ensures Proper(Advanced(th)) && Held(Advanced(th)) == Held(th) && Current(th).l in Held(th)
    ensures th.pc > 0 && Proper(th.(pc := th.pc - 1))
    ensures Held(th.(pc := th.pc - 1)) == Held(th) - {Current(th).l}
  {
  }

  lemma OtherEffect(th: Thread)
    requires Proper(th)
    ensures Current(th).Vendor? ==> Proper(Advanced(th)) && Held(Advanced(th)) == Held(th)
    ensures Current(th).Vendor? ==> Proper(th.(inner := Some(0))) && Held(th.(inner := Some(0))) == Held(th)
    ensures th.role.Dispatch? && th.pc == 8 ==> Proper(th.(pc := 0)) && Held(th.(pc := 0)) == Held(th)
    ensures Current(th).End? ==> Held(th) == {}
  {
  }

  lemma Gain(held: seq<set<Lock>>, owner: map<Lock, nat>, t: nat, l: Lock)
    requires Consistent(held, owner) && t < |held| && l !in owner
    ensures Consistent(held[t := held[t] + {l}], owner[l := t])
  {
  }

  lemma Lose(held: seq<set<Lock>>, owner: map<Lock, nat>, t: nat, l: Lock)
    requires Consistent(held, owner) && t < |held| && l in held[t]
    ensures Consistent(held[t := held[t] - {l}], owner - {l})
  {
    var held', owner' := held[t := held[t] - {l}], owner - {l};
    assert owner[l] == t;
    forall k | k in owner' ensures owner'[k] < |held'| && k in held'[owner'[k]] {
      assert k in owner && owner'[k] == owner[k];
    }
    forall u, k | 0 <= u < |held'| && k in held'[u] ensures k in owner' && owner'[k] == u {
      assert k in held[u];
    }
  }

  /** What a step does to the mutexes of its thread. */
  datatype Effect = Keeps | Gains(l: Lock) | Loses(l: Lock)

  predicate Applied(e: Effect, held: set<Lock>, held': set<Lock>,
                    owner: map<Lock, nat>, owner': map<Lock, nat>, t: nat)
  {
    match e
    case Keeps => held' == held && owner' == owner
    case Gains(l) => l !in owner && held' == held + {l} && owner' == owner[l := t]
    case Loses(l) => l in held && held' == held - {l} && owner' == owner - {l}
  }

  lemma NextEffect(s: State, step: Step, s': State) returns (e: Effect)
    requires Next(s, step, s')
    ensures |s'.threads| == |s.threads| && s'.threads == s.threads[step.t := s'.threads[step.t]]
    ensures Proper(s'.threads[step.t])
    ensures Applied(e, Held(s.threads[step.t]), Held(s'.threads[step.t]), s.owner, s'.owner, step.t)
  {
    var th := s.threads[step.t];
    e := Keeps;
    match step
    case Lock(_) =>
      AcquireEffect(th);
      e := Gains(Current(th).l);
    case Unlock(_) =>
      ReleaseEffect(th);
      e := Loses(Current(th).l);
    case Pass(_) => SleepEffect(th);
    case Doze(_) =>
      SleepEffect(th);
      e := Loses(Current(th).l);
    case _ => OtherEffect(th);
  }

  lemma EffectKeepsConsistent(ths: seq<Thread>, owner: map<Lock, nat>, t: nat, th: Thread,
                              owner': map<Lock, nat>, e: Effect)
    requires t < |ths| && Consistent(HeldBy(ths), owner)
    requires Applied(e, Held(ths[t]), Held(th), owner, owner', t)
    ensures Consistent(HeldBy(ths[t := th]), owner')
  {
    var held := HeldBy(ths);
    assert HeldBy(ths[t := th]) == held[t := Held(th)];
    match e
    case Gains(l) => Gain(held, owner, t, l);
    case Loses(l) => Lose(held, owner, t, l);
    case Keeps => assert held[t := Held(th)] == held;
  }

  lemma NextKeepsInv(s: State, step: Step, s': State)
    requires Inv(s) && Next(s, step, s')
    ensures Inv(s')
  {
    var e := NextEffect(s, step, s');
    EffectKeepsConsistent(s.threads, s.owner, step.t, s'.threads[step.t], s'.owner, e);
  }

  lemma {:induction false} RunKeepsInv(run: seq<State>, i: nat)
    requires IsRun(run) && i < |run|
    ensures Inv(run[i])
  {
    if i > 0 {
      RunKeepsInv(run, i - 1);
      assert 0 <= i - 1 < |run| - 1;
      var step :| Next(run[i - 1], step, run[i]);
      NextKeepsInv(run[i - 1], step, run[i]);
    }
  }

  // ---------------------------------------------------------------- main results

  /** The thread is blocked on a mutex that another thread has. */
  predicate WaitsFor(s: State, t: nat, u: nat) {
    && t < |s.threads| && u < |s.threads| && t != u && Proper(s.threads[t]) && Current(s.threads[t]).Acquire?
    && Current(s.threads[t]).l in s.owner && s.owner[Current(s.threads[t]).l] == u
  }

  predicate IsInner(l: Lock) {
    !l.Channel?
  }

  /** A thread that holds one of the three inner mutexes is not about to acquire any. */
  lemma InnerHolderNeverWaits(th: Thread, l: Lock)
    requires Proper(th) && l in Held(th) && IsInner(l)
    ensures !Current(th).Acquire?
  {
  }

  /** A thread holds at most one channel mutex, and whoever holds one and waits, waits for
      an inner mutex: nobody waits for a channel while holding anything. */
  lemma ChannelDiscipline(th: Thread, a: Lock, b: Lock)
    requires Proper(th) && a in Held(th)
    ensures a.Channel? && b.Channel? && b in Held(th) ==> a == b
    ensures Current(th).Acquire? ==> a.Channel? && IsInner(Current(th).l)
  {
  }

  /** Waiting chains have at most two links: if t waits for u and u for v, v waits for
      nobody. */
  lemma ChainsAreShort(run: seq<State>, i: nat, t: nat, u: nat, v: nat, w: nat)
    requires IsRun(run) && i < |run| && WaitsFor(run[i], t, u) && WaitsFor(run[i], u, v)
    ensures !WaitsFor(run[i], v, w)
  {
    RunKeepsInv(run, i);
    var s := run[i];
    var held := HeldBy(s.threads);
    var a, b := Current(s.threads[t]).l, Current(s.threads[u]).l;
    assert a in held[u] && b in held[v];
    ChannelDiscipline(s.threads[u], a, a);
    InnerHolderNeverWaits(s.threads[v], b);
  }

  /** A closed chain of threads, each waiting for the next one. */
  predicate IsCycle(s: State, c: seq<nat>) {
    && |c| >= 2 && c[0] == c[|c| - 1]
    && forall k :: 0 <= k < |c| - 1 ==> WaitsFor(s, c[k], c[k + 1])
  }

  /** No circular wait of any length. */
  lemma NoCircularWait(run: seq<State>, i: nat, c: seq<nat>)
    requires IsRun(run) && i < |run|
    ensures !IsCycle(run[i], c)
  {
    var s := run[i];
    if IsCycle(s, c) {
      assert WaitsFor(s, c[0], c[1]);
      if |c| > 2 {
        var after := if |c| == 3 then c[1] else c[3];
        assert WaitsFor(s, c[1], c[2]) && WaitsFor(s, c[2], after);
        ChainsAreShort(run, i, c[0], c[1], c[2], after);
      }
    }
  }

  /** Per channel, at most one thread of those that go through mtkChannelLock is inside the
      vendor: a worker, a request, or a MAL command. */
  lemma VendorIsExclusive(run: seq<State>, i: nat, t: nat, u: nat)
    requires IsRun(run) && i < |run| && t < |run[i].threads| && u < |run[i].threads| && t != u
    requires InVendor(run[i].threads[t]) && InVendor(run[i].threads[u])
    ensures ChannelOf(run[i].threads[t].role) != ChannelOf(run[i].threads[u].role)
  {
    RunKeepsInv(run, i);
    VendorHoldsItsChannel(run[i].threads[t]);
    VendorHoldsItsChannel(run[i].threads[u]);
    if ChannelOf(run[i].threads[t].role) == ChannelOf(run[i].threads[u].role) {
      OneHolder(HeldBy(run[i].threads), run[i].owner, t, u, ChannelOf(run[i].threads[t].role));
    }
  }

  lemma OneHolder(held: seq<set<Lock>>, owner: map<Lock, nat>, t: nat, u: nat, l: Lock)
    requires Consistent(held, owner) && t < |held| && u < |held| && l in held[t] && l in held[u]
    ensures t == u
  {
    assert owner[l] == t;
  }

  predicate InVendor(th: Thread) {
    th.pc < |Code(th.role)| && Code(th.role)[th.pc] == Vendor
  }

  lemma VendorHoldsItsChannel(th: Thread)
    requires InVendor(th)
    ensures ChannelOf(th.role) in Held(th) && ChannelOf(th.role).Channel?
  {
  }

  /** The function works on channel `c` of the 24: a worker on its own, a request on the
      channel it asks for, and MAL on every sixth, one for each SIM. */
  predicate Uses(role: Role, c: int) {
    match role
    case Worker(ch) => ch % 24 == c
    case OnRequest(cid) => if cid < 0 then c == 0 else cid % 24 == c
    case Dispatch(sim) => 6 * sim % 24 == c
    case _ => false
  }

  lemma UsesItsMutex(role: Role, c: int)
    requires 0 <= c < 24
    ensures Uses(role, c) ==> ChannelOf(role) == Channel(c)
    ensures ChannelOf(role) == Channel(c) && (role.Worker? || role.OnRequest? || role.Dispatch?) ==> Uses(role, c)
  {
  }

  /** A MAL command of a SIM and the worker or the requests of channel six times its number
      are never in the vendor together, nor are two of any kind that work on one channel. */
  lemma OneAtATime(run: seq<State>, i: nat, t: nat, u: nat, c: int)
    requires IsRun(run) && i < |run| && t < |run[i].threads| && u < |run[i].threads| && t != u
    requires 0 <= c < 24 && Uses(run[i].threads[t].role, c) && Uses(run[i].threads[u].role, c)
    ensures !(InVendor(run[i].threads[t]) && InVendor(run[i].threads[u]))
  {
    UsesItsMutex(run[i].threads[t].role, c);
    UsesItsMutex(run[i].threads[u].role, c);
    if InVendor(run[i].threads[t]) && InVendor(run[i].threads[u]) {
      VendorIsExclusive(run, i, t, u);
    }
  }

  lemma OwnChannelOnly(th: Thread, l: Lock)
    requires Proper(th) && l.Channel? && (l in Held(th) || Current(th) == Acquire(l))
    ensures l == ChannelOf(th.role) && (th.role.Worker? || th.role.OnRequest? || th.role.Dispatch?)
  {
  }

  /** Channels do not hold each other up: who waits for a channel waits for somebody who
      works on the same one. */
  lemma ChannelsAreIndependent(run: seq<State>, i: nat, t: nat, u: nat, c: int)
    requires IsRun(run) && i < |run| && WaitsFor(run[i], t, u) && 0 <= c < 24
    requires Current(run[i].threads[t]).l.Channel? && Uses(run[i].threads[t].role, c)
    ensures Uses(run[i].threads[u].role, c)
  {
    RunKeepsInv(run, i);
    var s := run[i];
    var l := Current(s.threads[t]).l;
    OwnChannelOnly(s.threads[t], l);
    assert l in HeldBy(s.threads)[u];
    OwnChannelOnly(s.threads[u], l);
    UsesItsMutex(s.threads[t].role, c);
    UsesItsMutex(s.threads[u].role, c);
  }

  /** A thread that is through holds nothing. */
  lemma NoMutexIsKept(run: seq<State>, i: nat, l: Lock)
    requires IsRun(run) && i < |run| && l in run[i].owner
    ensures run[i].owner[l] < |run[i].threads| && Proper(run[i].threads[run[i].owner[l]])
    ensures !Current(run[i].threads[run[i].owner[l]]).End?
  {
    RunKeepsInv(run, i);
    var s := run[i];
    assert l in HeldBy(s.threads)[s.owner[l]];
    OtherEffect(s.threads[s.owner[l]]);
  }

  /** The thread has to wait for a mutex. */
  predicate Blocked(s: State, t: nat)
    requires t < |s.threads|
  {
    Proper(s.threads[t]) && Current(s.threads[t]).Acquire? && Current(s.threads[t]).l in s.owner
  }

  lemma BlockedWaits(run: seq<State>, i: nat, t: nat)
    requires IsRun(run) && i < |run| && t < |run[i].threads|
    ensures var s := run[i]; Blocked(s, t) ==> WaitsFor(s, t, s.owner[Current(s.threads[t]).l])
  {
    RunKeepsInv(run, i);
    var s := run[i];
    if !Blocked(s, t) { return; }
    var l := Current(s.threads[t]).l;
    assert l in HeldBy(s.threads)[s.owner[l]];
    if s.owner[l] == t {
      if IsInner(l) {
        InnerHolderNeverWaits(s.threads[t], l);
      } else {
        ChannelDiscipline(s.threads[t], l, l);
      }
    }
  }

  lemma FreeThreadGoesOn(s: State, t: nat) returns (step: Step, s': State)
    requires Inv(s) && t < |s.threads| && !Blocked(s, t)
    ensures Next(s, step, s') && step.t == t
  {
    var th := s.threads[t];
    match Current(th)
    case Acquire(l) => step, s' := Lock(t), State(s.threads[t := Advanced(th)], s.owner[l := t]);
    case Release(l) => step, s' := Unlock(t), State(s.threads[t := Advanced(th)], s.owner - {l});
    case Sleep(_) => step, s' := Pass(t), s.(threads := s.threads[t := Advanced(th)]);
    case Vendor => step, s' := VendorReturns(t), s.(threads := s.threads[t := Advanced(th)]);
    case End => step, s' := Start(t, th.role), s.(threads := s.threads[t := Thread(th.role, 0, None)]);
  }

  /** Some thread can always go on: a blocked one waits for one that is not blocked, or for
      one that waits for such a one. */
  lemma SomeThreadGoesOn(run: seq<State>, i: nat, t: nat) returns (u: nat, step: Step, s': State)
    requires IsRun(run) && i < |run| && t < |run[i].threads|
    ensures u == t || WaitsFor(run[i], t, u) || exists v :: WaitsFor(run[i], t, v) && WaitsFor(run[i], v, u)
    ensures Next(run[i], step, s') && step.t == u
  {
    RunKeepsInv(run, i);
    var s := run[i];
    u := t;
    if Blocked(s, t) {
      BlockedWaits(run, i, t);
      u := s.owner[Current(s.threads[t]).l];
      if Blocked(s, u) {
        BlockedWaits(run, i, u);
        var v := u;
        u := s.owner[Current(s.threads[u]).l];
        if Blocked(s, u) {
          BlockedWaits(run, i, u);
          ChainsAreShort(run, i, t, v, u, s.owner[Current(s.threads[u]).l]);
        }
      }
    }
    step, s' := FreeThreadGoesOn(s, u);
  }
}
