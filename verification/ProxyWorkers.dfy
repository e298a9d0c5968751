/** The per-channel proxy workers of ril.cpp: jobs are queued when their timer fires, a
    worker is started for a channel on its first job, and workers run their jobs under the
    channel mutex, which MAL and the locked onRequest path also take. */
module ProxyWorkers {
  import opened Channels

  datatype Phase =
    | Checking               // about to look at the queue, under s_proxyQMutex
    | Parked                 // in pthread_cond_wait
    | Holding(job: nat)      // has a job, wants the channel mutex
    | Running(job: nat)      // inside the callback, with the channel mutex

  datatype Worker = Worker(ch: nat, phase: Phase)

  datatype Owner = Free | ByWorker(w: nat) | ByOther

  datatype Channel = Channel(
    queued: seq<nat>,        // the jobs from head to tail
    up: bool,                // s_proxyWorkerUp
    owner: Owner,            // of the channel mutex
    fired: seq<nat>,         // history: the jobs in the order their timers fired
    completed: seq<nat>)     // history: the jobs whose callback has returned

  datatype State = State(
    channels: seq<Channel>,
    workers: seq<Worker>,
    homes: seq<nat>)         // history: the channel of every job fired so far

  datatype Step =
    | Fire(ch: nat, created: bool)
    | Park(w: nat)
    | Take(w: nat)
    | Lock(w: nat)
    | Finish(w: nat)
    | OtherLock(ch: nat)
    | OtherUnlock(ch: nat)

  /** pthread_cond_broadcast: every parked worker looks at its queue again. */
  function WakeAll(ws: seq<Worker>): (r: seq<Worker>)
    ensures |r| == |ws|
    ensures forall i :: 0 <= i < |ws| ==> r[i] == if ws[i].phase.Parked? then ws[i].(phase := Checking) else ws[i]
  {
    seq(|ws|, i requires 0 <= i < |ws| => if ws[i].phase.Parked? then ws[i].(phase := Checking) else ws[i])
  }

  /** mtkProxyTimerFired; `created` is whether pthread_create would succeed. */
  function Fired(s: State, ch: nat, created: bool): State
    requires ch < |s.channels|
  {
    var c := s.channels[ch];
    var start := !c.up && created;
    State(s.channels[ch := c.(queued := c.queued + [|s.homes|], fired := c.fired + [|s.homes|], up := c.up || created)],
          WakeAll(s.workers) + if start then [Worker(ch, Checking)] else [],
          s.homes + [ch])
  }

  predicate Next(s: State, step: Step, s': State) {
    match step
    case Fire(ch, created) => ch < |s.channels| && s' == Fired(s, ch, created)
    case Park(w) =>
      && w < |s.workers| && s.workers[w].ch < |s.channels| && s.workers[w].phase.Checking?
      && s.channels[s.workers[w].ch].queued == []
      && s' == s.(workers := s.workers[w := s.workers[w].(phase := Parked)])
    case Take(w) =>
      && w < |s.workers| && s.workers[w].ch < |s.channels| && s.workers[w].phase.Checking?
      && var ch := s.workers[w].ch;
      var c := s.channels[ch];
      c.queued != [] &&
      s' == s.(channels := s.channels[ch := c.(queued := c.queued[1..])],
               workers := s.workers[w := Worker(ch, Holding(c.queued[0]))])
    case Lock(w) =>
      && w < |s.workers| && s.workers[w].ch < |s.channels| && s.workers[w].phase.Holding?
      && var ch := s.workers[w].ch;
      s.channels[ch].owner == Free &&
      s' == s.(channels := s.channels[ch := s.channels[ch].(owner := ByWorker(w))],
               workers := s.workers[w := Worker(ch, Running(s.workers[w].phase.job))])
    case Finish(w) =>
      && w < |s.workers| && s.workers[w].ch < |s.channels| && s.workers[w].phase.Running?
      && var ch := s.workers[w].ch;
      var c := s.channels[ch];
      s' == s.(channels := s.channels[ch := c.(owner := Free, completed := c.completed + [s.workers[w].phase.job])],
               workers := s.workers[w := Worker(ch, Checking)])
    case OtherLock(ch) =>
      ch < |s.channels| && s.channels[ch].owner == Free &&
      s' == s.(channels := s.channels[ch := s.channels[ch].(owner := ByOther)])
    case OtherUnlock(ch) =>
      ch < |s.channels| && s.channels[ch].owner == ByOther &&
      s' == s.(channels := s.channels[ch := s.channels[ch].(owner := Free)])
  }

  predicate Init(s: State) {
    s == State(seq(CHANNEL_COUNT, _ => Channel([], false, Free, [], [])), [], [])
  }

  ghost predicate Steps(s: State, s': State) {
    exists step :: Next(s, step, s')
  }

  ghost predicate IsRun(run: seq<State>) {
    && run != [] && Init(run[0])
    && forall i :: 0 <= i < |run| - 1 ==> Steps(run[i], run[i + 1])
  }

  // ---------------------------------------------------------------- what every step keeps

  /** The job a worker has taken and not finished. */
  function InHand(p: Phase): seq<nat> {
    if p.Holding? || p.Running? then [p.job] else []
  }

  /** A channel and its worker, if it has one: the jobs fired so far are the completed
      ones, then the one in hand, then the queued ones. */
  predicate WorkerFits(s: State, w: nat)
    requires w < |s.workers|
  {
    var x := s.workers[w];
    && x.ch < |s.channels| && s.channels[x.ch].up
    && s.channels[x.ch].fired == s.channels[x.ch].completed + InHand(x.phase) + s.channels[x.ch].queued
    && (x.phase.Parked? ==> s.channels[x.ch].queued == [])
    && (x.phase.Running? <==> s.channels[x.ch].owner == ByWorker(w))
  }

  /** Only its own worker owns a channel, and a channel without a worker has run nothing. */
  predicate ChannelFits(s: State, ch: nat)
    requires ch < |s.channels|
  {
    var c := s.channels[ch];
    && (c.owner.ByWorker? ==> c.owner.w < |s.workers| && s.workers[c.owner.w].ch == ch)
    && (!c.up ==> c.completed == [] && c.fired == c.queued)
  }

  predicate Fits(s: State) {
    && |s.channels| == CHANNEL_COUNT
    && (forall w :: 0 <= w < |s.workers| ==> WorkerFits(s, w))
    && (forall ch :: 0 <= ch < |s.channels| ==> ChannelFits(s, ch))
  }

  predicate OneWorkerEach(s: State) {
    forall v, w :: 0 <= v < w < |s.workers| ==> s.workers[v].ch != s.workers[w].ch
  }

  /** A channel that is marked up has a worker. */
  predicate UpHasWorker(s: State) {
    forall ch :: 0 <= ch < |s.channels| && s.channels[ch].up ==>
      exists w :: 0 <= w < |s.workers| && s.workers[w].ch == ch
  }

  /** Jobs are numbered in the order their timers fire, and each has one channel. */
  predicate InOrder(fired: seq<nat>, ch: nat, homes: seq<nat>) {
    && (forall i :: 0 <= i < |fired| ==> fired[i] < |homes| && homes[fired[i]] == ch)
    && (forall i, j :: 0 <= i < j < |fired| ==> fired[i] < fired[j])
  }

  predicate FreshJobs(s: State) {
    forall ch :: 0 <= ch < |s.channels| ==> InOrder(s.channels[ch].fired, ch, s.homes)
  }

  predicate Inv(s: State) {
    Fits(s) && OneWorkerEach(s) && UpHasWorker(s) && FreshJobs(s)
  }

  /** The account of one worker's channel after a step of its own, or a timer. */
  lemma AccountStep(completed: seq<nat>, hand: seq<nat>, queued: seq<nat>, job: nat)
    ensures completed + hand + queued + [job] == completed + hand + (queued + [job])
    ensures completed + hand + [] == completed + [] + hand
    ensures queued != [] && hand == [] ==> completed + hand + queued == completed + [queued[0]] + queued[1..]
    ensures completed + hand + queued == (completed + hand) + [] + queued
  {
  }

  lemma NextKeepsWorkerFits(s: State, step: Step, s': State, w: nat)
    requires Fits(s) && OneWorkerEach(s) && Next(s, step, s') && w < |s'.workers|
    ensures WorkerFits(s', w)
  {
    if w < |s.workers| {
      assert WorkerFits(s, w);
      var x := s.workers[w];
      var c := s.channels[x.ch];
      AccountStep(c.completed, InHand(x.phase), c.queued, |s.homes|);
    } else {
      assert ChannelFits(s, s'.workers[w].ch);
    }
  }

  lemma NextKeepsChannelFits(s: State, step: Step, s': State, ch: nat)
    requires Fits(s) && OneWorkerEach(s) && Next(s, step, s') && ch < |s'.channels|
    ensures ChannelFits(s', ch)
  {
    assert ChannelFits(s, ch);
    forall w | 0 <= w < |s.workers| ensures s.workers[w].ch < |s.channels| && s.channels[s.workers[w].ch].up {
      assert WorkerFits(s, w);
    }
  }

  lemma NextKeepsFits(s: State, step: Step, s': State)
    requires Fits(s) && OneWorkerEach(s) && Next(s, step, s')
    ensures Fits(s')
  {
    forall w | 0 <= w < |s'.workers| ensures WorkerFits(s', w) {
      NextKeepsWorkerFits(s, step, s', w);
    }
    forall ch | 0 <= ch < |s'.channels| ensures ChannelFits(s', ch) {
      NextKeepsChannelFits(s, step, s', ch);
    }
  }

  lemma NextKeepsOneWorker(s: State, step: Step, s': State)
    requires Fits(s) && OneWorkerEach(s) && Next(s, step, s')
    ensures OneWorkerEach(s')
  {
    forall w | 0 <= w < |s.workers| ensures s.workers[w].ch < |s.channels| && s.channels[s.workers[w].ch].up {
      assert WorkerFits(s, w);
    }
  }

  lemma NextKeepsUp(s: State, step: Step, s': State)
    requires UpHasWorker(s) && Next(s, step, s')
    ensures UpHasWorker(s')
  {
    forall ch | 0 <= ch < |s'.channels| && s'.channels[ch].up
      ensures exists w :: 0 <= w < |s'.workers| && s'.workers[w].ch == ch
    {
      if s.channels[ch].up {
        var w :| 0 <= w < |s.workers| && s.workers[w].ch == ch;
        assert s'.workers[w].ch == ch;
      } else {
        assert s'.workers[|s.workers|].ch == ch;
      }
    }
  }

  lemma NextKeepsFresh(s: State, step: Step, s': State)
    requires FreshJobs(s) && Next(s, step, s')
    ensures FreshJobs(s')
  {
    forall ch | 0 <= ch < |s'.channels|
      ensures InOrder(s'.channels[ch].fired, ch, s'.homes)
    {
      assert InOrder(s.channels[ch].fired, ch, s.homes);
    }
  }

  lemma NextKeepsInv(s: State, step: Step, s': State)
    requires Inv(s) && Next(s, step, s')
    ensures Inv(s')
  {
    NextKeepsFits(s, step, s');
    NextKeepsOneWorker(s, step, s');
    NextKeepsUp(s, step, s');
    NextKeepsFresh(s, step, s');
  }

  lemma {:induction false} RunKeepsInv(run: seq<State>, i: nat)
    requires IsRun(run) && i < |run|
    ensures Inv(run[i])
  {
    if i > 0 {
      RunKeepsInv(run, i - 1);
      assert 0 <= i - 1 < |run| - 1;
      var step :| Next(run[i - 1], step, run[i]);
      NextKeepsInv(run[i - 1], step, run[i]);
    }
  }

  // ---------------------------------------------------------------- main results

  /** Every channel has at most one worker, and its jobs run in the order their timers
      fired: fired = completed, then the one in hand, then the queued ones. Without a
      worker nothing has run, and every fired job is still queued. */
  lemma JobsRunInOrder(run: seq<State>, i: nat, ch: nat)
    requires IsRun(run) && i < |run| && ch < CHANNEL_COUNT
    ensures var s := run[i];
            && ch < |s.channels|
            && (forall v, w :: 0 <= v < w < |s.workers| ==> s.workers[v].ch != s.workers[w].ch)
            && (forall w :: 0 <= w < |s.workers| && s.workers[w].ch == ch ==>
                  s.channels[ch].fired == s.channels[ch].completed + InHand(s.workers[w].phase) + s.channels[ch].queued)
            && ((forall w :: 0 <= w < |s.workers| ==> s.workers[w].ch != ch) ==>
                  s.channels[ch].completed == [] && s.channels[ch].fired == s.channels[ch].queued)
  {
    RunKeepsInv(run, i);
    var s := run[i];
    assert ChannelFits(s, ch);
    forall w | 0 <= w < |s.workers| && s.workers[w].ch == ch
      ensures s.channels[ch].fired == s.channels[ch].completed + InHand(s.workers[w].phase) + s.channels[ch].queued
    {
      assert WorkerFits(s, w);
    }
  }

  /** No job fires, and therefore none runs, on two channels or twice on one. */
  lemma JobsAreDistinct(run: seq<State>, i: nat, c: nat, d: nat, j: nat, k: nat)
    requires IsRun(run) && i < |run| && c < |run[i].channels| && d < |run[i].channels|
    requires j < |run[i].channels[c].fired| && k < |run[i].channels[d].fired| && (c != d || j != k)
    ensures run[i].channels[c].fired[j] != run[i].channels[d].fired[k]
  {
    RunKeepsInv(run, i);
    assert InOrder(run[i].channels[c].fired, c, run[i].homes);
    assert InOrder(run[i].channels[d].fired, d, run[i].homes);
  }

  /** Inside the vendor a worker is alone on its channel: no other worker and nobody else
      who takes the channel mutex is inside with it. */
  lemma RunsAlone(run: seq<State>, i: nat, w: nat)
    requires IsRun(run) && i < |run| && w < |run[i].workers| && run[i].workers[w].phase.Running?
    ensures var s := run[i];
            && s.workers[w].ch < |s.channels| && s.channels[s.workers[w].ch].owner == ByWorker(w)
            && forall v :: 0 <= v < |s.workers| && v != w && s.workers[v].phase.Running? ==>
                 s.workers[v].ch != s.workers[w].ch
  {
    RunKeepsInv(run, i);
    assert WorkerFits(run[i], w);
  }

  /** No worker sleeps while its queue holds a job, although all workers share one
      condition variable. */
  lemma NoWorkerSleepsOnAJob(run: seq<State>, i: nat, w: nat)
    requires IsRun(run) && i < |run| && w < |run[i].workers| && run[i].workers[w].phase.Parked?
    ensures run[i].workers[w].ch < |run[i].channels| && run[i].channels[run[i].workers[w].ch].queued == []
  {
    RunKeepsInv(run, i);
    assert WorkerFits(run[i], w);
  }

  predicate HasWorker(s: State, ch: nat) {
    exists w :: 0 <= w < |s.workers| && s.workers[w].ch == ch
  }

  /** A timer that fires puts its job behind the others of its channel, wakes every worker,
      and starts a worker for the channel iff it has none and pthread_create succeeds. */
  lemma FiringStartsAWorker(run: seq<State>, i: nat, ch: nat, created: bool, s': State)
    requires IsRun(run) && i < |run| && Next(run[i], Fire(ch, created), s')
    ensures var s := run[i];
            && ch < |s.channels| == |s'.channels| && s'.channels[ch].queued == s.channels[ch].queued + [|s.homes|]
            && (HasWorker(s', ch) <==> HasWorker(s, ch) || created)
            && (s'.channels[ch].up <==> HasWorker(s', ch))
            && (forall d :: 0 <= d < |s.channels| && d != ch ==>
                  s'.channels[d] == s.channels[d] && (HasWorker(s', d) <==> HasWorker(s, d)))
            && (forall w :: 0 <= w < |s'.workers| ==> !s'.workers[w].phase.Parked?)
  {
    RunKeepsInv(run, i);
    var s := run[i];
    NextKeepsInv(s, Fire(ch, created), s');
    UpIffWorker(s, ch);
    UpIffWorker(s', ch);
    forall d | 0 <= d < |s.channels| && d != ch ensures HasWorker(s', d) <==> HasWorker(s, d) {
      UpIffWorker(s, d);
      UpIffWorker(s', d);
    }
  }

  lemma UpIffWorker(s: State, ch: nat)
    requires Inv(s) && ch < |s.channels|
    ensures s.channels[ch].up <==> HasWorker(s, ch)
  {
    if HasWorker(s, ch) {
      var w :| 0 <= w < |s.workers| && s.workers[w].ch == ch;
      assert WorkerFits(s, w);
    }
  }

  /** What a worker does next. */
  function NextOf(s: State, w: nat): Step
    requires w < |s.workers| && s.workers[w].ch < |s.channels|
  {
    match s.workers[w].phase
    case Holding(_) => Lock(w)
    case Running(_) => Finish(w)
    case _ => if s.channels[s.workers[w].ch].queued == [] then Park(w) else Take(w)
  }

  /** No fired job is forgotten: while some job of a channel is not completed, its worker is
      awake, and can go on unless somebody else has the channel mutex; it completes the jobs
      in the order in which their timers fired. */
  lemma WorkerGoesOn(run: seq<State>, i: nat, w: nat) returns (s': State)
    requires IsRun(run) && i < |run| && w < |run[i].workers| && run[i].workers[w].ch < |run[i].channels|
    requires var c := run[i].channels[run[i].workers[w].ch]; c.fired != c.completed && c.owner != ByOther
    ensures Next(run[i], NextOf(run[i], w), s') && !NextOf(run[i], w).Park?
    ensures var c, c' := run[i].channels[run[i].workers[w].ch], s'.channels[run[i].workers[w].ch];
            if run[i].workers[w].phase.Running?
            then |c.completed| < |c.fired| && c'.completed == c.fired[..|c.completed| + 1]
            else c'.completed == c.completed
  {
    RunKeepsInv(run, i);
    var s := run[i];
    assert WorkerFits(s, w);
    var ch, x := s.workers[w].ch, s.workers[w];
    var c := s.channels[ch];
    assert ChannelFits(s, ch);
    assert c.owner.ByWorker? ==> c.owner.w == w;
    match x.phase
    case Holding(job) =>
      s' := s.(channels := s.channels[ch := c.(owner := ByWorker(w))],
               workers := s.workers[w := Worker(ch, Running(job))]);
    case Running(job) =>
      s' := s.(channels := s.channels[ch := c.(owner := Free, completed := c.completed + [job])],
               workers := s.workers[w := Worker(ch, Checking)]);
    case Checking =>
      s' := s.(channels := s.channels[ch := c.(queued := c.queued[1..])],
               workers := s.workers[w := Worker(ch, Holding(c.queued[0]))]);
    case Parked =>
  }

  // ---------------------------------------------------------------- the queues in place

  class Job {
    ghost const id: nat
    const ch: nat
    var next: Job?

    constructor (ch: nat, ghost id: nat)
      ensures this.ch == ch && this.id == id
    {
      this.ch, this.id, next := ch, id, null;
    }
  }

  /** s_proxyQHead, s_proxyQTail and s_proxyWorkerUp. Each method is one step of the
      machine; `items[ch]` are the nodes reachable from the head of channel `ch`. */
  class Queues {
    const heads: array<Job?>
    const tails: array<Job?>
    const workerUp: array<bool>
    ghost var items: seq<seq<Job>>
    ghost var nodes: set<Job>

    /** The list of a channel: head and tail are null together, the tail is the last node
        reachable from the head. */
    ghost predicate Linked(ch: nat)
      requires ch < |items| && ch < heads.Length && ch < tails.Length
      reads this, heads, tails, nodes
    {
      var q := items[ch];
      && (forall i :: 0 <= i < |q| ==> q[i] in nodes && q[i].ch == ch)
      && (forall i, j :: 0 <= i < j < |q| ==> q[i] != q[j])
      && (heads[ch] == null <==> q == []) && (tails[ch] == null <==> q == [])
      && (q != [] ==> heads[ch] == q[0] && tails[ch] == q[|q| - 1] && q[|q| - 1].next == null)
      && (forall i {:trigger q[i].next} :: 0 <= i < |q| - 1 ==> q[i].next == q[i + 1])
    }

    ghost predicate Valid()
      reads this, heads, tails, nodes
    {
      && heads.Length == tails.Length == workerUp.Length == |items| == CHANNEL_COUNT && heads != tails
      && forall ch :: 0 <= ch < CHANNEL_COUNT ==> Linked(ch)
    }

    ghost predicate Shows(s: State)
      reads this, heads, tails, workerUp, nodes
    {
      && Valid() && |s.channels| == CHANNEL_COUNT
      && (forall ch :: 0 <= ch < CHANNEL_COUNT ==>
            && workerUp[ch] == s.channels[ch].up
            && |s.channels[ch].queued| == |items[ch]|
            && forall i :: 0 <= i < |items[ch]| ==> items[ch][i].id == s.channels[ch].queued[i])
    }

    constructor ()
      ensures Valid() && fresh(heads) && fresh(tails) && fresh(workerUp) && nodes == {}
      ensures forall s :: Init(s) ==> Shows(s)
    {
      heads := new Job?[CHANNEL_COUNT](_ => null);
      tails := new Job?[CHANNEL_COUNT](_ => null);
      workerUp := new bool[CHANNEL_COUNT](_ => false);
      items, nodes := seq(CHANNEL_COUNT, _ => []), {};
    }

    /** The linking in mtkProxyTimerFired. */
    method Append(job: Job)
      requires Valid() && job !in nodes && job.ch < CHANNEL_COUNT
      modifies this`items, this`nodes, heads, tails, nodes`next, {job}`next
      ensures Valid() && nodes == old(nodes) + {job}
      ensures items == old(items)[job.ch := old(items)[job.ch] + [job]]
    {
      var ch := job.ch;
      assert Linked(ch);
      job.next := null;
      if tails[ch] != null {
        tails[ch].next := job;
      } else {
        heads[ch] := job;
      }
      tails[ch] := job;
      items, nodes := items[ch := items[ch] + [job]], nodes + {job};
      forall d | 0 <= d < CHANNEL_COUNT ensures Linked(d) {
        assert old(Linked(d));
      }
    }

    /** mtkProxyTimerFired; `created` says whether pthread_create succeeds, and `started`
        whether it was called and did. */
    method ProxyTimerFired(job: Job, created: bool, ghost s: State) returns (started: bool, ghost s': State)
      requires Shows(s) && job !in nodes && job.ch < CHANNEL_COUNT && job.id == |s.homes|
      modifies this`items, this`nodes, heads, tails, workerUp, nodes`next, {job}`next
      ensures Shows(s') && Next(s, Fire(job.ch, created), s')
      ensures workerUp[..] == old(workerUp[..])[job.ch := old(workerUp[job.ch]) || created]
      ensures started == (!old(workerUp[job.ch]) && created)
      ensures |s'.workers| == |s.workers| + if started then 1 else 0
      ensures started ==> s'.workers[|s.workers|] == Worker(job.ch, Checking)
      ensures items == old(items)[job.ch := old(items)[job.ch] + [job]]
    {
      s' := Fired(s, job.ch, created);
      Append(job);
      started := false;
      if !workerUp[job.ch] {
        if created {
          workerUp[job.ch], started := true, true;
        }
      }
    }

    /** The part of mtkProxyWorker under s_proxyQMutex: the oldest job of the channel, or
        null when the worker has to wait. */
    method TakeJob(ch: nat, ghost s: State, ghost w: nat) returns (job: Job?, ghost s': State)
      requires Shows(s) && ch < CHANNEL_COUNT
      requires w < |s.workers| && s.workers[w] == Worker(ch, Checking)
      modifies this`items, heads, tails
      ensures Shows(s') && Next(s, if job == null then Park(w) else Take(w), s')
      ensures job != null ==> s'.workers[w].phase == Holding(job.id)
      ensures job == null <==> old(items[ch]) == []
      ensures job == null ==> items == old(items)
      ensures job != null ==> old(items[ch]) == [job] + items[ch] && items == old(items)[ch := items[ch]]
    {
      assert Linked(ch);
      job := heads[ch];
      if job == null {
        s' := s.(workers := s.workers[w := Worker(ch, Parked)]);
        return;
      }
      heads[ch] := job.next;
      if heads[ch] == null {
        tails[ch] := null;
      }
      items := items[ch := items[ch][1..]];
      forall d | 0 <= d < CHANNEL_COUNT ensures Linked(d) {
        assert old(Linked(d));
      }
      s' := s.(channels := s.channels[ch := s.channels[ch].(queued := s.channels[ch].queued[1..])],
               workers := s.workers[w := Worker(ch, Holding(job.id))]);
    }
  }
}
