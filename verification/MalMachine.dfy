/** The asynchronous side of a MAL request: the server thread inside malDispatch, and the
    vendor, whose threads may complete an attempt inside onRequest, during the wait, after
    the timeout, or never. A completion first finds its slot, outside s_malDoneMutex, and
    fills it later; anything may happen in between. */
module MalMachine {
  import opened Bytes
  import opened MalFraming
  import opened MalTable
  import opened Wrappers

  /** A request as it arrived, and an answer as it was sent. */
  datatype Query = Query(conn: nat, simId: U32, serial: U32)

  datatype Reply = Reply(conn: Option<nat>, answer: Answer)

  /** One call of onRequest. */
  datatype Attempt = Attempt(token: nat, n: nat)

  datatype Pc =
    | NoClient        // in accept
    | Ready           // about to read the next frame
    | Claimed         // a slot is marked in use
    | Attempting      // about to clear `done` for attempt `attempt`
    | Reset           // about to call onRequest
    | InVendor        // inside onRequest
    | Waiting         // in pthread_cond_timedwait
    | Decided         // timedOut and err are read
    | Collecting      // the retry loop is left
    | Sending         // the answer is taken out of the slot
    | Answered        // the answer is sent
    | Cleared         // the token is out of the slot
    | Freed           // the token is freed, or leaked

  datatype State = State(
    slots: seq<Slot>,
    pc: Pc,
    // the locals of malDispatch
    cur: Query, slot: nat, token: nat, attempt: nat, err: U32, timedOut: bool, answer: Answer,
    // malServerLoop
    client: Option<nat>, nextConn: nat,
    // the vendor: attempts it may still complete, and completions that have found a slot
    // and not filled it
    nextToken: nat, outstanding: set<Attempt>, matched: map<Attempt, nat>,
    // history: all completions, whose completion the slot holds, freed tokens, traffic
    completed: map<Attempt, Completion>, filledBy: Option<Attempt>, freed: set<nat>,
    requests: seq<Query>, answers: seq<Reply>)

  datatype Step =
    | Accept | Disconnect
    | Refuse(simId: U32, serial: U32)
    | Begin(simId: U32, serial: U32)
    | SetToken | ClearDone | Call | Return
    | WakeDone | WakeTimeout
    | Decide | Collect | Send | ClearToken | FreeToken | Release
    | Match(a: Attempt, c: Completion)   // RIL_onRequestComplete, up to the end of malClaim
    | Park(a: Attempt)                   // malComplete

  function Update(s: State, slot: Slot, pc: Pc): State
    requires s.slot < |s.slots|
  {
    s.(slots := s.slots[s.slot := slot], pc := pc)
  }

  function Failure(simId: U32, serial: U32): Answer {
    Answer(simId, serial, GENERIC_FAILURE, [])
  }

  /** malServerLoop, up to the choice of a slot in malDispatch. */
  predicate FrameNext(s: State, step: Step, s': State) {
    match step
    case Accept =>
      s.pc.NoClient? && s' == s.(client := Some(s.nextConn), nextConn := s.nextConn + 1, pc := Ready)
    case Disconnect => s.pc.Ready? && s' == s.(client := None, pc := NoClient)
    case Refuse(simId, serial) =>
      s.pc.Ready? && s.client.Some? &&
      s' == s.(requests := s.requests + [Query(s.client.value, simId, serial)],
               answers := s.answers + [Reply(s.client, Failure(simId, serial))])
    case Begin(simId, serial) =>
      s.pc.Ready? && s.client.Some? &&
      var q := Query(s.client.value, simId, serial);
      var i := FreeSlot(s.slots);
      s' == if i < 0
        then s.(requests := s.requests + [q], answers := s.answers + [Reply(s.client, Failure(simId, serial))])
        else s.(requests := s.requests + [q], cur := q, slot := i,
                slots := s.slots[i := s.slots[i].(inUse := true)], pc := Claimed)
    case _ => false
  }

  /** malDispatch, once it has a slot. */
  predicate DispatchNext(s: State, step: Step, s': State) {
    && s.slot < |s.slots|
    && var mine := s.slots[s.slot];
    match step
    case SetToken =>
      s.pc.Claimed? &&
      s' == Update(s, Slot(mine.inUse, Some(s.nextToken), false, 0, []), Attempting)
              .(token := s.nextToken, nextToken := s.nextToken + 1, attempt := 1, filledBy := None)
    case ClearDone => s.pc.Attempting? && s' == Update(s, mine.(done := false), Reset)
    case Call =>
      s.pc.Reset? &&
      s' == s.(outstanding := s.outstanding + {Attempt(s.token, s.attempt)}, pc := InVendor)
    case Return => s.pc.InVendor? && s' == s.(pc := Waiting)
    case WakeDone => s.pc.Waiting? && mine.done && s' == s.(timedOut := false, err := mine.err, pc := Decided)
    case WakeTimeout => s.pc.Waiting? && s' == s.(timedOut := !mine.done, err := mine.err, pc := Decided)
    case Decide =>
      s.pc.Decided? &&
      s' == if s.timedOut || s.err == 0 || s.attempt >= MAX_ATTEMPTS then s.(pc := Collecting)
            else s.(attempt := s.attempt + 1, pc := Attempting)
    case Collect =>
      s.pc.Collecting? &&
      s' == Update(s, mine.(text := []), Sending)
              .(answer := Answer(s.cur.simId, s.cur.serial,
                                 if s.timedOut then GENERIC_FAILURE else mine.err, mine.text))
    case Send => s.pc.Sending? && s' == s.(answers := s.answers + [Reply(s.client, s.answer)], pc := Answered)
    case ClearToken => s.pc.Answered? && s' == Update(s, mine.(token := None), Cleared)
    case FreeToken =>
      s.pc.Cleared? && s' == s.(freed := if s.timedOut then s.freed else s.freed + {s.token}, pc := Freed)
    case Release => s.pc.Freed? && s' == Update(s, mine.(inUse := false), Ready)
    case _ => false
  }

  /** RIL_onRequestComplete for a MAL token, on any thread of the vendor. */
  predicate VendorNext(s: State, step: Step, s': State) {
    match step
    case Match(a, c) =>
      a in s.outstanding &&
      var i := Claim(s.slots, a.token);
      s' == s.(outstanding := s.outstanding - {a}, completed := s.completed[a := c],
               matched := if i < 0 then s.matched else s.matched[a := i])
    case Park(a) =>
      a in s.matched && s.matched[a] < |s.slots| && a in s.completed &&
      s' == s.(slots := Fill(s.slots, s.matched[a], s.completed[a]), filledBy := Some(a), matched := s.matched - {a})
    case _ => false
  }

  predicate Next(s: State, step: Step, s': State) {
    FrameNext(s, step, s') || DispatchNext(s, step, s') || VendorNext(s, step, s')
  }

  predicate Init(s: State) {
    && s.slots == seq(MAX_INFLIGHT, _ => EMPTY) && s.slot == 0 && s.pc == NoClient && s.client == None
    && s.nextToken == 0 && s.outstanding == {} && s.matched == map[] && s.completed == map[]
    && s.filledBy == None && s.freed == {} && s.requests == [] && s.answers == []
  }

  ghost predicate Steps(s: State, s': State) {
    exists step :: Next(s, step, s')
  }

  ghost predicate IsRun(run: seq<State>) {
    && run != [] && Init(run[0])
    && forall i :: 0 <= i < |run| - 1 ==> Steps(run[i], run[i + 1])
  }

  // ---------------------------------------------------------------- when the slot is one's own

  predicate HasToken(s: State) {
    match s.pc
    case NoClient => false
    case Ready => false
    case Claimed => false
    case Cleared => false
    case Freed => false
    case _ => true
  }

  /** A completion of one request fills the slot while another request is using it. */
  predicate Late(s: State, a: Attempt) {
    HasToken(s) && a.token != s.token
  }

  ghost predicate LateFill(s: State, s': State) {
    exists a :: Next(s, Park(a), s') && Late(s, a)
  }

  /** No completion that found the slot for one request fills it during a later one. */
  ghost predicate InTime(run: seq<State>) {
    forall i :: 0 <= i < |run| - 1 ==> !LateFill(run[i], run[i + 1])
  }

  /** What the slot holds was put there by an attempt of the request that uses it. */
  predicate Owned(s: State) {
    HasToken(s) && s.filledBy.Some? ==> s.filledBy.value.token == s.token
  }

  // ---------------------------------------------------------------- what the other steps keep

  /** Only the first slot is ever used, and its token is in it exactly while malDispatch
      works with it. */
  predicate Table(s: State) {
    && |s.slots| == MAX_INFLIGHT && s.slot == 0
    && (forall i :: 0 < i < MAX_INFLIGHT ==> s.slots[i] == EMPTY)
    && (s.slots[0].inUse <==> !(s.pc.NoClient? || s.pc.Ready?))
    && s.slots[0].token == (if HasToken(s) then Some(s.token) else None)
    && (forall a :: a in s.matched ==> s.matched[a] == 0 && a in s.completed)
  }

  /** Ten attempts at most. */
  predicate Counted(s: State) {
    && (Alive(s) ==> 1 <= s.attempt <= MAX_ATTEMPTS)
    && (forall a :: a in s.outstanding ==> 1 <= a.n <= MAX_ATTEMPTS)
    && (forall a :: a in s.completed ==> 1 <= a.n <= MAX_ATTEMPTS)
  }

  /** The token of the running request, which is not freed yet. */
  predicate Alive(s: State) {
    HasToken(s) || s.pc.Cleared?
  }

  /** The vendor or one of its completions is still busy with the attempt. */
  predicate Busy(s: State, a: Attempt) {
    a in s.outstanding || a in s.matched
  }

  /** Tokens are fresh, and the running request's token is not freed. */
  ghost predicate Tokens(s: State) {
    && (Alive(s) || s.pc.Freed? ==> s.token < s.nextToken)
    && (Alive(s) ==> s.token !in s.freed)
    && (forall t :: t in s.freed ==> t < s.nextToken)
    && (forall a :: Busy(s, a) || a in s.completed ==> a.token < s.nextToken)
  }

  /** No freed token has an attempt that is still busy. */
  ghost predicate NoneFreed(s: State) {
    forall a :: Busy(s, a) ==> a.token !in s.freed
  }

  /** At most one attempt per token is busy, and no outstanding one is completed. */
  ghost predicate OneEach(s: State) {
    && (forall a :: a in s.outstanding ==> a !in s.completed)
    && (forall a, b :: Busy(s, a) && Busy(s, b) && a.token == b.token ==> a == b)
  }

  /** The attempt that the running request is about to make, waits for, or just got. */
  function Mine(s: State): Attempt {
    Attempt(s.token, s.attempt)
  }

  predicate Failed(completed: map<Attempt, Completion>, a: Attempt) {
    a in completed && completed[a].err != 0
  }

  /** Every attempt of the running request before the current one failed. */
  ghost predicate Earlier(s: State) {
    Alive(s) ==>
      forall n {:trigger Attempt(s.token, n)} :: 1 <= n < s.attempt ==> Failed(s.completed, Attempt(s.token, n))
  }

  /** The running request has no attempt after the current one. */
  predicate NoneAfter(s: State) {
    Alive(s) ==> forall a :: a in s.completed && a.token == s.token ==> 1 <= a.n <= s.attempt
  }

  /** Only its current attempt may be busy. */
  ghost predicate OnlyMine(s: State) {
    Alive(s) ==> forall a :: Busy(s, a) && a.token == s.token ==> a == Mine(s)
  }

  ghost predicate Confined(s: State) {
    NoneAfter(s) && OnlyMine(s)
  }

  predicate Holds(slot: Slot, c: Completion) {
    slot.err == c.err && slot.text == Text(c.response)
  }

  /** The current attempt is completed, and its completion is in the slot. */
  predicate Landed(s: State)
    requires |s.slots| > 0
  {
    && !Busy(s, Mine(s)) && Mine(s) in s.completed && s.slots[0].done
    && Holds(s.slots[0], s.completed[Mine(s)])
  }

  predicate InFlight(s: State)
    requires |s.slots| > 0
  {
    Landed(s) || (Busy(s, Mine(s)) && !s.slots[0].done)
  }

  /** Before its call the current attempt is neither busy nor completed; from its call on
      it is in flight. */
  predicate Current(s: State)
    requires |s.slots| > 0
  {
    && (s.pc.Attempting? || s.pc.Reset? ==> !Busy(s, Mine(s)) && Mine(s) !in s.completed)
    && (s.pc.Reset? ==> !s.slots[0].done)
    && (s.pc.InVendor? || s.pc.Waiting? ==> InFlight(s))
    && (s.pc.Decided? || s.pc.Collecting? ==>
          if s.timedOut then InFlight(s) else Landed(s) && s.err == s.slots[0].err)
  }

  /** The answer is the completion of the current attempt. */
  predicate IsAnswer(s: State) {
    && Mine(s) in s.completed && s.answer.err == s.completed[Mine(s)].err
    && s.answer.text == Text(s.completed[Mine(s)].response)
  }

  /** Why the retry loop was left, and what is answered. */
  predicate Verdict(s: State) {
    && (s.pc.Collecting? && !s.timedOut ==> s.err == 0 || s.attempt == MAX_ATTEMPTS)
    && (s.pc.Sending? || s.pc.Answered? || s.pc.Cleared? ==>
          if s.timedOut then s.answer.err == GENERIC_FAILURE
          else !Busy(s, Mine(s)) && IsAnswer(s) && (s.answer.err == 0 || s.attempt == MAX_ATTEMPTS))
  }

  /** A text in the slot, or on its way to the client, is one that the vendor returned for
      this very request. */
  predicate OwnText(s: State, text: seq<Byte>) {
    text == [] || exists n :: 1 <= n <= s.attempt && Attempt(s.token, n) in s.completed
                              && Text(s.completed[Attempt(s.token, n)].response) == text
  }

  predicate Texts(s: State) {
    && |s.slots| > 0
    && (HasToken(s) ==> OwnText(s, s.slots[0].text))
    && (s.pc.Sending? || s.pc.Answered? ==> OwnText(s, s.answer.text))
  }

  predicate Echoes(a: Answer, q: Query) {
    a.simId == q.simId && a.serial == q.serial
  }

  predicate Answers(r: Reply, q: Query) {
    r.conn == Some(q.conn) && Echoes(r.answer, q)
  }

  /** Whether the running request still has to be answered. */
  predicate Owes(s: State) {
    match s.pc
    case NoClient => false
    case Ready => false
    case Answered => false
    case Cleared => false
    case Freed => false
    case _ => true
  }

  predicate Served(s: State) {
    && |s.requests| == |s.answers| + (if Owes(s) then 1 else 0)
    && (forall i :: 0 <= i < |s.answers| ==> Answers(s.answers[i], s.requests[i]))
    && (Owes(s) ==> s.cur == s.requests[|s.requests| - 1])
    && (s.pc.Sending? ==> Echoes(s.answer, s.cur))
    && (if s.pc.NoClient? then s.client == None else s.client.Some?)
    && (s.pc.Ready? || s.pc.NoClient? || s.client == Some(s.cur.conn))
  }

  /** The answer was sent to the client. */
  predicate SentIt(s: State) {
    s.pc.Answered? ==> s.answers != [] && s.answers[|s.answers| - 1] == Reply(s.client, s.answer)
  }

  ghost predicate Inv(s: State) {
    && Owned(s) && Table(s) && Counted(s) && Tokens(s) && NoneFreed(s) && OneEach(s)
    && Earlier(s) && Confined(s) && Current(s) && Verdict(s) && Texts(s) && Served(s) && SentIt(s)
  }

  lemma ClaimIsMine(s: State, token: nat)
    requires Table(s)
    ensures Claim(s.slots, token) == if HasToken(s) && token == s.token then 0 else -1
  {
    assert Matches(s.slots[0], token) <==> HasToken(s) && token == s.token;
  }

  lemma FirstIsFree(s: State)
    requires Table(s) && s.pc.Ready?
    ensures FreeSlot(s.slots) == 0
  {
  }

  predicate Harmless(s: State, step: Step) {
    step.Park? ==> !Late(s, step.a)
  }

  lemma FrameKeepsTable(s: State, step: Step, s': State)
    requires Table(s) && FrameNext(s, step, s')
    ensures Table(s') && !HasToken(s') && !s'.pc.Cleared? && !s'.pc.Freed?
  {
    if step.Begin? { FirstIsFree(s); }
  }

  lemma FrameKeepsServed(s: State, step: Step, s': State)
    requires Table(s) && Served(s) && FrameNext(s, step, s')
    ensures Served(s')
  {
    if step.Begin? { FirstIsFree(s); }
  }

  /** Without a token there is little to keep. */
  lemma FrameKeepsInv(s: State, step: Step, s': State)
    requires Inv(s) && FrameNext(s, step, s')
    ensures Inv(s')
  {
    FrameKeepsTable(s, step, s');
    FrameKeepsServed(s, step, s');
    assert forall a :: Busy(s', a) <==> Busy(s, a);
  }

  /** What malClaim adds: only the running request's attempt finds the slot. */
  lemma MatchEffect(s: State, a: Attempt, c: Completion, s': State)
    requires Table(s) && VendorNext(s, Match(a, c), s')
    ensures s'.slots == s.slots && s'.outstanding == s.outstanding - {a} && s'.completed == s.completed[a := c]
    ensures s'.matched == if HasToken(s) && a.token == s.token then s.matched[a := 0] else s.matched
    ensures forall b :: Busy(s', b) ==> Busy(s, b)
    ensures HasToken(s) && a.token == s.token ==> forall b :: Busy(s', b) <==> Busy(s, b)
    ensures Table(s')
  {
    ClaimIsMine(s, a.token);
  }

  lemma DispatchKeepsTable(s: State, step: Step, s': State)
    requires Table(s) && DispatchNext(s, step, s')
    ensures Table(s')
  {
  }

  lemma DispatchKeepsCounted(s: State, step: Step, s': State)
    requires Counted(s) && DispatchNext(s, step, s')
    ensures Counted(s')
  {
  }

  lemma DispatchKeepsOwned(s: State, step: Step, s': State)
    requires Table(s) && DispatchNext(s, step, s')
    requires Owned(s)
    ensures Owned(s')
  {
  }

  lemma DispatchKeepsTokens(s: State, step: Step, s': State)
    requires Table(s) && DispatchNext(s, step, s')
    requires Counted(s)
    requires Tokens(s)
    ensures Tokens(s')
  {
  }

  lemma DispatchKeepsNoneFreed(s: State, step: Step, s': State)
    requires Table(s) && DispatchNext(s, step, s')
    requires Tokens(s) && NoneFreed(s) && Confined(s) && Verdict(s)
    ensures NoneFreed(s')
  {
  }

  lemma CallKeepsOneEach(s: State, s': State)
    requires s.pc.Reset? && OneEach(s) && OnlyMine(s) && !Busy(s, Mine(s)) && Mine(s) !in s.completed
    requires s' == s.(outstanding := s.outstanding + {Mine(s)}, pc := InVendor)
    ensures OneEach(s') == true
  {
    forall a, b | Busy(s', a) && Busy(s', b) && a.token == b.token ensures a == b {
      assert a == Mine(s) || Busy(s, a);
      assert b == Mine(s) || Busy(s, b);
    }
  }

  lemma SameVendorKeepsOneEach(s: State, s': State)
    requires OneEach(s) && s'.outstanding == s.outstanding && s'.matched == s.matched && s'.completed == s.completed
    ensures OneEach(s') == true
  {
  }

  lemma DispatchKeepsOneEach(s: State, step: Step, s': State)
    requires Table(s) && DispatchNext(s, step, s')
    requires OneEach(s) && Confined(s) && Current(s)
    ensures OneEach(s') == true
  {
    if step.Call? {
      CallKeepsOneEach(s, s');
    } else {
      SameVendorKeepsOneEach(s, s');
    }
  }

  lemma DispatchKeepsEarlier(s: State, step: Step, s': State)
    requires Table(s) && DispatchNext(s, step, s')
    requires Counted(s)
    requires Tokens(s) && Earlier(s) && Current(s)
    ensures Earlier(s')
  {
  }

  lemma DispatchKeepsNoneAfter(s: State, step: Step, s': State)
    requires Table(s) && DispatchNext(s, step, s')
    requires Counted(s)
    requires Tokens(s) && Confined(s) && Current(s)
    ensures NoneAfter(s')
  {
  }

  lemma DispatchKeepsOnlyMine(s: State, step: Step, s': State)
    requires Table(s) && DispatchNext(s, step, s')
    requires Counted(s)
    requires Tokens(s) && Confined(s) && Current(s)
    ensures OnlyMine(s')
  {
  }

  lemma DispatchKeepsCurrent(s: State, step: Step, s': State)
    requires Table(s) && DispatchNext(s, step, s')
    requires Counted(s)
    requires Tokens(s) && OneEach(s) && Confined(s) && Current(s)
    ensures |s'.slots| > 0 && Current(s')
  {
  }

  lemma DispatchKeepsVerdict(s: State, step: Step, s': State)
    requires Table(s) && DispatchNext(s, step, s')
    requires Counted(s)
    requires Tokens(s) && Current(s) && Verdict(s)
    ensures Verdict(s')
  {
  }

  lemma DispatchKeepsTexts(s: State, step: Step, s': State)
    requires Table(s) && DispatchNext(s, step, s')
    requires Counted(s)
    requires Tokens(s) && Texts(s)
    ensures Texts(s')
  {
  }

  lemma DispatchKeepsSent(s: State, step: Step, s': State)
    requires Table(s) && DispatchNext(s, step, s')
    requires SentIt(s)
    ensures SentIt(s')
  {
  }

  lemma DispatchKeepsServed(s: State, step: Step, s': State)
    requires Table(s) && DispatchNext(s, step, s')
    requires Served(s)
    ensures Served(s')
  {
  }

  lemma VendorKeepsTable(s: State, step: Step, s': State)
    requires Table(s) && VendorNext(s, step, s')
    ensures Table(s')
  {
    if step.Match? { MatchEffect(s, step.a, step.c, s'); }
  }

  lemma VendorKeepsCounted(s: State, step: Step, s': State)
    requires Counted(s) && Table(s) && VendorNext(s, step, s')
    ensures Counted(s')
  {
    if step.Match? { MatchEffect(s, step.a, step.c, s'); }
  }

  lemma VendorKeepsOwned(s: State, step: Step, s': State)
    requires Table(s) && VendorNext(s, step, s')
    requires Owned(s)
    ensures Owned(s') <==> Harmless(s, step)
  {
    if step.Match? { MatchEffect(s, step.a, step.c, s'); }
  }

  lemma VendorKeepsTokens(s: State, step: Step, s': State)
    requires Table(s) && VendorNext(s, step, s')
    requires Tokens(s)
    ensures Tokens(s')
  {
    if step.Match? { MatchEffect(s, step.a, step.c, s'); }
  }

  lemma VendorKeepsNoneFreed(s: State, step: Step, s': State)
    requires Table(s) && VendorNext(s, step, s')
    requires NoneFreed(s)
    ensures NoneFreed(s')
  {
    if step.Match? { MatchEffect(s, step.a, step.c, s'); }
  }

  lemma VendorKeepsOneEach(s: State, step: Step, s': State)
    requires Table(s) && VendorNext(s, step, s')
    requires OneEach(s)
    ensures OneEach(s')
  {
    if step.Match? { MatchEffect(s, step.a, step.c, s'); }
  }

  lemma VendorKeepsEarlier(s: State, step: Step, s': State)
    requires Table(s) && VendorNext(s, step, s')
    requires OneEach(s) && Earlier(s)
    ensures Earlier(s')
  {
    if step.Match? { MatchEffect(s, step.a, step.c, s'); }
  }

  lemma VendorKeepsConfined(s: State, step: Step, s': State)
    requires Table(s) && VendorNext(s, step, s')
    requires Counted(s)
    requires Tokens(s) && Confined(s)
    ensures Confined(s')
  {
    if step.Match? { MatchEffect(s, step.a, step.c, s'); }
  }

  lemma VendorKeepsCurrent(s: State, step: Step, s': State)
    requires Table(s) && VendorNext(s, step, s')
    requires Harmless(s, step) && OneEach(s) && Confined(s) && Current(s)
    ensures |s'.slots| > 0 && Current(s')
  {
    if step.Match? { MatchEffect(s, step.a, step.c, s'); }
  }

  lemma VendorKeepsVerdict(s: State, step: Step, s': State)
    requires Table(s) && VendorNext(s, step, s')
    requires OneEach(s) && Confined(s) && Verdict(s)
    ensures Verdict(s')
  {
    if step.Match? { MatchEffect(s, step.a, step.c, s'); }
  }

  lemma VendorKeepsTexts(s: State, step: Step, s': State)
    requires Table(s) && VendorNext(s, step, s')
    requires Counted(s)
    requires Harmless(s, step) && OneEach(s) && Confined(s) && Texts(s)
    ensures Texts(s')
  {
    if step.Match? { MatchEffect(s, step.a, step.c, s'); }
  }

  lemma VendorKeepsSent(s: State, step: Step, s': State)
    requires Table(s) && VendorNext(s, step, s')
    requires SentIt(s)
    ensures SentIt(s')
  {
    if step.Match? { MatchEffect(s, step.a, step.c, s'); }
  }

  lemma VendorKeepsServed(s: State, step: Step, s': State)
    requires Table(s) && VendorNext(s, step, s')
    requires Served(s)
    ensures Served(s')
  {
    if step.Match? { MatchEffect(s, step.a, step.c, s'); }
  }

  lemma DispatchKeepsInv(s: State, step: Step, s': State)
    requires Inv(s) && DispatchNext(s, step, s')
    ensures Inv(s')
  {
    DispatchKeepsTable(s, step, s');
    DispatchKeepsCounted(s, step, s');
    DispatchKeepsOwned(s, step, s');
    DispatchKeepsTokens(s, step, s');
    DispatchKeepsNoneFreed(s, step, s');
    DispatchKeepsOneEach(s, step, s');
    DispatchKeepsEarlier(s, step, s');
    DispatchKeepsNoneAfter(s, step, s');
    DispatchKeepsOnlyMine(s, step, s');
    DispatchKeepsCurrent(s, step, s');
    DispatchKeepsVerdict(s, step, s');
    DispatchKeepsTexts(s, step, s');
    DispatchKeepsServed(s, step, s');
    DispatchKeepsSent(s, step, s');
  }

  lemma VendorKeepsInv(s: State, step: Step, s': State)
    requires Inv(s) && VendorNext(s, step, s') && Harmless(s, step)
    ensures Inv(s')
  {
    VendorKeepsTable(s, step, s');
    VendorKeepsCounted(s, step, s');
    VendorKeepsOwned(s, step, s');
    VendorKeepsTokens(s, step, s');
    VendorKeepsNoneFreed(s, step, s');
    VendorKeepsOneEach(s, step, s');
    VendorKeepsEarlier(s, step, s');
    VendorKeepsConfined(s, step, s');
    VendorKeepsCurrent(s, step, s');
    VendorKeepsVerdict(s, step, s');
    VendorKeepsTexts(s, step, s');
    VendorKeepsServed(s, step, s');
    VendorKeepsSent(s, step, s');
  }

  /** The exact condition. From a state in which everything holds, a step keeps everything
      iff it is not the late fill of another request; and a late fill loses at least the
      ownership of the slot. */
  lemma StepKeepsAllIffNotLate(s: State, step: Step, s': State)
    requires Inv(s) && Next(s, step, s')
    ensures Inv(s') <==> !(step.Park? && Late(s, step.a))
    ensures Owned(s') <==> !(step.Park? && Late(s, step.a))
  {
    if FrameNext(s, step, s') {
      FrameKeepsInv(s, step, s');
    } else if DispatchNext(s, step, s') {
      DispatchKeepsInv(s, step, s');
    } else {
      VendorKeepsOwned(s, step, s');
      if Harmless(s, step) {
        VendorKeepsInv(s, step, s');
      }
    }
  }

  lemma {:induction false} RunKeepsInv(run: seq<State>, i: nat)
    requires IsRun(run) && InTime(run) && i < |run|
    ensures Inv(run[i])
  {
    if i > 0 {
      RunKeepsInv(run, i - 1);
      assert Steps(run[i - 1], run[i - 1 + 1]) && !LateFill(run[i - 1], run[i - 1 + 1]);
      var step :| Next(run[i - 1], step, run[i]);
      StepKeepsAllIffNotLate(run[i - 1], step, run[i]);
    }
  }

  // ---------------------------------------------------------------- main results

  lemma LateFillDisowns(s: State, s': State)
    requires LateFill(s, s')
    ensures !Owned(s')
  {
    var a :| Next(s, Park(a), s') && Late(s, a);
  }

  /** The slot belongs to the running request in every state of a run iff no completion
      that found the slot for one request fills it during a later one. */
  lemma OwnedIffInTime(run: seq<State>)
    requires IsRun(run)
    ensures (forall i :: 0 <= i < |run| ==> Owned(run[i])) <==> InTime(run)
  {
    if InTime(run) {
      forall i | 0 <= i < |run| ensures Owned(run[i]) {
        RunKeepsInv(run, i);
      }
    }
    if !InTime(run) {
      var i :| 0 <= i < |run| - 1 && LateFill(run[i], run[i + 1]);
      LateFillDisowns(run[i], run[i + 1]);
    }
  }

  /** At most one attempt per token is busy in the vendor, at most ten attempts were made
      for the running request, and no busy attempt has a freed token: the blob never
      completes a token that was given back. */
  lemma AtMostOneOutstanding(run: seq<State>, i: nat)
    requires IsRun(run) && InTime(run) && i < |run|
    ensures var s := run[i];
            && (forall a, b :: Busy(s, a) && Busy(s, b) && a.token == b.token ==> a == b)
            && (forall a :: Busy(s, a) ==> a.token !in s.freed)
            && (Alive(s) ==> forall a :: (Busy(s, a) || a in s.completed) && a.token == s.token ==>
                  1 <= a.n <= s.attempt <= MAX_ATTEMPTS)
  {
    RunKeepsInv(run, i);
  }

  /** No stale answer: a completion finds the slot iff its token is that of the running
      request, and then it is the completion of the current attempt. In particular the
      completion of an earlier, timed-out request finds no slot once the token is cleared. */
  lemma StaleCompletionIsIgnored(run: seq<State>, i: nat, a: Attempt, c: Completion, s': State)
    requires IsRun(run) && InTime(run) && i < |run| && Next(run[i], Match(a, c), s')
    ensures s'.slots == run[i].slots
    ensures a in s'.matched <==> HasToken(run[i]) && a.token == run[i].token
    ensures a in s'.matched ==> a == Mine(run[i])
  {
    RunKeepsInv(run, i);
    ClaimIsMine(run[i], a.token);
  }

  /** A completion that arrives before the wait, or during it, is never lost: when it has
      filled the slot, the slot holds it until the server thread looks; before that the
      attempt is still busy, and `done` is not set. */
  lemma CompletionIsNotLost(run: seq<State>, i: nat)
    requires IsRun(run) && InTime(run) && i < |run| && (run[i].pc.InVendor? || run[i].pc.Waiting?)
    ensures var s := run[i];
            s.slot < |s.slots| &&
            if Busy(s, Mine(s)) then !s.slots[s.slot].done
            else s.slots[s.slot].done && Mine(s) in s.completed && Holds(s.slots[s.slot], s.completed[Mine(s)])
  {
    RunKeepsInv(run, i);
  }

  /** What is answered: all attempts but the last failed, and either the last one timed
      out, and the answer is GENERIC_FAILURE, or the answer is its completion, which is a
      success unless it was the tenth. A text always comes from this request's attempts.
      And this is what the client is sent. */
  lemma AnswerIsTheLastAttempt(run: seq<State>, i: nat)
    requires IsRun(run) && InTime(run) && i < |run| && (run[i].pc.Sending? || run[i].pc.Answered?)
    ensures var s := run[i];
            && (s.pc.Answered? ==> s.answers != [] && s.answers[|s.answers| - 1] == Reply(s.client, s.answer))
            && 1 <= s.attempt <= MAX_ATTEMPTS
            && (forall n {:trigger Attempt(s.token, n)} :: 1 <= n < s.attempt ==>
                  Failed(s.completed, Attempt(s.token, n)))
            && (if s.timedOut then s.answer.err == GENERIC_FAILURE
                else IsAnswer(s) && (s.answer.err == 0 || s.attempt == MAX_ATTEMPTS))
            && OwnText(s, s.answer.text)
  {
    RunKeepsInv(run, i);
  }

  /** The wait times out iff the current attempt has not filled the slot by then. */
  lemma TimesOutOnlyWithoutCompletion(run: seq<State>, i: nat, s': State)
    requires IsRun(run) && InTime(run) && i < |run|
    requires Next(run[i], WakeTimeout, s') || Next(run[i], WakeDone, s')
    ensures s'.timedOut <==> Busy(run[i], Mine(run[i]))
    ensures !s'.timedOut ==> Mine(run[i]) in run[i].completed && s'.err == run[i].completed[Mine(run[i])].err
  {
    RunKeepsInv(run, i);
  }

  /** The vendor's token is given back iff the last attempt did not time out: after a
      timeout the vendor may still complete it. */
  lemma TokenIsGivenBack(run: seq<State>, i: nat, s': State)
    requires IsRun(run) && InTime(run) && i < |run| && Next(run[i], FreeToken, s')
    ensures run[i].token in s'.freed <==> !run[i].timedOut
    ensures forall t :: t != run[i].token ==> (t in s'.freed <==> t in run[i].freed)
    ensures forall a :: Busy(run[i], a) && a.token == run[i].token ==> run[i].timedOut
  {
    RunKeepsInv(run, i);
  }

  // ---------------------------------------------------------------- whatever the vendor does

  lemma NextKeepsTable(s: State, step: Step, s': State)
    requires Table(s) && Counted(s) && Served(s) && Next(s, step, s')
    ensures Table(s') && Counted(s') && Served(s')
  {
    if FrameNext(s, step, s') {
      FrameKeepsTable(s, step, s');
      FrameKeepsServed(s, step, s');
    } else if DispatchNext(s, step, s') {
      DispatchKeepsTable(s, step, s');
      DispatchKeepsCounted(s, step, s');
      DispatchKeepsServed(s, step, s');
    } else {
      VendorKeepsTable(s, step, s');
      VendorKeepsCounted(s, step, s');
      VendorKeepsServed(s, step, s');
    }
  }

  lemma {:induction false} RunKeepsTable(run: seq<State>, i: nat)
    requires IsRun(run) && i < |run|
    ensures Table(run[i]) && Counted(run[i]) && Served(run[i])
  {
    if i > 0 {
      RunKeepsTable(run, i - 1);
      assert Steps(run[i - 1], run[i - 1 + 1]);
      var step :| Next(run[i - 1], step, run[i]);
      NextKeepsTable(run[i - 1], step, run[i]);
    }
  }

  /** On every run, with late fills or without: whenever the server is between two frames,
      every request it took has exactly one answer, in order, on its own connection, with
      its sim id and serial; and the first slot is free, so that the in-flight table is
      never full. */
  lemma EveryRequestIsAnswered(run: seq<State>, i: nat)
    requires IsRun(run) && i < |run| && (run[i].pc.Ready? || run[i].pc.NoClient?)
    ensures var s := run[i];
            && |s.answers| == |s.requests|
            && (forall j :: 0 <= j < |s.answers| ==> Answers(s.answers[j], s.requests[j]))
            && FreeSlot(s.slots) == 0
  {
    RunKeepsTable(run, i);
  }

  /** A request that malDispatch refuses is failed, and one it takes always finds the first
      slot free. */
  lemma RequestIsTakenOrFailed(run: seq<State>, i: nat, simId: U32, serial: U32, s': State)
    requires IsRun(run) && i < |run|
    ensures Next(run[i], Refuse(simId, serial), s') ==>
              s'.answers == run[i].answers + [Reply(run[i].client, Answer(simId, serial, GENERIC_FAILURE, []))]
              && s'.slots == run[i].slots
    ensures Next(run[i], Begin(simId, serial), s') ==>
              s'.pc.Claimed? && s'.slot == 0 && s'.slots[0].inUse && s'.answers == run[i].answers
              && s'.cur.simId == simId && s'.cur.serial == serial && Some(s'.cur.conn) == run[i].client
  {
    RunKeepsTable(run, i);
    if run[i].pc.Ready? { FirstIsFree(run[i]); }
  }

  /** A completion that found the slot fills it with its error and its text. */
  lemma CompletionFillsTheSlot(run: seq<State>, i: nat, a: Attempt, s': State)
    requires IsRun(run) && i < |run| && Next(run[i], Park(a), s')
    ensures a in run[i].completed && |s'.slots| == |run[i].slots| > 0
    ensures var c, x, x' := run[i].completed[a], run[i].slots[0], s'.slots[0];
            && x'.done && x'.err == c.err && x'.text == Text(c.response)
            && x'.inUse == x.inUse && x'.token == x.token && s'.slots[1..] == run[i].slots[1..]
  {
    RunKeepsTable(run, i);
  }

  /** What the server thread does next; in a wait nobody has to help it. */
  function NextOf(s: State): Step {
    match s.pc
    case NoClient => Accept
    case Ready => Disconnect
    case Claimed => SetToken
    case Attempting => ClearDone
    case Reset => Call
    case InVendor => Return
    case Waiting => WakeTimeout
    case Decided => Decide
    case Collecting => Collect
    case Sending => Send
    case Answered => ClearToken
    case Cleared => FreeToken
    case Freed => Release
  }

  /** The number of steps that the server thread has left, at most, until the next frame. */
  function Left(s: State): int {
    match s.pc
    case NoClient => 0
    case Ready => 0
    case Freed => 1
    case Cleared => 2
    case Answered => 3
    case Sending => 4
    case Collecting => 5
    case Decided => 6 + 5 * (MAX_ATTEMPTS - s.attempt)
    case Waiting => 7 + 5 * (MAX_ATTEMPTS - s.attempt)
    case InVendor => 8 + 5 * (MAX_ATTEMPTS - s.attempt)
    case Reset => 9 + 5 * (MAX_ATTEMPTS - s.attempt)
    case Attempting => 10 + 5 * (MAX_ATTEMPTS - s.attempt)
    case Claimed => 6 + 5 * MAX_ATTEMPTS
  }

  /** The server is never stuck, and a request keeps it busy for 56 of its own steps at
      most: every one of them brings the answer nearer, and no step of the vendor puts it
      off. */
  lemma ServerGoesOn(run: seq<State>, i: nat)
    requires IsRun(run) && i < |run|
    ensures exists s' :: Next(run[i], NextOf(run[i]), s')
    ensures 0 <= Left(run[i]) <= 56 && (Left(run[i]) == 0 <==> run[i].pc.Ready? || run[i].pc.NoClient?)
    ensures forall step, s' :: DispatchNext(run[i], step, s') ==> Left(s') < Left(run[i])
    ensures forall step, s' :: VendorNext(run[i], step, s') ==> Left(s') == Left(run[i])
  {
    RunKeepsTable(run, i);
    var s' := ServerStep(run[i]);
    forall step, s' | DispatchNext(run[i], step, s') ensures Left(s') < Left(run[i]) {
      DispatchBringsNearer(run[i], step, s');
    }
  }

  lemma DispatchBringsNearer(s: State, step: Step, s': State)
    requires Table(s) && Counted(s) && DispatchNext(s, step, s')
    ensures Left(s') < Left(s)
  {
  }

  lemma ServerStep(s: State) returns (s': State)
    requires Table(s) && Counted(s) && Served(s)
    ensures Next(s, NextOf(s), s')
  {
    var mine := s.slots[s.slot];
    match s.pc
    case NoClient => s' := s.(client := Some(s.nextConn), nextConn := s.nextConn + 1, pc := Ready);
    case Ready => s' := s.(client := None, pc := NoClient);
    case Claimed =>
      s' := Update(s, Slot(mine.inUse, Some(s.nextToken), false, 0, []), Attempting)
              .(token := s.nextToken, nextToken := s.nextToken + 1, attempt := 1, filledBy := None);
    case Attempting => s' := Update(s, mine.(done := false), Reset);
    case Reset => s' := s.(outstanding := s.outstanding + {Attempt(s.token, s.attempt)}, pc := InVendor);
    case InVendor => s' := s.(pc := Waiting);
    case Waiting => s' := s.(timedOut := !mine.done, err := mine.err, pc := Decided);
    case Decided =>
      s' := if s.timedOut || s.err == 0 || s.attempt >= MAX_ATTEMPTS then s.(pc := Collecting)
            else s.(attempt := s.attempt + 1, pc := Attempting);
    case Collecting =>
      s' := Update(s, mine.(text := []), Sending)
              .(answer := Answer(s.cur.simId, s.cur.serial,
                                 if s.timedOut then GENERIC_FAILURE else mine.err, mine.text));
    case Sending => s' := s.(answers := s.answers + [Reply(s.client, s.answer)], pc := Answered);
    case Answered => s' := Update(s, mine.(token := None), Cleared);
    case Cleared => s' := s.(freed := if s.timedOut then s.freed else s.freed + {s.token}, pc := Freed);
    case Freed => s' := Update(s, mine.(inUse := false), Ready);
  }

  /** And the vendor is never called more than ten times for one token. */
  lemma AtMostTenCalls(run: seq<State>, i: nat)
    requires IsRun(run) && i < |run|
    ensures forall a :: a in run[i].outstanding || a in run[i].completed ==> 1 <= a.n <= 10
  {
    RunKeepsTable(run, i);
  }

  // ---------------------------------------------------------------- a late fill

  function Tab(first: Slot): (r: seq<Slot>)
    ensures |r| == MAX_INFLIGHT && r[0] == first && forall i :: 0 < i < MAX_INFLIGHT ==> r[i] == EMPTY
  {
    seq(MAX_INFLIGHT, i => if i == 0 then first else EMPTY)
  }

  lemma TabUpdate(x: Slot, y: Slot)
    ensures Tab(x)[0 := y] == Tab(y)
  {
  }

  lemma Extended(run: seq<State>, step: Step, s': State) returns (longer: seq<State>)
    requires IsRun(run) && Next(run[|run| - 1], step, s')
    ensures IsRun(longer) && longer[|longer| - 1] == s'
  {
    longer := run + [s'];
    assert Steps(run[|run| - 1], s');
  }

  /** The state after a request is taken and has its token. */
  function Taken(s: State, serial: U32): State
    requires s.client.Some?
  {
    var q := Query(s.client.value, 0, serial);
    s.(requests := s.requests + [q], cur := q, slots := Tab(Slot(true, Some(s.nextToken), false, 0, [])),
       token := s.nextToken, nextToken := s.nextToken + 1, attempt := 1, filledBy := None, pc := Attempting)
  }

  lemma TakeRequest(run: seq<State>, e: Slot, serial: U32) returns (longer: seq<State>)
    requires IsRun(run)
    requires var s := run[|run| - 1];
             s.pc.Ready? && s.client.Some? && s.slot == 0 && !e.inUse && s.slots == Tab(e)
    ensures IsRun(longer)
    ensures longer[|longer| - 1] == Taken(run[|run| - 1], serial)
  {
    var s := run[|run| - 1];
    var q := Query(s.client.value, 0, serial);
    var full := Slot(true, Some(s.nextToken), false, 0, []);
    TabUpdate(e, e.(inUse := true));
    TabUpdate(e.(inUse := true), full);
    longer := Extended(run, Begin(0, serial),
      s.(requests := s.requests + [q], cur := q, slots := Tab(e.(inUse := true)), pc := Claimed));
    longer := Extended(longer, SetToken, Taken(s, serial));
  }

  /** A request is taken, and its first attempt is called and returns. */
  lemma FirstCall(run: seq<State>, e: Slot, serial: U32) returns (longer: seq<State>)
    requires IsRun(run)
    requires var s := run[|run| - 1];
             s.pc.Ready? && s.client.Some? && s.slot == 0 && !e.inUse && s.slots == Tab(e)
    ensures IsRun(longer)
    ensures var s := run[|run| - 1];
            longer[|longer| - 1] == Taken(s, serial).(
              outstanding := s.outstanding + {Attempt(s.nextToken, 1)}, pc := Waiting)
  {
    var s := run[|run| - 1];
    longer := TakeRequest(run, e, serial);
    var s2 := Taken(s, serial);
    TabUpdate(s2.slots[0], s2.slots[0]);
    var s3 := s2.(outstanding := s.outstanding + {Attempt(s.nextToken, 1)}, pc := InVendor);
    longer := Extended(longer, ClearDone, s2.(pc := Reset));
    longer := Extended(longer, Call, s3);
    longer := Extended(longer, Return, s3.(pc := Waiting));
  }

  /** The retry loop ends; `x` is the slot, and the wait is over. */
  lemma EndLoop(run: seq<State>, x: Slot) returns (longer: seq<State>)
    requires IsRun(run)
    requires var s := run[|run| - 1];
             s.pc.Waiting? && s.slot == 0 && s.slots == Tab(x) && (x.done ==> x.err == 0)
    ensures IsRun(longer)
    ensures longer[|longer| - 1] == run[|run| - 1].(timedOut := !x.done, err := x.err, pc := Collecting)
  {
    var s := run[|run| - 1].(timedOut := !x.done, err := x.err, pc := Decided);
    longer := Extended(run, WakeTimeout, s);
    longer := Extended(longer, Decide, s.(pc := Collecting));
  }

  /** From the wait to the answer. */
  lemma Respond(run: seq<State>, x: Slot) returns (longer: seq<State>)
    requires IsRun(run)
    requires var s := run[|run| - 1];
             s.pc.Waiting? && s.slot == 0 && s.slots == Tab(x) && (x.done ==> x.err == 0)
    ensures IsRun(longer)
    ensures var s := run[|run| - 1];
            var answer := Answer(s.cur.simId, s.cur.serial, if x.done then x.err else GENERIC_FAILURE, x.text);
            longer[|longer| - 1] == s.(
              slots := Tab(x.(text := [])), pc := Answered, timedOut := !x.done, err := x.err, answer := answer,
              answers := s.answers + [Reply(s.client, answer)])
  {
    longer := EndLoop(run, x);
    var s := longer[|longer| - 1];
    var answer := Answer(s.cur.simId, s.cur.serial, if x.done then x.err else GENERIC_FAILURE, x.text);
    TabUpdate(x, x.(text := []));
    var s2 := s.(slots := Tab(x.(text := [])), answer := answer, pc := Sending);
    longer := Extended(longer, Collect, s2);
    longer := Extended(longer, Send, s2.(answers := s.answers + [Reply(s.client, answer)], pc := Answered));
  }

  /** From the answer to the next frame. */
  lemma Forget(run: seq<State>, x: Slot) returns (longer: seq<State>)
    requires IsRun(run)
    requires var s := run[|run| - 1]; s.pc.Answered? && s.slot == 0 && s.slots == Tab(x)
    ensures IsRun(longer)
    ensures var s := run[|run| - 1];
            longer[|longer| - 1] == s.(slots := Tab(x.(inUse := false, token := None)), pc := Ready,
              freed := if s.timedOut then s.freed else s.freed + {s.token})
  {
    var s := run[|run| - 1];
    TabUpdate(x, x.(token := None));
    TabUpdate(x.(token := None), x.(token := None, inUse := false));
    var s1 := s.(slots := Tab(x.(token := None)), pc := Cleared);
    var s2 := s1.(freed := if s.timedOut then s.freed else s.freed + {s.token}, pc := Freed);
    longer := Extended(run, ClearToken, s1);
    longer := Extended(longer, FreeToken, s2);
    longer := Extended(longer, Release, s2.(slots := Tab(x.(token := None, inUse := false)), pc := Ready));
  }

  function FirstCompletion(): Completion {
    Completion(0, [7])
  }

  /** The first request is timed out and answered, while a completion of its attempt has
      found the slot and not filled it. */
  lemma FirstTimesOut() returns (run: seq<State>)
    ensures IsRun(run)
    ensures var s := run[|run| - 1];
            && s.pc.Ready? && s.client == Some(0) && s.slot == 0 && s.slots == Tab(Slot(false, None, false, 0, []))
            && s.nextToken == 1 && s.outstanding == {} && s.matched == map[Attempt(0, 1) := 0]
            && s.completed == map[Attempt(0, 1) := FirstCompletion()] && s.freed == {}
            && s.requests == [Query(0, 0, 1)] && s.answers == [Reply(Some(0), Failure(0, 1))]
  {
    var q, c := Query(0, 0, 0), FirstCompletion();
    var s0 := State(Tab(EMPTY), NoClient, q, 0, 0, 0, 0, false, Failure(0, 0), None, 0,
                    0, {}, map[], map[], None, {}, [], []);
    assert s0.slots == seq(MAX_INFLIGHT, _ => EMPTY);
    run := Extended([s0], Accept, s0.(client := Some(0), nextConn := 1, pc := Ready));
    run := FirstCall(run, EMPTY, 1);
    var s1 := run[|run| - 1];
    assert Claim(s1.slots, 0) == 0;
    run := Extended(run, Match(Attempt(0, 1), c),
      s1.(outstanding := {}, completed := map[Attempt(0, 1) := c], matched := map[Attempt(0, 1) := 0]));
    run := Respond(run, s1.slots[0]);
    run := Forget(run, s1.slots[0]);
  }

  /** The second request waits for its attempt, and the late completion fills the slot. */
  lemma SecondIsFilled() returns (run: seq<State>, x: Slot)
    ensures IsRun(run)
    ensures x == Slot(true, Some(1), true, 0, [7])
    ensures var s := run[|run| - 1];
            && s.pc.Waiting? && s.client == Some(0) && s.slot == 0 && s.slots == Tab(x) && s.token == 1
            && s.outstanding == {Attempt(1, 1)} && s.completed == map[Attempt(0, 1) := FirstCompletion()]
            && s.cur == Query(0, 0, 2) && s.requests == [Query(0, 0, 1), Query(0, 0, 2)]
            && s.answers == [Reply(Some(0), Failure(0, 1))]
  {
    run := FirstTimesOut();
    run := FirstCall(run, run[|run| - 1].slots[0], 2);
    var s := run[|run| - 1];
    assert Text([7]) == [7];
    x := s.slots[0].(done := true, err := 0, text := [7]);
    TabUpdate(s.slots[0], x);
    run := Extended(run, Park(Attempt(0, 1)), s.(slots := Tab(x), filledBy := Some(Attempt(0, 1)), matched := map[]));
  }

  /** malClaim runs outside s_malDoneMutex, so late fills do happen: a run in which the
      second request is answered with what the vendor returned for the first, while its own
      attempt is still outstanding and its token is given back. */
  lemma LateFillAnswersTheNextRequest() returns (run: seq<State>)
    ensures IsRun(run) && !InTime(run)
    ensures var s := run[|run| - 1];
            && s.requests == [Query(0, 0, 1), Query(0, 0, 2)]
            && s.answers == [Reply(Some(0), Failure(0, 1)), Reply(Some(0), Answer(0, 2, 0, [7]))]
            && s.completed == map[Attempt(0, 1) := FirstCompletion()]
            && Attempt(1, 1) in s.outstanding && 1 in s.freed
  {
    var x;
    run, x := SecondIsFilled();
    run := Respond(run, x);
    run := Forget(run, x.(text := []));
    if InTime(run) {
      AtMostOneOutstanding(run, |run| - 1);
      assert Busy(run[|run| - 1], Attempt(1, 1));
    }
  }
}
