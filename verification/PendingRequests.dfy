/** The pending-request lists of ril.cpp, one per socket: requests are added at the head,
    acks only mark them, and the completion that finds a request unlinks it and answers
    it. Any thread may do any of this at any time; each list has its own mutex. */
module PendingRequests {
  import opened MalTable
  import opened Wrappers

  datatype Token =
    | Null
    | Stray          // not a RequestInfo of this library
    | Known(id: nat) // the id-th RequestInfo that was allocated

  /** `mal` distinguishes the requests of malDispatch from those of addRequestToList. */
  datatype Info = Info(socket: int, serial: int, handled: bool, mal: bool, acked: bool)

  datatype ResponseType = Solicited | SolicitedAckExp

  /** A response; `called` is whether the command has a response function at all. */
  datatype Response = Response(id: nat, serial: int, kind: ResponseType, called: bool)

  datatype State = State(
    version: int,
    lists: seq<seq<nat>>,      // the pending requests of each socket, from the head
    infos: seq<Info>,
    mal: seq<Slot>,            // the in-flight table of the MAL server
    completing: set<nat>,      // unlinked, and not yet answered and freed
    added: seq<seq<nat>>,      // history: all requests of each socket, newest first
    done: set<nat>,            // history: the requests that were unlinked
    acks: seq<nat>,            // history: calls of acknowledgeRequest
    responses: seq<Response>,  // history: calls of a response function
    grabs: nat)                // history: wake-lock grabs on behalf of a response

  datatype Step =
    | Add(socket: int, serial: int, handled: bool)
    | AddMal(socket: int, serial: int)
    | MalStep(mal: seq<Slot>)  // whatever malDispatch and its completions do to the table
    | Ack(t: Token)
    | Dequeue(t: Token)        // RIL_onRequestComplete up to the unlinking
    | Respond(id: nat)         // the rest of it

  /** The list that a socket id selects, with `n` SIMs: unknown sockets use the first. */
  function ListOf(socket: int, n: nat): (k: nat)
    requires n > 0
    ensures k < n
  {
    if 0 < socket < n then socket else 0
  }

  /** Every socket of the `n` has a list of its own. */
  lemma DistinctLists(a: int, b: int, n: nat)
    requires 0 <= a < n && 0 <= b < n
    ensures ListOf(a, n) == ListOf(b, n) <==> a == b
  {
  }

  function Without(l: seq<nat>, id: nat): (r: seq<nat>) {
    if l == [] then [] else if l[0] == id then l[1..] else [l[0]] + Without(l[1..], id)
  }

  predicate IsLocal(i: Info) {
    i.serial == -1
  }

  function ResponseOf(s: State, id: nat): Response
    requires id < |s.infos|
  {
    Response(id, s.infos[id].serial,
             if s.version >= 13 && s.infos[id].acked then SolicitedAckExp else Solicited, s.infos[id].handled)
  }

  /** The request is on the list of its socket. */
  predicate Pending(s: State, id: nat)
    requires |s.lists| > 0
  {
    id < |s.infos| && id in s.lists[ListOf(s.infos[id].socket, |s.lists|)]
  }

  predicate OnlyMalTokens(mal: seq<Slot>, infos: seq<Info>) {
    forall i :: 0 <= i < |mal| && mal[i].token.Some? ==> mal[i].token.value < |infos| && infos[mal[i].token.value].mal
  }

  predicate Next(s: State, step: Step, s': State) {
    && |s.lists| > 0 && |s.added| == |s.lists|
    && match step
       case Add(socket, serial, handled) =>
         var k := ListOf(socket, |s.lists|);
         var id := |s.infos|;
         s' == s.(infos := s.infos + [Info(socket, serial, handled, false, false)],
                  lists := s.lists[k := [id] + s.lists[k]], added := s.added[k := [id] + s.added[k]])
       case AddMal(socket, serial) => s' == s.(infos := s.infos + [Info(socket, serial, false, true, false)])
       case MalStep(mal) => OnlyMalTokens(mal, s.infos) && s' == s.(mal := mal)
       case Ack(t) =>
         s' == (if t.Known? && Pending(s, t.id)
           then s.(infos := s.infos[t.id := s.infos[t.id].(acked := true)], acks := s.acks + [t.id])
           else s)
       case Dequeue(t) =>
         s' == (if t.Known? && Claim(s.mal, t.id) < 0 && Pending(s, t.id)
           then
             var k := ListOf(s.infos[t.id].socket, |s.lists|);
             s.(lists := s.lists[k := Without(s.lists[k], t.id)], done := s.done + {t.id},
                completing := s.completing + {t.id})
           else s)
       case Respond(id) =>
         id in s.completing && id < |s.infos| &&
         var r := ResponseOf(s, id);
         s' == (if IsLocal(s.infos[id]) then s
                else s.(responses := s.responses + [r], grabs := s.grabs + if r.kind.SolicitedAckExp? then 1 else 0))
                .(completing := s.completing - {id})
  }

  /** An initial state for `n` SIMs. */
  predicate Init(s: State) {
    && |s.lists| > 0 && s.lists == seq(|s.lists|, _ => []) && s.added == s.lists && s.infos == []
    && OnlyMalTokens(s.mal, [])
    && s.completing == {} && s.done == {} && s.acks == [] && s.responses == [] && s.grabs == 0
  }

  ghost predicate Steps(s: State, s': State) {
    exists step :: Next(s, step, s')
  }

  ghost predicate IsRun(run: seq<State>) {
    && run != [] && Init(run[0])
    && forall i :: 0 <= i < |run| - 1 ==> Steps(run[i], run[i + 1])
  }

  // ---------------------------------------------------------------- what every step keeps

  /** The requests of `all` that are not in `done`, in the order of `all`. */
  function Remaining(all: seq<nat>, done: set<nat>): (r: seq<nat>)
    ensures forall id :: id in r <==> id in all && id !in done
  {
    if all == [] then []
    else if all[0] in done then Remaining(all[1..], done)
    else [all[0]] + Remaining(all[1..], done)
  }

  /** The requests of one socket: each one once, newest first. */
  predicate NewestFirst(all: seq<nat>, k: nat, infos: seq<Info>, n: nat)
    requires n > 0
  {
    && (forall i :: 0 <= i < |all| ==>
          all[i] < |infos| && ListOf(infos[all[i]].socket, n) == k && !infos[all[i]].mal)
    && (forall i, j :: 0 <= i < j < |all| ==> all[i] > all[j])
  }

  predicate Listed(s: State) {
    && |s.lists| > 0 && |s.added| == |s.lists|
    && forall k :: 0 <= k < |s.lists| ==>
         NewestFirst(s.added[k], k, s.infos, |s.lists|) && s.lists[k] == Remaining(s.added[k], s.done)
  }

  function Grabs(rs: seq<Response>): nat {
    if rs == [] then 0 else Grabs(rs[..|rs| - 1]) + if rs[|rs| - 1].kind.SolicitedAckExp? then 1 else 0
  }

  predicate Finished(s: State, id: nat) {
    id in s.done && id !in s.completing && id < |s.infos| && !IsLocal(s.infos[id])
  }

  predicate HasResponse(s: State, id: nat) {
    exists a :: 0 <= a < |s.responses| && s.responses[a].id == id
  }

  predicate Completing(s: State) {
    s.completing <= s.done && forall id :: id in s.done ==> id < |s.infos|
  }

  /** The responses are those of finished requests, once each. */
  predicate Once(s: State) {
    && (forall a :: 0 <= a < |s.responses| ==>
          Finished(s, s.responses[a].id) && s.responses[a] == ResponseOf(s, s.responses[a].id))
    && (forall a, b :: 0 <= a < b < |s.responses| ==> s.responses[a].id != s.responses[b].id)
  }

  /** All finished requests have one. */
  ghost predicate Answered(s: State) {
    forall id: nat :: Finished(s, id) ==> HasResponse(s, id)
  }

  /** A request is marked iff an ack reached it while it was pending. */
  predicate Marked(s: State) {
    && (forall i :: 0 <= i < |s.acks| ==> s.acks[i] < |s.infos|)
    && (forall id :: 0 <= id < |s.infos| ==> (s.infos[id].acked <==> id in s.acks))
  }

  ghost predicate Inv(s: State) {
    Listed(s) && OnlyMalTokens(s.mal, s.infos)
    && Completing(s) && Once(s) && Answered(s) && Marked(s) && s.grabs == Grabs(s.responses)
  }

  lemma {:induction false} RemainingAfter(all: seq<nat>, done: set<nat>, id: nat)
    requires forall i, j :: 0 <= i < j < |all| ==> all[i] > all[j]
    requires id in Remaining(all, done)
    ensures Remaining(all, done + {id}) == Without(Remaining(all, done), id)
  {
    var rest := Remaining(all[1..], done);
    if all[0] == id {
      assert id !in all[1..];
      RemainingSame(all[1..], done, id);
      assert Remaining(all, done)[1..] == rest;
    } else {
      RemainingAfter(all[1..], done, id);
      assert all[0] !in done ==> Remaining(all, done)[1..] == rest;
    }
  }

  lemma {:induction false} RemainingSame(all: seq<nat>, done: set<nat>, id: nat)
    requires id !in all
    ensures Remaining(all, done + {id}) == Remaining(all, done)
  {
    if all != [] {
      RemainingSame(all[1..], done, id);
    }
  }

  lemma NextKeepsListed(s: State, step: Step, s': State)
    requires Listed(s) && (forall id :: id in s.done ==> id < |s.infos|) && Next(s, step, s')
    ensures Listed(s')
  {
    forall k | 0 <= k < |s'.lists|
      ensures NewestFirst(s'.added[k], k, s'.infos, |s'.lists|) && s'.lists[k] == Remaining(s'.added[k], s'.done)
    {
      assert NewestFirst(s.added[k], k, s.infos, |s.lists|);
      if step.Dequeue? && s' != s {
        var id := step.t.id;
        if k == ListOf(s.infos[id].socket, |s.lists|) {
          RemainingAfter(s.added[k], s.done, id);
        } else {
          assert id !in s.added[k];
          RemainingSame(s.added[k], s.done, id);
        }
      }
      if step.Add? && k == ListOf(step.socket, |s.lists|) {
        assert s'.added[k][1..] == s.added[k];
      }
    }
  }

  lemma GrabsAppend(rs: seq<Response>, r: Response)
    ensures Grabs(rs + [r]) == Grabs(rs) + if r.kind.SolicitedAckExp? then 1 else 0
  {
    assert (rs + [r])[..|rs|] == rs;
  }

  /** A pending request is not done, so that no ack reaches a finished one. */
  lemma PendingIsNotDone(s: State, id: nat)
    requires Listed(s) && Pending(s, id)
    ensures id !in s.done && !s.infos[id].mal
  {
  }

  /** Unlinking, answering and acking leave the answers of finished requests alone. */
  lemma NextKeepsOnce(s: State, step: Step, s': State)
    requires Listed(s) && Completing(s) && Once(s) && Next(s, step, s')
    ensures Completing(s') && Once(s')
  {
    if (step.Ack? || step.Dequeue?) && s' != s {
      PendingIsNotDone(s, step.t.id);
    }
    forall a | 0 <= a < |s'.responses|
      ensures Finished(s', s'.responses[a].id) && s'.responses[a] == ResponseOf(s', s'.responses[a].id)
    {
      if a < |s.responses| {
        assert Finished(s, s.responses[a].id);
      }
    }
  }

  lemma NextKeepsAnswered(s: State, step: Step, s': State)
    requires Completing(s) && Answered(s) && Next(s, step, s')
    ensures Answered(s')
  {
    forall id: nat | Finished(s', id)
      ensures HasResponse(s', id)
    {
      if step.Respond? && id == step.id {
        assert s'.responses[|s.responses|].id == id;
      } else {
        assert Finished(s, id);
        var a :| 0 <= a < |s.responses| && s.responses[a].id == id;
        assert s'.responses[a].id == id;
      }
    }
  }

  lemma NextKeepsGrabs(s: State, step: Step, s': State)
    requires s.grabs == Grabs(s.responses) && Next(s, step, s')
    ensures s'.grabs == Grabs(s'.responses)
  {
    if step.Respond? {
      GrabsAppend(s.responses, ResponseOf(s, step.id));
    }
  }

  lemma NextKeepsMarked(s: State, step: Step, s': State)
    requires Listed(s) && Marked(s) && Next(s, step, s')
    ensures Marked(s')
  {
  }

  lemma NextKeepsMalTokens(s: State, step: Step, s': State)
    requires OnlyMalTokens(s.mal, s.infos) && Next(s, step, s')
    ensures OnlyMalTokens(s'.mal, s'.infos)
  {
  }

  lemma NextKeepsInv(s: State, step: Step, s': State)
    requires Inv(s) && Next(s, step, s')
    ensures Inv(s')
  {
    NextKeepsListed(s, step, s');
    NextKeepsMalTokens(s, step, s');
    NextKeepsOnce(s, step, s');
    NextKeepsAnswered(s, step, s');
    NextKeepsGrabs(s, step, s');
    NextKeepsMarked(s, step, s');
  }

  lemma InitKeepsInv(s: State)
    requires Init(s)
    ensures Inv(s)
  {
  }

  lemma {:induction false} RunKeepsInv(run: seq<State>, i: nat)
    requires IsRun(run) && i < |run|
    ensures Inv(run[i])
  {
    if i == 0 {
      InitKeepsInv(run[0]);
    } else {
      RunKeepsInv(run, i - 1);
      assert 0 <= i - 1 < |run| - 1;
      var step :| Next(run[i - 1], step, run[i]);
      NextKeepsInv(run[i - 1], step, run[i]);
    }
  }

  // ---------------------------------------------------------------- main results

  /** Each socket's list is its added requests minus the completed ones, newest first and
      without duplicates, whatever the order of adds, acks and completions. */
  lemma ListIsAddedMinusDone(run: seq<State>, i: nat, k: nat)
    requires IsRun(run) && i < |run| && k < |run[i].lists|
    ensures var s := run[i];
            && |s.added| == |s.lists|
            && s.lists[k] == Remaining(s.added[k], s.done)
            && (forall a, b :: 0 <= a < b < |s.added[k]| ==> s.added[k][a] > s.added[k][b])
            && (forall a :: 0 <= a < |s.added[k]| ==>
                  s.added[k][a] < |s.infos| && ListOf(s.infos[s.added[k][a]].socket, |s.lists|) == k)
  {
    RunKeepsInv(run, i);
    assert NewestFirst(run[i].added[k], k, run[i].infos, |run[i].lists|);
  }

  /** Acks never remove a request, and neither an ack nor a completion changes anything
      when its token is NULL, a stray one, one of malDispatch, or already completed. */
  lemma OnlyPendingTokensCount(run: seq<State>, i: nat, t: Token, step: Step, s': State)
    requires IsRun(run) && i < |run| && Next(run[i], step, s') && (step == Ack(t) || step == Dequeue(t))
    ensures step == Ack(t) ==> s'.lists == run[i].lists
    ensures !t.Known? || t.id >= |run[i].infos| || run[i].infos[t.id].mal || t.id in run[i].done ==> s' == run[i]
  {
    RunKeepsInv(run, i);
    var s := run[i];
    if t.Known? && Pending(s, t.id) {
      PendingIsNotDone(s, t.id);
    }
  }

  /** The MAL server never claims the completion of a pending request: whatever is in its
      table, the completion unlinks the request from its list. */
  lemma PendingIsNeverClaimed(run: seq<State>, i: nat, id: nat, s': State)
    requires IsRun(run) && i < |run| && |run[i].lists| > 0 && Pending(run[i], id)
    requires Next(run[i], Dequeue(Known(id)), s')
    ensures Claim(run[i].mal, id) == -1
    ensures id in s'.done && id in s'.completing && !Pending(s', id)
  {
    RunKeepsInv(run, i);
    var s := run[i];
    PendingIsNotDone(s, id);
    NextKeepsInv(s, Dequeue(Known(id)), s');
  }

  /** A new request is the first of its socket's list, without an ack; nothing else changes. */
  lemma AddedIsFirst(run: seq<State>, i: nat, socket: int, serial: int, handled: bool, s': State)
    requires IsRun(run) && i < |run| && Next(run[i], Add(socket, serial, handled), s')
    ensures var s, id := run[i], |run[i].infos|;
            && |s'.lists| == |s.lists| > 0 && s'.infos == s.infos + [Info(socket, serial, handled, false, false)]
            && Pending(s', id) && id !in s'.done
            && (forall k :: 0 <= k < |s.lists| ==>
                  s'.lists[k] == if k == ListOf(socket, |s.lists|) then [id] + s.lists[k] else s.lists[k])
  {
    RunKeepsInv(run, i);
    NextKeepsInv(run[i], Add(socket, serial, handled), s');
    var k := ListOf(socket, |run[i].lists|);
    assert s'.lists[k][0] == |run[i].infos|;
    assert s'.done == run[i].done && Completing(run[i]);
  }

  /** A request gets its mark exactly by an ack that finds it pending, and keeps it. */
  lemma MarkedByAnAck(run: seq<State>, i: nat, step: Step, s': State, id: nat)
    requires IsRun(run) && i < |run| && Next(run[i], step, s') && id < |run[i].infos|
    ensures id < |s'.infos|
    ensures var s := run[i];
            && (s'.infos[id].acked <==> s.infos[id].acked || (step == Ack(Known(id)) && Pending(s, id)))
            && (id in s'.acks <==> id in s.acks || (step == Ack(Known(id)) && Pending(s, id)))
            && s'.infos[id] == s.infos[id].(acked := s'.infos[id].acked) && s'.version == s.version
  {
    RunKeepsInv(run, i);
  }

  lemma {:induction false} AckIsKept(run: seq<State>, i: nat, j: nat, id: nat)
    requires IsRun(run) && i <= j < |run| && id < |run[i].infos| && run[i].infos[id].acked
    ensures id < |run[j].infos| && run[j].infos[id].acked && run[j].version == run[i].version
    ensures run[j].infos[id] == run[i].infos[id]
    decreases j - i
  {
    if i < j {
      AckIsKept(run, i, j - 1, id);
      assert Steps(run[j - 1], run[j - 1 + 1]);
      var step :| Next(run[j - 1], step, run[j]);
      MarkedByAnAck(run, j - 1, step, run[j], id);
    }
  }

  /** An ack of a pending request decides how it is answered, whatever happens in between:
      from version 13 on with a request for an acknowledgement, and under one wake lock. */
  lemma AckDecidesTheAnswer(run: seq<State>, i: nat, j: nat, id: nat, s': State)
    requires IsRun(run) && i < j < |run| && |run[i].lists| > 0 && Pending(run[i], id)
    requires Next(run[i], Ack(Known(id)), run[i + 1]) && Next(run[j], Respond(id), s')
    ensures var s, info := run[j], run[i].infos[id];
            if info.serial == -1 then s'.responses == s.responses && s'.grabs == s.grabs
            else if s.version >= 13
            then s'.responses == s.responses + [Response(id, info.serial, SolicitedAckExp, info.handled)]
                 && s'.grabs == s.grabs + 1
            else s'.responses == s.responses + [Response(id, info.serial, Solicited, info.handled)]
                 && s'.grabs == s.grabs
  {
    MarkedByAnAck(run, i, Ack(Known(id)), run[i + 1], id);
    AckIsKept(run, i + 1, j, id);
  }

  /** Without an ack that found it pending, a request is answered plainly. */
  lemma NoAckNoWakeLock(run: seq<State>, j: nat, id: nat, s': State)
    requires IsRun(run) && j < |run| && Next(run[j], Respond(id), s') && id !in run[j].acks
    ensures var s, info := run[j], run[j].infos[id];
            && s'.grabs == s.grabs
            && s'.responses == s.responses
               + if info.serial == -1 then [] else [Response(id, info.serial, Solicited, info.handled)]
  {
    RunKeepsInv(run, j);
  }

  /** A completion takes its request off its list, and no other request off any list. */
  lemma CompletionUnlinksOne(run: seq<State>, i: nat, id: nat, other: nat, s': State)
    requires IsRun(run) && i < |run| && |run[i].lists| > 0 && Pending(run[i], id) && other != id
    requires Next(run[i], Dequeue(Known(id)), s')
    ensures |s'.lists| > 0 && !Pending(s', id) && (Pending(s', other) <==> Pending(run[i], other))
    ensures s'.infos == run[i].infos && s'.responses == run[i].responses
  {
    PendingIsNeverClaimed(run, i, id, s');
    WithoutKeeps(run[i].lists[ListOf(run[i].infos[id].socket, |run[i].lists|)], id, other);
  }

  lemma {:induction false} WithoutKeeps(l: seq<nat>, id: nat, other: nat)
    requires other != id
    ensures other in Without(l, id) <==> other in l
  {
    if l != [] && l[0] != id {
      WithoutKeeps(l[1..], id, other);
    }
  }

  /** A response function is called at most once per request, and never for a local one or
      a command that has none.
      It is told to expect an ack iff the request was acked and the version is at least 13,
      and then exactly one wake lock was grabbed for it. Every completed request that is
      not local and not still in progress was answered. */
  lemma RespondedOnce(run: seq<State>, i: nat)
    requires IsRun(run) && i < |run|
    ensures var s := run[i];
            && (forall a, b :: 0 <= a < b < |s.responses| ==> s.responses[a].id != s.responses[b].id)
            && (forall a :: 0 <= a < |s.responses| ==>
                  var r := s.responses[a];
                  && r.id in s.done && r.id < |s.infos| && !IsLocal(s.infos[r.id]) && r.serial == s.infos[r.id].serial
                  && r.called == s.infos[r.id].handled
                  && (r.kind.SolicitedAckExp? <==> s.version >= 13 && r.id in s.acks))
            && (forall id: nat :: Finished(s, id) ==> HasResponse(s, id))
            && s.grabs == Grabs(s.responses)
  {
    RunKeepsInv(run, i);
  }

  // ---------------------------------------------------------------- the lists in place

  class RequestInfo {
    ghost const id: nat
    const token: int
    const local: bool
    const socketId: int
    const handled: bool        // pCI->responseFunction is not NULL
    ghost const mal: bool      // made by malDispatch
    var wasAckSent: bool
    var next: RequestInfo?

    constructor (serial: int, socketId: int, handled: bool, ghost mal: bool, ghost id: nat)
      ensures this.id == id && token == serial && this.socketId == socketId
      ensures this.handled == handled && this.mal == mal
      ensures local == (serial == -1) && !wasAckSent && next == null
    {
      this.id, token, local, this.socketId := id, serial, serial == -1, socketId;
      this.handled, this.mal := handled, mal;
      wasAckSent, next := false, null;
    }
  }

  lemma {:induction false} WithoutAt(l: seq<nat>, id: nat, i: nat)
    requires i < |l| && l[i] == id && forall j :: 0 <= j < i ==> l[j] != id
    ensures Without(l, id) == l[..i] + l[i + 1..]
  {
    if i > 0 {
      WithoutAt(l[1..], id, i - 1);
      assert l[..i] == [l[0]] + l[1..][..i - 1];
    }
  }

  /** The requests in the lists are numbered `ids`: the id of a request is its place in
      `all`. */
  ghost predicate Numbered(q: seq<RequestInfo>, all: seq<RequestInfo>, ids: seq<nat>) {
    |q| == |ids| && forall i :: 0 <= i < |q| ==> ids[i] < |all| && all[ids[i]] == q[i]
  }

  ghost predicate AllNumbered(items: seq<seq<RequestInfo>>, all: seq<RequestInfo>, lists: seq<seq<nat>>) {
    |items| == |lists| && forall k :: 0 <= k < |items| ==> Numbered(items[k], all, lists[k])
  }

  lemma PushNumbered(items: seq<seq<RequestInfo>>, all: seq<RequestInfo>, lists: seq<seq<nat>>, k: nat, r: RequestInfo)
    requires AllNumbered(items, all, lists) && k < |items|
    ensures AllNumbered(items[k := [r] + items[k]], all + [r], lists[k := [|all|] + lists[k]])
  {
    var items', lists' := items[k := [r] + items[k]], lists[k := [|all|] + lists[k]];
    forall j | 0 <= j < |items|
      ensures Numbered(items'[j], all + [r], lists'[j])
    {
      assert Numbered(items[j], all, lists[j]);
    }
  }

  lemma CutNumbered(items: seq<seq<RequestInfo>>, all: seq<RequestInfo>, lists: seq<seq<nat>>, k: nat, i: nat)
    requires AllNumbered(items, all, lists) && k < |items| && i < |items[k]| && i < |lists[k]|
    ensures AllNumbered(items[k := items[k][..i] + items[k][i + 1..]], all,
                        lists[k := lists[k][..i] + lists[k][i + 1..]])
  {
    assert Numbered(items[k], all, lists[k]);
  }

  /** The heads of the lists, one per socket. Each method is one step of the machine;
      `items[k]` are the nodes reachable from head `k`, `all` is every request made. */
  class Lists {
    const version: int
    const heads: array<RequestInfo?>
    const malInUse: array<bool>            // two columns of s_malInflight
    const malPRI: array<RequestInfo?>
    ghost var items: seq<seq<RequestInfo>>
    ghost var all: seq<RequestInfo>
    ghost var nodes: set<RequestInfo>

    /** The node at position `i` of list `k`, and null behind its end. */
    ghost function At(k: nat, i: nat): RequestInfo?
      requires k < |items| && i <= |items[k]|
      reads this`items
    {
      if i < |items[k]| then items[k][i] else null
    }

    /** List `k` is a chain from its head to null, of distinct requests of its sockets. */
    ghost predicate Linked(k: nat)
      requires k < |items| && k < heads.Length
      reads this`items, this`nodes, heads, nodes`next
    {
      var q := items[k];
      && heads[k] == At(k, 0)
      && (forall i :: 0 <= i < |q| ==> q[i] in nodes && ListOf(q[i].socketId, heads.Length) == k)
      && (forall i, j :: 0 <= i < j < |q| ==> q[i] != q[j])
      && (forall i {:trigger q[i].next} :: 0 <= i < |q| ==> q[i].next == At(k, i + 1))
    }

    ghost predicate Valid()
      reads this`items, this`nodes, heads, nodes`next
    {
      heads.Length == |items| > 0 && forall k :: 0 <= k < |items| ==> Linked(k)
    }

    ghost predicate ShowsInfos(infos: seq<Info>)
      reads this`all, this`nodes, nodes`wasAckSent
    {
      && |all| == |infos|
      && (forall i :: 0 <= i < |all| ==>
            && all[i] in nodes && all[i].id == i && all[i].local == IsLocal(infos[i])
            && infos[i] == Info(all[i].socketId, all[i].token, all[i].handled, all[i].mal, all[i].wasAckSent))
      && (forall r :: r in nodes ==> r in all)
    }

    ghost predicate Shows(s: State)
      reads this, heads, nodes`next, nodes`wasAckSent
    {
      && version == s.version && |s.added| == |s.lists|
      && Valid() && ShowsInfos(s.infos) && AllNumbered(items, all, s.lists)
    }

    constructor (version: int, simCount: nat)
      requires simCount > 0
      ensures fresh(heads) && fresh(malInUse) && fresh(malPRI) && nodes == {} && heads.Length == simCount
      ensures forall s :: Init(s) && s.version == version && |s.lists| == simCount ==> Shows(s)
      ensures ShowsMal(seq(MAX_INFLIGHT, _ => EMPTY))
    {
      this.version := version;
      heads := new RequestInfo?[simCount](_ => null);
      malInUse := new bool[MAX_INFLIGHT](_ => false);
      malPRI := new RequestInfo?[MAX_INFLIGHT](_ => null);
      items, all, nodes := seq(simCount, _ => []), [], {};
    }

    /** The insertion under the list's mutex. */
    method Push(pRI: RequestInfo, k: nat)
      requires Valid() && k == ListOf(pRI.socketId, heads.Length) && pRI !in nodes
      modifies this`items, this`nodes, heads, {pRI}`next
      ensures Valid() && items == old(items)[k := [pRI] + old(items)[k]] && nodes == old(nodes) + {pRI}
    {
      assert Linked(k);
      pRI.next := heads[k];
      heads[k] := pRI;
      items, nodes := items[k := [pRI] + items[k]], nodes + {pRI};
      forall j | 0 <= j < |items| ensures Linked(j) {
        assert old(Linked(j));
      }
    }

    /** addRequestToList. */
    method AddRequestToList(serial: int, slotId: int, handled: bool, ghost s: State)
      returns (pRI: RequestInfo, ghost s': State)
      requires Shows(s)
      modifies this`items, this`all, this`nodes, heads
      ensures fresh(pRI) && pRI.id == |s.infos| && Shows(s') && Next(s, Add(slotId, serial, handled), s')
      ensures pRI.token == serial && pRI.socketId == slotId && pRI.handled == handled && !pRI.wasAckSent
      ensures |old(items)| == heads.Length > 0
      ensures var k := ListOf(slotId, heads.Length); items == old(items)[k := [pRI] + old(items)[k]]
    {
      pRI := new RequestInfo(serial, slotId, handled, false, |all|);
      var k := ListOf(slotId, heads.Length);
      PushNumbered(items, all, s.lists, k, pRI);
      Push(pRI, k);
      all := all + [pRI];
      s' := s.(infos := s.infos + [Info(slotId, serial, handled, false, false)],
               lists := s.lists[k := [|s.infos|] + s.lists[k]], added := s.added[k := [|s.infos|] + s.added[k]]);
    }

    /** The walk along a list: the node before `pRI`, if `pRI` is there. */
    method Search(pRI: RequestInfo, k: nat) returns (found: bool, prev: RequestInfo?, ghost i: nat)
      requires k < |items| && k < heads.Length && Linked(k)
      ensures found <==> pRI in items[k]
      ensures i <= |items[k]| && (found ==> At(k, i) == pRI) && pRI !in items[k][..i]
      ensures prev == if i == 0 then null else items[k][i - 1]
    {
      var cur := heads[k];
      prev, i := null, 0;
      while cur != null && cur != pRI
        invariant i <= |items[k]| && cur == At(k, i) && pRI !in items[k][..i]
        invariant prev == if i == 0 then null else items[k][i - 1]
        decreases |items[k]| - i
      {
        prev, cur, i := cur, cur.next, i + 1;
      }
      found := cur != null;
    }

    /** `*ppCur = (*ppCur)->p_next`. */
    method Unlink(pRI: RequestInfo, prev: RequestInfo?, k: nat, ghost i: nat)
      requires Valid() && k < |items| && i < |items[k]| && items[k][i] == pRI
      requires prev == if i == 0 then null else items[k][i - 1]
      modifies this`items, heads, {prev}`next
      ensures Valid() && items == old(items)[k := old(items)[k][..i] + old(items)[k][i + 1..]]
    {
      assert Linked(k);
      if prev == null {
        heads[k] := pRI.next;
      } else {
        prev.next := pRI.next;
      }
      items := items[k := items[k][..i] + items[k][i + 1..]];
      forall j | 0 <= j < |items| ensures Linked(j) {
        assert old(Linked(j));
      }
    }

    /** The token as the machine sees it. */
    ghost function TokenOf(pRI: RequestInfo?): Token
      reads this`nodes
    {
      if pRI == null then Null else if pRI in nodes then Known(pRI.id) else Stray
    }

    /** Where the search found the request, in terms of the machine. */
    lemma FoundIsListed(pRI: RequestInfo, k: nat, s: State, found: bool, i: nat)
      requires Shows(s) && k < |s.lists| && (found <==> pRI in items[k])
      requires found ==> i < |items[k]| && items[k][i] == pRI && pRI !in items[k][..i]
      ensures found ==> pRI in nodes && i < |s.lists[k]| && s.lists[k][i] == pRI.id
      ensures found && i > 0 ==> items[k][i - 1] in nodes
      ensures found ==> forall j :: 0 <= j < i ==> s.lists[k][j] != pRI.id
      ensures pRI in nodes ==> (found <==> pRI.id in s.lists[k])
      ensures pRI in nodes ==> pRI.id < |s.infos| && s.infos[pRI.id].socket == pRI.socketId
    {
      assert Numbered(items[k], all, s.lists[k]) && Linked(k);
    }

    /** The table is `mal`. */
    ghost predicate ShowsMal(mal: seq<Slot>)
      reads this`nodes, malInUse, malPRI
    {
      && malInUse.Length == malPRI.Length == |mal| && malPRI != heads
      && forall i :: 0 <= i < |mal| ==>
           && malInUse[i] == mal[i].inUse
           && (if malPRI[i] == null then mal[i].token == None
               else malPRI[i] in nodes && mal[i].token == Some(malPRI[i].id))
    }

    /** The allocation in malDispatch. */
    method NewMalRequest(serial: int, socketId: int, ghost s: State) returns (pRI: RequestInfo, ghost s': State)
      requires Shows(s)
      modifies this`all, this`nodes
      ensures fresh(pRI) && pRI.id == |s.infos| && pRI in nodes && nodes == old(nodes) + {pRI}
      ensures Shows(s') && Next(s, AddMal(socketId, serial), s')
    {
      pRI := new RequestInfo(serial, socketId, false, true, |all|);
      all, nodes := all + [pRI], nodes + {pRI};
      s' := s.(infos := s.infos + [Info(socketId, serial, false, true, false)]);
      forall k | 0 <= k < |items| ensures Linked(k) && Numbered(items[k], all, s.lists[k]) {
        assert old(Linked(k)) && old(Numbered(items[k], all, s.lists[k]));
      }
    }

    /** malDispatch puts a request of its own in slot `i`. */
    method MalTake(i: nat, pRI: RequestInfo, ghost s: State) returns (ghost s': State)
      requires Shows(s) && ShowsMal(s.mal) && OnlyMalTokens(s.mal, s.infos)
      requires i < |s.mal| && pRI in nodes && pRI.id < |s.infos| && s.infos[pRI.id].mal
      modifies malInUse, malPRI
      ensures Next(s, MalStep(s'.mal), s') && Shows(s') && ShowsMal(s'.mal)
      ensures s'.mal == s.mal[i := s.mal[i].(inUse := true, token := Some(pRI.id))]
    {
      malInUse[i], malPRI[i] := true, pRI;
      s' := s.(mal := s.mal[i := s.mal[i].(inUse := true, token := Some(pRI.id))]);
    }

    /** malClaim. */
    method MalClaim(pRI: RequestInfo?, ghost s: State) returns (slot: int)
      requires Shows(s) && ShowsMal(s.mal)
      ensures slot == if pRI == null || pRI !in nodes then -1 else Claim(s.mal, pRI.id)
    {
      if pRI == null { return -1; }
      slot := -1;
      for i := 0 to malPRI.Length
        invariant slot == -1
        invariant forall j :: 0 <= j < i ==> !(malInUse[j] && malPRI[j] == pRI)
        invariant pRI in nodes ==> forall j :: 0 <= j < i ==> !Matches(s.mal[j], pRI.id)
      {
        assert malPRI[i] != null && malPRI[i].id == pRI.id && pRI in nodes ==> malPRI[i] == pRI;
        if malInUse[i] && malPRI[i] == pRI {
          return i;
        }
      }
    }

    lemma CutIsGone(q: seq<RequestInfo>, i: nat)
      requires i < |q| && forall a, b :: 0 <= a < b < |q| ==> q[a] != q[b]
      ensures q[i] !in q[..i] + q[i + 1..]
    {
    }

    /** checkAndDequeueRequestInfoIfAck for a request that was found and is acked. */
    method Acked(pRI: RequestInfo, ghost s: State) returns (ghost s': State)
      requires Shows(s) && pRI in nodes && pRI.id < |s.infos| && |s.lists| > 0 && Pending(s, pRI.id)
      modifies {pRI}`wasAckSent
      ensures Shows(s') == true && Next(s, Ack(Known(pRI.id)), s') == true && pRI.wasAckSent
    {
      if !pRI.wasAckSent {
        pRI.wasAckSent := true;
      }
      s' := s.(infos := s.infos[pRI.id := s.infos[pRI.id].(acked := true)], acks := s.acks + [pRI.id]);
    }

    /** checkAndDequeueRequestInfoIfAck for a request that was found and is completed. */
    method Dequeued(pRI: RequestInfo, prev: RequestInfo?, k: nat, ghost i: nat, ghost s: State)
      returns (ghost s': State)
      requires Shows(s) && k == ListOf(pRI.socketId, heads.Length) && i < |items[k]| && items[k][i] == pRI
      requires prev == if i == 0 then null else items[k][i - 1]
      requires i < |s.lists[k]| && s.lists[k][i] == pRI.id && forall j :: 0 <= j < i ==> s.lists[k][j] != pRI.id
      requires pRI.id < |s.infos| && s.infos[pRI.id].socket == pRI.socketId && Claim(s.mal, pRI.id) < 0
      modifies this`items, heads, {prev}`next
      ensures Shows(s') == true && Next(s, Dequeue(Known(pRI.id)), s') == true
      ensures |items| == heads.Length && pRI !in items[k]
    {
      assert Linked(k);
      CutIsGone(items[k], i);
      WithoutAt(s.lists[k], pRI.id, i);
      CutNumbered(items, all, s.lists, k, i);
      Unlink(pRI, prev, k, i);
      s' := s.(lists := s.lists[k := Without(s.lists[k], pRI.id)], done := s.done + {pRI.id},
               completing := s.completing + {pRI.id});
    }

    /** checkAndDequeueRequestInfoIfAck. */
    method CheckAndDequeueRequestInfoIfAck(pRI: RequestInfo?, isAck: bool, ghost s: State)
      returns (ret: bool, ghost s': State)
      requires Shows(s) && (!isAck && pRI != null && pRI in nodes ==> Claim(s.mal, pRI.id) < 0)
      modifies this`items, heads, nodes`next, {pRI}`wasAckSent
      ensures Shows(s') == true
      ensures Next(s, if isAck then Ack(TokenOf(pRI)) else Dequeue(TokenOf(pRI)), s') == true
      ensures ret <==> pRI != null && pRI in nodes && pRI.id in s.lists[ListOf(pRI.socketId, |s.lists|)]
      ensures |old(items)| == heads.Length > 0
      ensures ret <==> pRI != null && pRI in old(items)[ListOf(pRI.socketId, heads.Length)]
      ensures isAck && ret ==> pRI.wasAckSent
      ensures pRI != null && !(isAck && ret) ==> pRI.wasAckSent == old(pRI.wasAckSent)
      ensures isAck || !ret ==> items == old(items)
      ensures !isAck && ret ==> |items| == heads.Length && pRI !in items[ListOf(pRI.socketId, heads.Length)]
    {
      s' := s;
      if pRI == null { return false, s; }
      var k := ListOf(pRI.socketId, heads.Length);
      assert Linked(k);
      var found, prev, i := Search(pRI, k);
      FoundIsListed(pRI, k, s, found, i);
      ret := found;
      if found {
        if isAck {
          s' := Acked(pRI, s);
        } else {
          s' := Dequeued(pRI, prev, k, i, s);
        }
      }
    }

    /** RIL_onRequestComplete up to the unlinking: a claimed completion goes to malComplete
        and ends here. */
    method OnRequestComplete(pRI: RequestInfo?, ghost s: State) returns (malSlot: int, found: bool, ghost s': State)
      requires Shows(s) && ShowsMal(s.mal)
      modifies this`items, heads, nodes`next, {pRI}`wasAckSent
      ensures Shows(s') && Next(s, Dequeue(TokenOf(pRI)), s')
      ensures malSlot >= 0 ==> !found && s' == s
      ensures found ==> pRI != null && pRI in nodes && pRI.id in s'.completing
    {
      found, s' := false, s;
      malSlot := MalClaim(pRI, s);
      if malSlot < 0 {
        found, s' := CheckAndDequeueRequestInfoIfAck(pRI, false, s);
      }
    }

    /** RIL_onRequestComplete after the unlinking: no response for a local request, and
        otherwise a wake lock if the host is to acknowledge the response. `called` is
        whether the response function is called, with `kind`. */
    method FinishRequest(pRI: RequestInfo, ghost s: State)
      returns (called: bool, kind: ResponseType, grabbed: bool, ghost s': State)
      requires Shows(s) && pRI in nodes && pRI.id in s.completing
      ensures Shows(s') && Next(s, Respond(pRI.id), s')
      ensures s'.responses == s.responses + if pRI.local then [] else [Response(pRI.id, pRI.token, kind, called)]
      ensures s'.grabs == s.grabs + if grabbed then 1 else 0
      ensures called == (!pRI.local && pRI.handled)
      ensures grabbed == (!pRI.local && version >= 13 && pRI.wasAckSent)
      ensures kind == if grabbed then SolicitedAckExp else Solicited
    {
      called, kind, grabbed := false, Solicited, false;
      s' := s;
      if !pRI.local {
        if version >= 13 && pRI.wasAckSent {
          kind, grabbed := SolicitedAckExp, true;
        }
        called := pRI.handled;
        s' := s.(responses := s.responses + [ResponseOf(s, pRI.id)], grabs := s.grabs + if grabbed then 1 else 0);
      }
      s' := s'.(completing := s.completing - {pRI.id});
    }
  }
}
