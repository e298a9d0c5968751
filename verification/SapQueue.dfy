/** The pending-response queue of RilSapSocket: dispatchRequest links a request at the
    front, and onRequestComplete unlinks the first node with the completed request's
    message id and token. */
module SapQueue {

  datatype Key = Key(id: int, token: int)

  /** Requests are numbered in the order of their dispatch. */
  datatype State = State(
    queue: seq<nat>,        // the linked nodes, from the front
    log: seq<Key>,          // every dispatched request
    completed: set<nat>)    // the requests for which onRequestComplete was called

  datatype Step = Dispatch(key: Key) | Complete(n: nat)

  /** The place of the first node with the key, or the length of the queue. */
  function FirstMatch(queue: seq<nat>, log: seq<Key>, key: Key): (k: nat)
    ensures k <= |queue|
    ensures k < |queue| ==> queue[k] < |log| && log[queue[k]] == key
    ensures forall i :: 0 <= i < k ==> !(queue[i] < |log| && log[queue[i]] == key)
  {
    if queue == [] then 0
    else if queue[0] < |log| && log[queue[0]] == key then 0
    else 1 + FirstMatch(queue[1..], log, key)
  }

  lemma {:induction false} FirstMatchUnique(queue: seq<nat>, log: seq<Key>, key: Key, k: nat)
    requires k <= |queue| && (k < |queue| ==> queue[k] < |log| && log[queue[k]] == key)
    requires forall i :: 0 <= i < k ==> !(queue[i] < |log| && log[queue[i]] == key)
    ensures k == FirstMatch(queue, log, key)
  {
    if k > 0 {
      FirstMatchUnique(queue[1..], log, key, k - 1);
    }
  }

  function Unlinked(queue: seq<nat>, k: nat): seq<nat>
    requires k <= |queue|
  {
    if k < |queue| then queue[..k] + queue[k + 1..] else queue
  }

  predicate Next(s: State, step: Step, s': State) {
    match step
    case Dispatch(key) => s' == s.(queue := [|s.log|] + s.queue, log := s.log + [key])
    case Complete(n) =>
      n < |s.log| && n !in s.completed &&
      s' == s.(queue := Unlinked(s.queue, FirstMatch(s.queue, s.log, s.log[n])), completed := s.completed + {n})
  }

  predicate Init(s: State) {
    s == State([], [], {})
  }

  ghost predicate Steps(s: State, s': State) {
    exists step :: Next(s, step, s')
  }

  ghost predicate IsRun(run: seq<State>) {
    && run != [] && Init(run[0])
    && forall i :: 0 <= i < |run| - 1 ==> Steps(run[i], run[i + 1])
  }

  // ---------------------------------------------------------------- the queue over a run

  /** The first `n` requests that are not completed, newest first. */
  function Outstanding(n: nat, completed: set<nat>): (r: seq<nat>) {
    if n == 0 then []
    else if n - 1 in completed then Outstanding(n - 1, completed)
    else [n - 1] + Outstanding(n - 1, completed)
  }

  lemma {:induction false} OutstandingIsNewestFirst(n: nat, completed: set<nat>)
    ensures forall i :: 0 <= i < |Outstanding(n, completed)| ==>
              Outstanding(n, completed)[i] < n && Outstanding(n, completed)[i] !in completed
    ensures forall i, j :: 0 <= i < j < |Outstanding(n, completed)| ==>
              Outstanding(n, completed)[i] > Outstanding(n, completed)[j]
  {
    if n > 0 {
      OutstandingIsNewestFirst(n - 1, completed);
    }
  }

  /** The queue is what it is meant to be. */
  predicate Exact(s: State) {
    s.queue == Outstanding(|s.log|, s.completed)
  }

  /** The place of an outstanding request. */
  lemma {:induction false} PlaceOf(n: nat, completed: set<nat>, m: nat) returns (k: nat)
    requires m < n && m !in completed
    ensures k < |Outstanding(n, completed)| && Outstanding(n, completed)[k] == m
    ensures Outstanding(n, completed + {m}) == Unlinked(Outstanding(n, completed), k)
  {
    var rest := Outstanding(n - 1, completed);
    if n - 1 == m {
      k := 0;
      CompletingLater(n - 1, completed, m);
      UnlinkHead(m, rest);
    } else {
      k := PlaceOf(n - 1, completed, m);
      if n - 1 !in completed {
        UnlinkTail(n - 1, rest, k);
        k := k + 1;
      }
    }
  }

  lemma UnlinkHead(x: nat, rest: seq<nat>)
    ensures Unlinked([x] + rest, 0) == rest
  {
  }

  lemma UnlinkTail(x: nat, rest: seq<nat>, k: nat)
    requires k < |rest|
    ensures Unlinked([x] + rest, k + 1) == [x] + Unlinked(rest, k)
  {
    assert ([x] + rest)[..k + 1] == [x] + rest[..k];
    assert ([x] + rest)[k + 2..] == rest[k + 1..];
  }

  lemma {:induction false} CompletingLater(n: nat, completed: set<nat>, m: nat)
    requires n <= m
    ensures Outstanding(n, completed + {m}) == Outstanding(n, completed)
  {
    if n > 0 {
      CompletingLater(n - 1, completed, m);
    }
  }

  /** A newer outstanding request has the same message id and token. */
  ghost predicate Shadowed(s: State, n: nat)
    requires n < |s.log|
  {
    exists m: nat :: n < m < |s.log| && m !in s.completed && s.log[m] == s.log[n]
  }

  lemma {:induction false} Listed(n: nat, completed: set<nat>, m: nat) returns (k: nat)
    requires m < n && m !in completed
    ensures k < |Outstanding(n, completed)| && Outstanding(n, completed)[k] == m
  {
    k := 0;
    if n - 1 != m {
      k := Listed(n - 1, completed, m);
      if n - 1 !in completed {
        k := k + 1;
      }
    }
  }

  /** What lies behind the first match stays linked. */
  lemma BehindAMatch(queue: seq<nat>, log: seq<Key>, key: Key, j: nat, k: nat)
    requires j < k < |queue| && queue[j] < |log| && log[queue[j]] == key
    ensures queue[k] in Unlinked(queue, FirstMatch(queue, log, key))
  {
    var f := FirstMatch(queue, log, key);
    assert f <= j;
    assert Unlinked(queue, f)[k - 1] == queue[k];
  }

  /** A newer match is unlinked instead: the completed request stays linked. */
  lemma ShadowedStaysLinked(s: State, n: nat, s': State)
    requires Exact(s) && Next(s, Complete(n), s') && Shadowed(s, n)
    ensures n in s'.queue
  {
    OutstandingIsNewestFirst(|s.log|, s.completed);
    var m: nat :| n < m < |s.log| && m !in s.completed && s.log[m] == s.log[n];
    var j := Listed(|s.log|, s.completed, m);
    var k := Listed(|s.log|, s.completed, n);
    assert j < k;
    BehindAMatch(s.queue, s.log, s.log[n], j, k);
  }

  lemma OwnNodeIsFirst(s: State, n: nat, k: nat)
    requires Exact(s) && n < |s.log| && n !in s.completed && !Shadowed(s, n)
    requires k < |s.queue| && s.queue[k] == n
    ensures FirstMatch(s.queue, s.log, s.log[n]) == k
  {
    OutstandingIsNewestFirst(|s.log|, s.completed);
    forall i | 0 <= i < k
      ensures s.queue[i] < |s.log| && s.log[s.queue[i]] != s.log[n]
    {
      assert n < s.queue[i] < |s.log| && s.queue[i] !in s.completed;
    }
    FirstMatchUnique(s.queue, s.log, s.log[n], k);
  }

  /** A completion unlinks its own node, and leaves the order of the others, iff no newer
      outstanding request has the same message id and token. */
  lemma UnlinksItsOwnIffNotShadowed(s: State, n: nat, s': State)
    requires Exact(s) && Next(s, Complete(n), s')
    ensures Exact(s') <==> !Shadowed(s, n)
    ensures n in s'.queue <==> Shadowed(s, n)
  {
    OutstandingIsNewestFirst(|s'.log|, s'.completed);
    if Shadowed(s, n) {
      ShadowedStaysLinked(s, n, s');
    } else {
      var k := PlaceOf(|s.log|, s.completed, n);
      OwnNodeIsFirst(s, n, k);
    }
  }

  /** Outstanding requests differ in message id or token. */
  predicate DistinctKeys(s: State) {
    forall a, b :: 0 <= a < b < |s.log| && a !in s.completed && b !in s.completed ==> s.log[a] != s.log[b]
  }

  /** Over any run whose outstanding keys are distinct, the queue is exactly the dispatched
      requests minus the completed ones, newest first. */
  lemma {:induction false} QueueIsDispatchedMinusCompleted(run: seq<State>, i: nat)
    requires IsRun(run) && i < |run| && forall j :: 0 <= j < |run| ==> DistinctKeys(run[j])
    ensures run[i].queue == Outstanding(|run[i].log|, run[i].completed)
  {
    if i > 0 {
      var s, s' := run[i - 1], run[i];
      assert 0 <= i - 1 < |run| - 1;
      var step :| Next(s, step, s');
      CompletedIsLogged(run, i - 1);
      QueueIsDispatchedMinusCompleted(run, i - 1);
      match step
      case Dispatch(_) => assert |s.log| !in s.completed;
      case Complete(n) =>
        assert DistinctKeys(s);
        UnlinksItsOwnIffNotShadowed(s, n, s');
    }
  }

  lemma {:induction false} CompletedIsLogged(run: seq<State>, i: nat)
    requires IsRun(run) && i < |run|
    ensures forall n :: n in run[i].completed ==> n < |run[i].log|
  {
    if i > 0 {
      CompletedIsLogged(run, i - 1);
      assert Steps(run[i - 1], run[i - 1 + 1]);
      var step :| Next(run[i - 1], step, run[i]);
    }
  }

  /** With equal keys the promise is broken: the first completion unlinks the newer node,
      and the completed request stays linked. */
  lemma EqualKeysUnlinkTheWrongNode(key: Key) returns (run: seq<State>)
    ensures IsRun(run)
    ensures run[|run| - 1] == State([0], [key, key], {0})
  {
    var s0, s1, s2 := State([], [], {}), State([0], [key], {}), State([1, 0], [key, key], {});
    var s3 := State([0], [key, key], {0});
    assert Next(s0, Dispatch(key), s1) && Next(s1, Dispatch(key), s2);
    assert FirstMatch(s2.queue, s2.log, key) == 0;
    assert Next(s2, Complete(0), s3);
    run := [s0, s1, s2, s3];
  }

  // ---------------------------------------------------------------- the queue in place

  class SapRequest {
    ghost const n: nat
    const id: int
    const token: int
    var next: SapRequest?

    constructor (id: int, token: int, ghost n: nat)
      ensures this.n == n && this.id == id && this.token == token && next == null
    {
      this.n, this.id, this.token, next := n, id, token, null;
    }
  }

  /** Ril_queue. Each method is one step of the machine. */
  class Queue {
    var front: SapRequest?
    ghost var items: seq<SapRequest>
    ghost var nodes: set<SapRequest>

    /** The node at position `i`, and null behind the end. */
    ghost function At(i: nat): SapRequest?
      requires i <= |items|
      reads this`items
    {
      if i < |items| then items[i] else null
    }

    ghost predicate Valid()
      reads this, nodes`next
    {
      && front == At(0)
      && (forall i :: 0 <= i < |items| ==> items[i] in nodes)
      && (forall i, j :: 0 <= i < j < |items| ==> items[i] != items[j])
      && (forall i {:trigger items[i].next} :: 0 <= i < |items| ==> items[i].next == At(i + 1))
    }

    ghost predicate Shows(s: State)
      reads this, nodes`next
    {
      && Valid() && |items| == |s.queue|
      && (forall i :: 0 <= i < |items| ==> items[i].n == s.queue[i])
      && (forall r :: r in nodes ==> r.n < |s.log| && s.log[r.n] == Key(r.id, r.token))
    }

    constructor ()
      ensures Valid() && items == [] && nodes == {} && Shows(State([], [], {}))
    {
      front, items, nodes := null, [], {};
    }

    /** enqueue, as dispatchRequest calls it. */
    method Enqueue(request: SapRequest, ghost s: State) returns (ghost s': State)
      requires Shows(s) && request !in nodes && request.n == |s.log|
      modifies this, {request}`next
      ensures Shows(s') && Next(s, Dispatch(Key(request.id, request.token)), s')
      ensures items == [request] + old(items) && nodes == old(nodes) + {request}
    {
      if front == null {
        front := request;
        request.next := null;
      } else {
        request.next := front;
        front := request;
      }
      items, nodes := [request] + items, nodes + {request};
      s' := s.(queue := [|s.log|] + s.queue, log := s.log + [Key(request.id, request.token)]);
    }

    /** One pass of dequeue: the front node, or null when the queue is empty, on which the
        caller goes on waiting for the condition. */
    method Dequeue() returns (r: SapRequest?)
      requires Valid()
      modifies this`front, this`items
      ensures Valid() && (r == null <==> old(items) == [])
      ensures r == null ==> items == old(items)
      ensures r != null ==> old(items) == [r] + items
    {
      r := front;
      if r == null {
        return;
      }
      if front.next != null {
        front := front.next;
      } else {
        front := null;
      }
      items := items[1..];
    }

    /** The walk of checkAndDequeue. */
    method Search(id: int, token: int, ghost s: State) returns (cur: SapRequest?, prev: SapRequest?, ghost k: nat)
      requires Shows(s)
      ensures k == FirstMatch(s.queue, s.log, Key(id, token)) && cur == At(k)
      ensures prev == if k == 0 then null else items[k - 1]
    {
      cur, prev, k := front, null, 0;
      while cur != null && !(token == cur.token && id == cur.id)
        invariant k <= |items| && cur == At(k)
        invariant prev == if k == 0 then null else items[k - 1]
        invariant forall i :: 0 <= i < k ==> s.log[s.queue[i]] != Key(id, token)
        decreases |items| - k
      {
        prev, cur, k := cur, cur.next, k + 1;
      }
      FirstMatchUnique(s.queue, s.log, Key(id, token), k);
    }

    /** `*ppCur = (*ppCur)->p_next`. */
    method Unlink(cur: SapRequest, prev: SapRequest?, ghost k: nat)
      requires Valid() && k < |items| && items[k] == cur && prev == if k == 0 then null else items[k - 1]
      modifies this`front, this`items, {prev}`next
      ensures Valid() && items == old(items)[..k] + old(items)[k + 1..]
    {
      if prev == null {
        front := cur.next;
      } else {
        prev.next := cur.next;
      }
      items := items[..k] + items[k + 1..];
    }

    /** checkAndDequeue, as onRequestComplete calls it for request `n`. */
    method CheckAndDequeue(id: int, token: int, ghost n: nat, ghost s: State) returns (ret: bool, ghost s': State)
      requires Shows(s) && n < |s.log| && n !in s.completed && s.log[n] == Key(id, token)
      modifies this`front, this`items, nodes`next
      ensures Shows(s') && Next(s, Complete(n), s')
      ensures ret <==> FirstMatch(s.queue, s.log, Key(id, token)) < |s.queue|
    {
      var cur, prev, k := Search(id, token, s);
      s' := s.(queue := Unlinked(s.queue, k), completed := s.completed + {n});
      ret := cur != null;
      if cur != null {
        Unlink(cur, prev, k);
      }
    }
  }
}
