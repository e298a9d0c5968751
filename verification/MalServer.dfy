/** The rild-mal server in the source's own form: a connection that splits and interrupts
    reads and writes at will, one body buffer reused for every frame, the in-flight table,
    and the retry loop of malDispatch. */
module MalServer {
  import opened Bytes
  import opened MalFraming
  import opened MalTable
  import opened Wrappers

  // ---------------------------------------------------------------- the socket

  /** How the kernel answers one read or write: interrupted, or cut to at most `most`
      bytes (and at least one). A write may also fail for good. */
  datatype IoEvent = Interrupted | Cut(most: nat) | Failed

  datatype IoResult = Got(n: nat) | Eintr | IoError

  class Connection {
    var incoming: seq<Byte>       // not yet read
    var outgoing: seq<Byte>       // written so far
    var readEvents: seq<IoEvent>
    var writeEvents: seq<IoEvent>
    var broken: bool              // a write has failed: no later one succeeds

    constructor (incoming: seq<Byte>, readEvents: seq<IoEvent>, writeEvents: seq<IoEvent>)
      ensures this.incoming == incoming && outgoing == [] && !broken
    {
      this.incoming, outgoing, broken := incoming, [], false;
      this.readEvents, this.writeEvents := readEvents, writeEvents;
    }

    /** read(fd, buf + from, want). A read error is the end of the stream. */
    method Read(buf: array<Byte>, from: nat, want: nat) returns (r: IoResult)
      requires 0 < want && from + want <= buf.Length
      modifies this`incoming, this`readEvents, buf
      ensures r.Got? ==>
        && r.n <= want && r.n <= |old(incoming)| && (r.n == 0 ==> old(incoming) == [])
        && incoming == old(incoming)[r.n..]
        && buf[..] == old(buf[..from]) + old(incoming)[..r.n] + old(buf[from + r.n..])
      ensures !r.Got? ==> incoming == old(incoming) && buf[..] == old(buf[..])
      ensures r.IoError? ==> incoming == []
      ensures r.Eintr? ==> |readEvents| < |old(readEvents)|
    {
      var most := want;
      if readEvents != [] {
        var event := readEvents[0];
        readEvents := readEvents[1..];
        match event {
          case Interrupted => return Eintr;
          case Cut(m) => most := if m == 0 then 1 else m;
          case Failed => if incoming == [] { return IoError; }
        }
      }
      var n := if most < want then most else want;
      n := if n < |incoming| then n else |incoming|;
      forall i | 0 <= i < n {
        buf[from + i] := incoming[i];
      }
      incoming := incoming[n..];
      return Got(n);
    }

    /** write(fd, data): the number of bytes taken. */
    method Write(data: seq<Byte>) returns (r: IoResult)
      requires data != []
      modifies this`outgoing, this`writeEvents, this`broken
      ensures r.Got? ==> !old(broken) && !broken && 0 < r.n <= |data| && outgoing == old(outgoing) + data[..r.n]
      ensures !r.Got? ==> outgoing == old(outgoing)
      ensures r.Eintr? ==> |writeEvents| < |old(writeEvents)| && broken == old(broken)
      ensures r.IoError? ==> broken
    {
      var most := |data|;
      if writeEvents != [] {
        var event := writeEvents[0];
        writeEvents := writeEvents[1..];
        match event {
          case Interrupted => return Eintr;
          case Cut(m) => most := if m == 0 then 1 else m;
          case Failed => broken := true;
        }
      }
      if broken { return IoError; }
      var n := if most < |data| then most else |data|;
      outgoing := outgoing + data[..n];
      return Got(n);
    }
  }

  /** malReadAll: all of `len` bytes, or the stream ended before. */
  method MalReadAll(fd: Connection, buf: array<Byte>, len: nat) returns (ok: bool)
    requires len <= buf.Length
    modifies fd`incoming, fd`readEvents, buf
    ensures ok == (len <= |old(fd.incoming)|)
    ensures ok ==> buf[..len] == old(fd.incoming)[..len] && fd.incoming == old(fd.incoming)[len..]
    ensures !ok ==> fd.incoming == []
  {
    var done := 0;
    while done < len
      invariant done <= len && done <= |old(fd.incoming)|
      invariant fd.incoming == old(fd.incoming)[done..] && buf[..done] == old(fd.incoming)[..done]
      decreases len - done, |fd.readEvents|
    {
      var r := fd.Read(buf, done, len - done);
      match r {
        case Eintr =>
        case IoError => return false;
        case Got(n) =>
          if n == 0 { return false; }
          done := done + n;
      }
    }
    return true;
  }

  /** malWriteAll: all of `data`, unless the connection breaks. */
  method MalWriteAll(fd: Connection, data: seq<Byte>) returns (ok: bool)
    modifies fd`outgoing, fd`writeEvents, fd`broken
    ensures old(fd.outgoing) <= fd.outgoing <= old(fd.outgoing) + data
    ensures ok ==> fd.outgoing == old(fd.outgoing) + data && fd.broken == old(fd.broken)
    ensures !ok ==> fd.broken
    ensures old(fd.broken) ==> fd.broken && fd.outgoing == old(fd.outgoing)
  {
    var done := 0;
    while done < |data|
      invariant done <= |data| && fd.outgoing == old(fd.outgoing) + data[..done]
      invariant fd.broken == old(fd.broken) && (fd.broken ==> done == 0)
      decreases |data| - done, |fd.writeEvents|
    {
      var r := fd.Write(data[done..]);
      match r {
        case Eintr =>
        case IoError => return false;
        case Got(n) =>
          assert data[..done] + data[done..][..n] == data[..done + n];
          done := done + n;
      }
    }
    return true;
  }

  // ---------------------------------------------------------------- one request

  /** How one attempt ends for malDispatch: the vendor completes it before the wait is
      over, or the wait times out. A late completion may still reach the slot before
      malDispatch collects the answer. */
  datatype Outcome = Completed(c: Completion) | TimedOut(late: Option<Completion>)

  predicate Stops(vendor: nat -> Outcome, attempt: nat) {
    attempt >= MAX_ATTEMPTS || vendor(attempt).TimedOut? || vendor(attempt).c.err == 0
  }

  /** The last attempt of the retry loop, from `attempt` on. */
  function LastAttempt(vendor: nat -> Outcome, attempt: nat): (n: nat)
    requires 1 <= attempt <= MAX_ATTEMPTS
    ensures attempt <= n <= MAX_ATTEMPTS
    decreases MAX_ATTEMPTS - attempt
  {
    if Stops(vendor, attempt) then attempt else LastAttempt(vendor, attempt + 1)
  }

  /** It is the first one after which the loop stops. */
  lemma {:induction false} LastAttemptIsFirstStop(vendor: nat -> Outcome, attempt: nat)
    requires 1 <= attempt <= MAX_ATTEMPTS
    ensures Stops(vendor, LastAttempt(vendor, attempt))
    ensures forall k :: attempt <= k < LastAttempt(vendor, attempt) ==> !Stops(vendor, k)
    decreases MAX_ATTEMPTS - attempt
  {
    if !Stops(vendor, attempt) {
      LastAttemptIsFirstStop(vendor, attempt + 1);
    }
  }

  /** The text in the slot when the n-th attempt is about to be made. */
  function TextBefore(vendor: nat -> Outcome, n: nat): seq<Byte> {
    if n <= 1 || vendor(n - 1).TimedOut? then [] else Text(vendor(n - 1).c.response)
  }

  /** What malDispatch collects after the n-th attempt, the last one. A timed-out answer
      carries whatever text the slot holds: a late one, or that of the attempt before. */
  function Collected(vendor: nat -> Outcome, n: nat): (U32, seq<Byte>) {
    match vendor(n)
    case Completed(c) => (c.err, Text(c.response))
    case TimedOut(Some(c)) => (GENERIC_FAILURE, Text(c.response))
    case TimedOut(None) => (GENERIC_FAILURE, TextBefore(vendor, n))
  }

  /** The answer to a request, for every behaviour of the vendor. */
  function AnswerTo(r: Request, vendor: nat -> Outcome): Answer {
    match Classify(r)
    case Refused => Answer(r.simId, r.serial, GENERIC_FAILURE, [])
    case Command(_, _) =>
      var (err, text) := Collected(vendor, LastAttempt(vendor, 1));
      Answer(r.simId, r.serial, err, text)
  }

  /** The attempts before the n-th completed with an error, and the n-th succeeded. */
  predicate FirstSuccess(vendor: nat -> Outcome, n: nat) {
    && 1 <= n <= MAX_ATTEMPTS && vendor(n).Completed? && vendor(n).c.err == 0
    && forall k :: 1 <= k < n ==> vendor(k).Completed? && vendor(k).c.err != 0
  }

  /** A command is answered with success iff one of the first ten attempts succeeds and all
      earlier ones completed; and then with the text of the first success. */
  lemma FirstSuccessIsReturned(r: Request, vendor: nat -> Outcome)
    requires Classify(r).Command?
    ensures AnswerTo(r, vendor).err == 0 <==> exists n :: FirstSuccess(vendor, n)
    ensures forall n :: FirstSuccess(vendor, n) ==>
              AnswerTo(r, vendor).text == Text(vendor(n).c.response) && LastAttempt(vendor, 1) == n
  {
    LastAttemptIsFirstStop(vendor, 1);
    var last := LastAttempt(vendor, 1);
    if AnswerTo(r, vendor).err == 0 {
      assert forall k :: 1 <= k < last ==> !Stops(vendor, k);
      assert FirstSuccess(vendor, last);
    }
    forall n | FirstSuccess(vendor, n)
      ensures last == n
    {
      assert n < last ==> !Stops(vendor, n);
      assert last < n ==> Stops(vendor, last);
    }
  }

  /** What else is answered: GENERIC_FAILURE and no text to a refused request;
      GENERIC_FAILURE after the first timeout; and the tenth completion when all fail. */
  lemma OtherAnswers(r: Request, vendor: nat -> Outcome, n: nat)
    requires 1 <= n <= MAX_ATTEMPTS && forall k :: 1 <= k < n ==> vendor(k).Completed? && vendor(k).c.err != 0
    ensures var a := AnswerTo(r, vendor);
            && (Classify(r).Refused? ==> a.err == GENERIC_FAILURE && a.text == [])
            && (Classify(r).Command? && vendor(n).TimedOut? ==> a.err == GENERIC_FAILURE && LastAttempt(vendor, 1) == n)
            && (Classify(r).Command? && n == MAX_ATTEMPTS && vendor(n).Completed? ==>
                  a.err == vendor(n).c.err && a.text == Text(vendor(n).c.response))
  {
    LastAttemptIsFirstStop(vendor, 1);
    var last := LastAttempt(vendor, 1);
    assert last >= n;
    assert n < last && vendor(n).TimedOut? ==> Stops(vendor, n);
  }

  /** The text of a timed-out answer: that of a completion after the timeout, or else of the
      attempt before, or none. */
  lemma TimedOutText(r: Request, vendor: nat -> Outcome, n: nat)
    requires Classify(r).Command? && 1 <= n <= MAX_ATTEMPTS && vendor(n).TimedOut?
    requires forall k :: 1 <= k < n ==> vendor(k).Completed? && vendor(k).c.err != 0
    ensures AnswerTo(r, vendor).text ==
      if vendor(n).late.Some? then Text(vendor(n).late.value.response)
      else if n == 1 then [] else Text(vendor(n - 1).c.response)
  {
    OtherAnswers(r, vendor, n);
  }

  // ---------------------------------------------------------------- the server

  /** A call of onRequest: the bytes and the token that the vendor is given. */
  datatype VendorCall = VendorCall(data: seq<Byte>, token: nat)

  function Repeated(call: VendorCall, n: nat): (calls: seq<VendorCall>)
    ensures |calls| == n && forall i :: 0 <= i < n ==> calls[i] == call
  {
    if n == 0 then [] else Repeated(call, n - 1) + [call]
  }

  lemma RepeatMore(before: seq<VendorCall>, call: VendorCall, n: nat)
    ensures before + Repeated(call, n) + [call] == before + Repeated(call, n + 1)
  {
  }

  /** The vendor calls for a request: none if it is refused, and otherwise one for every
      attempt, always with the command of the request, terminated by a NUL. */
  function CallsFor(r: Request, vendor: nat -> Outcome, token: nat): seq<VendorCall> {
    match Classify(r)
    case Refused => []
    case Command(_, cmd) => Repeated(VendorCall(cmd + [0], token), LastAttempt(vendor, 1))
  }

  function NextToken(r: Request, token: nat): nat {
    if Classify(r).Refused? then token else token + 1
  }

  function TokenAfter(rs: seq<Request>, token: nat): nat {
    if rs == [] then token else NextToken(rs[|rs| - 1], TokenAfter(rs[..|rs| - 1], token))
  }

  /** The vendor calls for all requests of a connection, in order. */
  function AllCalls(rs: seq<Request>, vendor: nat -> nat -> Outcome, token: nat): seq<VendorCall> {
    if rs == [] then []
    else
      var n := |rs| - 1;
      AllCalls(rs[..n], vendor, token) + CallsFor(rs[n], vendor(n), TokenAfter(rs[..n], token))
  }

  /** The request is a command in the client's layout. */
  ghost predicate Commands(r: Request, channel: U32, cmd: seq<Byte>) {
    r.requestId == AT_COMMAND_WITH_PROXY && IsCommand(r.payload, channel, cmd)
  }

  /** The calls made for a request: at least one if it is a command, each with the client's
      bytes behind which a NUL was put and with the token, and none otherwise. */
  ghost predicate RightCalls(r: Request, calls: seq<VendorCall>, token: nat) {
    && (forall channel, cmd :: Commands(r, channel, cmd) ==>
          && |calls| >= 1
          && forall k :: 0 <= k < |calls| ==> calls[k].data == cmd + [0] && calls[k].token == token)
    && ((forall channel, cmd :: !Commands(r, channel, cmd)) ==> calls == [])
  }

  lemma CallsAreRight(r: Request, vendor: nat -> Outcome, token: nat)
    ensures RightCalls(r, CallsFor(r, vendor, token), token)
  {
    forall channel, cmd | Commands(r, channel, cmd)
      ensures Classify(r) == Command(channel, cmd)
    {
      ClassifyIff(r, channel, cmd);
    }
    match Classify(r)
    case Refused =>
    case Command(channel, cmd) =>
      ClassifyIff(r, channel, cmd);
      assert Commands(r, channel, cmd);
  }

  lemma CallsOfNext(rs: seq<Request>, vendor: nat -> nat -> Outcome, token: nat, n: nat)
    requires n < |rs|
    ensures AllCalls(rs[..n + 1], vendor, token)
         == AllCalls(rs[..n], vendor, token) + CallsFor(rs[n], vendor(n), TokenAfter(rs[..n], token))
  {
    assert rs[..n + 1][..n] == rs[..n];
  }

  lemma {:induction false} PrefixChain(f: nat -> seq<VendorCall>, i: nat, n: nat)
    requires i <= n && forall k :: i <= k < n ==> f(k) <= f(k + 1)
    ensures f(i) <= f(n)
  {
    if i < n {
      PrefixChain(f, i, n - 1);
      assert f(n - 1) <= f(n - 1 + 1);
    }
  }

  lemma CallsArePrefix(rs: seq<Request>, vendor: nat -> nat -> Outcome, token: nat, i: nat)
    requires i <= |rs|
    ensures AllCalls(rs[..i], vendor, token) <= AllCalls(rs, vendor, token)
  {
    var f := (k: nat) => if k <= |rs| then AllCalls(rs[..k], vendor, token) else [];
    forall k: nat | i <= k < |rs| ensures f(k) <= f(k + 1) {
      CallsOfNext(rs, vendor, token, k);
    }
    PrefixChain(f, i, |rs|);
    assert rs[..|rs|] == rs;
  }

  /** For every command of a connection the vendor is called with the client's bytes and a
      NUL, after all calls for earlier requests. */
  lemma EveryCommandIsCalled(rs: seq<Request>, vendor: nat -> nat -> Outcome, token: nat, i: nat,
                             channel: U32, cmd: seq<Byte>)
    returns (from: nat, upTo: nat)
    requires i < |rs| && Commands(rs[i], channel, cmd)
    ensures from == |AllCalls(rs[..i], vendor, token)| < upTo <= |AllCalls(rs, vendor, token)|
    ensures forall k :: from <= k < upTo ==>
              AllCalls(rs, vendor, token)[k] == VendorCall(cmd + [0], TokenAfter(rs[..i], token))
  {
    var mine := CallsFor(rs[i], vendor(i), TokenAfter(rs[..i], token));
    CallsOfNext(rs, vendor, token, i);
    CallsArePrefix(rs, vendor, token, i + 1);
    CallsAreRight(rs[i], vendor(i), TokenAfter(rs[..i], token));
    from := |AllCalls(rs[..i], vendor, token)|;
    upTo := from + |mine|;
    forall k | from <= k < upTo
      ensures AllCalls(rs, vendor, token)[k] == VendorCall(cmd + [0], TokenAfter(rs[..i], token))
    {
      assert AllCalls(rs, vendor, token)[k] == mine[k - from];
    }
  }

  /** And there are no other calls. */
  lemma {:induction false} EveryCallIsForACommand(rs: seq<Request>, vendor: nat -> nat -> Outcome, token: nat, k: nat)
    returns (i: nat, channel: U32, cmd: seq<Byte>)
    requires k < |AllCalls(rs, vendor, token)|
    ensures i < |rs| && Commands(rs[i], channel, cmd)
    ensures AllCalls(rs, vendor, token)[k] == VendorCall(cmd + [0], TokenAfter(rs[..i], token))
  {
    var n := |rs| - 1;
    var before := AllCalls(rs[..n], vendor, token);
    if k < |before| {
      i, channel, cmd := EveryCallIsForACommand(rs[..n], vendor, token, k);
      assert rs[..n][..i] == rs[..i];
    } else {
      i := n;
      CallsAreRight(rs[n], vendor(n), TokenAfter(rs[..n], token));
      channel, cmd :| Commands(rs[n], channel, cmd);
    }
  }

  /** Every command has a token of its own. */
  lemma {:induction false} TokensAreFresh(rs: seq<Request>, token: nat, i: nat, channel: U32, cmd: seq<Byte>)
    requires i < |rs| && Commands(rs[i], channel, cmd)
    ensures token <= TokenAfter(rs[..i], token) < TokenAfter(rs, token)
  {
    var n := |rs| - 1;
    assert rs[..i] == rs[..n][..i];
    ClassifyIff(rs[i], channel, cmd);
    if i < n {
      TokensAreFresh(rs[..n], token, i, channel, cmd);
    } else {
      TokensGrow(rs[..n], token);
    }
  }

  lemma {:induction false} TokensGrow(rs: seq<Request>, token: nat)
    ensures token <= TokenAfter(rs, token)
  {
    if rs != [] {
      TokensGrow(rs[..|rs| - 1], token);
    }
  }

  /** What reached a connection: all of `data`, or a part of it if the connection broke. */
  ghost predicate Sent(fd: Connection, before: seq<Byte>, data: seq<Byte>)
    reads fd
  {
    fd.outgoing <= before + data && (!fd.broken ==> fd.outgoing == before + data)
  }

  /** One more write of `frame` after `frames`; a broken connection takes nothing. */
  lemma SentMore(before: seq<Byte>, frames: seq<Byte>, frame: seq<Byte>,
                 out: seq<Byte>, broken: bool, out': seq<Byte>, broken': bool)
    requires out <= before + frames && (!broken ==> out == before + frames)
    requires out' <= out + frame && (!broken' ==> out' == out + frame)
    requires broken ==> broken' && out' == out
    ensures out' <= before + (frames + frame) && (!broken' ==> out' == before + (frames + frame))
  {
    assert before + (frames + frame) == before + frames + frame;
  }

  ghost predicate AllAnswered(dispatched: seq<Request>, vendor: nat -> nat -> Outcome, answers: seq<Answer>) {
    && |answers| == |dispatched|
    && forall i :: 0 <= i < |answers| ==> answers[i] == AnswerTo(dispatched[i], vendor(i))
  }

  lemma CallsMore(rs: seq<Request>, vendor: nat -> nat -> Outcome, token: nat, r: Request, before: seq<VendorCall>)
    ensures before + AllCalls(rs + [r], vendor, token)
         == before + AllCalls(rs, vendor, token) + CallsFor(r, vendor(|rs|), TokenAfter(rs, token))
    ensures TokenAfter(rs + [r], token) == NextToken(r, TokenAfter(rs, token))
  {
    assert (rs + [r])[..|rs|] == rs;
  }

  lemma AnsweredMore(dispatched: seq<Request>, vendor: nat -> nat -> Outcome, answers: seq<Answer>, r: Request)
    requires AllAnswered(dispatched, vendor, answers)
    ensures AllAnswered(dispatched + [r], vendor, answers + [AnswerTo(r, vendor(|dispatched|))])
  {
  }

  lemma AnswerEchoes(r: Request, vendor: nat -> Outcome)
    ensures AnswerTo(r, vendor).simId == r.simId && AnswerTo(r, vendor).serial == r.serial
  {
  }

  /** The client of a connection that did not break decodes exactly one answer for every
      request it sent, in order, each echoing its sim id and serial. */
  lemma ClientSeesOneAnswerEach(dispatched: seq<Request>, vendor: nat -> nat -> Outcome, answers: seq<Answer>)
    requires AllAnswered(dispatched, vendor, answers)
    requires forall i :: 0 <= i < |answers| ==> Short(answers[i])
    ensures var decoded := ParseAnswers(AnswerFrames(answers));
            && |decoded| == |dispatched|
            && forall i :: 0 <= i < |decoded| ==>
                 decoded[i].simId == dispatched[i].simId && decoded[i].serial == dispatched[i].serial
  {
    AnswersRoundTrip(answers);
    forall i | 0 <= i < |answers|
      ensures answers[i].simId == dispatched[i].simId && answers[i].serial == dispatched[i].serial
    {
      AnswerEchoes(dispatched[i], vendor(i));
    }
  }

  class Server {
    var client: Connection?       // s_malClientFd
    const inflight: array<Slot>   // s_malInflight

    var nextToken: nat            // one fresh RequestInfo for every command
    ghost var calls: seq<VendorCall>

    constructor ()
      ensures client == null && Idle() && fresh(inflight) && calls == []
    {
      client, nextToken, calls := null, 0, [];
      inflight := new Slot[MAX_INFLIGHT](_ => EMPTY);
    }

    /** No request is in flight. */
    ghost predicate Idle()
      reads inflight
    {
      inflight.Length == MAX_INFLIGHT && forall i :: 0 <= i < inflight.Length ==> !inflight[i].inUse
    }

    ghost function Clients(): set<Connection>
      reads this`client
    {
      if client == null then {} else {client}
    }

    /** malSendFrame. */
    method MalSendFrame(a: Answer)
      modifies Clients()`outgoing, Clients()`writeEvents, Clients()`broken
      ensures client != null ==>
        && Sent(client, old(client.outgoing), AnswerFrame(a))
        && (old(client.broken) ==> client.broken && client.outgoing == old(client.outgoing))
    {
      if client != null {
        var ok := MalWriteAll(client, AnswerFrame(a));
      }
    }

    /** malClaim. */
    method MalClaim(token: nat) returns (slot: int)
      ensures slot == Claim(inflight[..], token)
    {
      slot := -1;
      for i := 0 to inflight.Length
        invariant slot == -1 && forall j :: 0 <= j < i ==> !Matches(inflight[j], token)
      {
        if inflight[i].inUse && inflight[i].token == Some(token) {
          return i;
        }
      }
    }

    /** malComplete. */
    method MalComplete(slot: nat, c: Completion)
      requires slot < inflight.Length
      modifies inflight
      ensures inflight[..] == Fill(old(inflight[..]), slot, c)
      ensures inflight[slot].done && inflight[slot].err == c.err && inflight[slot].text == Text(c.response)
      ensures inflight[slot].inUse == old(inflight[slot].inUse) && inflight[slot].token == old(inflight[slot].token)
      ensures Others(slot, old(inflight[..]))
    {
      inflight[slot] := inflight[slot].(done := true, err := c.err, text := Text(c.response));
    }

    /** RIL_onRequestComplete for the token of slot `slot`, which is the only one with it. */
    method OnRequestComplete(slot: nat, token: nat, c: Completion)
      requires slot < inflight.Length && Matches(inflight[slot], token)
      requires forall i :: 0 <= i < slot ==> !inflight[i].inUse || inflight[i].token != Some(token)
      modifies inflight
      ensures inflight[..] == Fill(old(inflight[..]), slot, c)
    {
      var i := MalClaim(token);
      assert Matches(inflight[..][slot], token);
      if i >= 0 {
        MalComplete(i, c);
      }
    }

    /** The request in slot `slot`, as malDispatch sees it during the retry loop. */
    ghost predicate Mine(slot: nat, token: nat)
      reads inflight
    {
      && slot < inflight.Length && Matches(inflight[slot], token)
      && forall i :: 0 <= i < slot ==> !inflight[i].inUse || inflight[i].token != Some(token)
    }

    /** All other slots are as in `table`. */
    ghost predicate Others(slot: nat, table: seq<Slot>)
      reads inflight
    {
      inflight.Length == |table| && forall i :: 0 <= i < |table| && i != slot ==> inflight[i] == table[i]
    }

    /** One attempt: the vendor is called, and either completes before the wait is over or
        leaves the slot as it was. */
    method TryOnce(slot: nat, data: seq<Byte>, token: nat, outcome: Outcome)
      requires Mine(slot, token)
      modifies inflight, this`calls
      ensures Mine(slot, token) && calls == old(calls) + [VendorCall(data, token)]
      ensures Others(slot, old(inflight[..]))
      ensures inflight[slot].done == outcome.Completed?
      ensures outcome.Completed? ==> inflight[slot].err == outcome.c.err
      ensures inflight[slot].text == if outcome.Completed? then Text(outcome.c.response) else old(inflight[slot].text)
    {
      inflight[slot] := inflight[slot].(done := false);
      calls := calls + [VendorCall(data, token)];
      if outcome.Completed? {
        OnRequestComplete(slot, token, outcome.c);
      }
    }

    /** The retry loop of malDispatch. */
    method RetryLoop(slot: nat, data: seq<Byte>, token: nat, vendor: nat -> Outcome)
      returns (attempt: nat, timedOut: bool)
      requires Mine(slot, token) && inflight[slot].text == []
      modifies inflight, this`calls
      ensures attempt == LastAttempt(vendor, 1) && timedOut == vendor(attempt).TimedOut?
      ensures calls == old(calls) + Repeated(VendorCall(data, token), attempt)
      ensures Mine(slot, token) && Others(slot, old(inflight[..]))
      ensures timedOut ==> inflight[slot].text == TextBefore(vendor, attempt)
      ensures !timedOut ==> (inflight[slot].err, inflight[slot].text) == Collected(vendor, attempt)
    {
      attempt := 1;
      ghost var table, before := inflight[..], calls;
      while true
        invariant 1 <= attempt <= MAX_ATTEMPTS && LastAttempt(vendor, attempt) == LastAttempt(vendor, 1)
        invariant inflight[slot].text == TextBefore(vendor, attempt)
        invariant Mine(slot, token) == true && Others(slot, table)
        invariant calls == before + Repeated(VendorCall(data, token), attempt - 1)
        decreases MAX_ATTEMPTS - attempt
      {
        RepeatMore(before, VendorCall(data, token), attempt - 1);
        TryOnce(slot, data, token, vendor(attempt));
        timedOut := !inflight[slot].done;
        assert Stops(vendor, attempt) <==> timedOut || inflight[slot].err == 0 || attempt >= MAX_ATTEMPTS;
        if timedOut || inflight[slot].err == 0 || attempt >= MAX_ATTEMPTS { return; }
        attempt := attempt + 1;
      }
    }

    /** The collection of the answer; `late` is a completion after the timeout. */
    method Collect(slot: nat, token: nat, timedOut: bool, late: Option<Completion>) returns (err: U32, text: seq<Byte>)
      requires Mine(slot, token) && (late.Some? ==> timedOut)
      modifies inflight
      ensures err == if timedOut then GENERIC_FAILURE else old(inflight[slot].err)
      ensures text == if late.Some? then Text(late.value.response) else old(inflight[slot].text)
      ensures inflight[slot].text == []
      ensures Mine(slot, token) && Others(slot, old(inflight[..]))
    {
      if late.Some? {
        OnRequestComplete(slot, token, late.value);
      }
      err := if timedOut then GENERIC_FAILURE else inflight[slot].err;
      text := inflight[slot].text;
      inflight[slot] := inflight[slot].(text := []);
    }

    /** The search for a slot in malDispatch. */
    method FindSlot() returns (slot: int)
      ensures slot == FreeSlot(inflight[..])
    {
      slot := -1;
      for i := 0 to inflight.Length
        invariant slot == -1 && forall j :: 0 <= j < i ==> inflight[j].inUse
      {
        if !inflight[i].inUse {
          return i;
        }
      }
    }

    ghost predicate Full()
      reads inflight
    {
      forall i :: 0 <= i < inflight.Length ==> inflight[i].inUse
    }

    /** No slot has a token that was not handed out yet. */
    ghost predicate Fresh()
      reads this`nextToken, inflight
    {
      forall i :: 0 <= i < inflight.Length && inflight[i].token.Some? ==> inflight[i].token.value < nextToken
    }

    /** The end of malDispatch: the token is taken out of the slot, and the slot is free. */
    method GiveBack(slot: nat)
      requires slot < inflight.Length
      modifies inflight
      ensures Others(slot, old(inflight[..])) == true
      ensures !inflight[slot].inUse && inflight[slot].token == None
    {
      inflight[slot] := inflight[slot].(token := None);
      inflight[slot] := inflight[slot].(inUse := false);
    }

    /** The retry loop for a command that has a free slot, and the answer. */
    method Execute(r: Request, slot: nat, cmd: seq<Byte>, vendor: nat -> Outcome)
      requires client != null && Fresh() && slot < inflight.Length && !inflight[slot].inUse
      requires Classify(r).Command? && Classify(r).cmd == cmd
      modifies inflight, this`nextToken, this`calls, client`outgoing, client`writeEvents, client`broken
      ensures Sent(client, old(client.outgoing), AnswerFrame(AnswerTo(r, vendor)))
      ensures old(client.broken) ==> client.broken && client.outgoing == old(client.outgoing)
      ensures calls == old(calls) + CallsFor(r, vendor, old(nextToken)) && nextToken == old(nextToken) + 1
      ensures Fresh() && forall i :: 0 <= i < inflight.Length ==> inflight[i].inUse == old(inflight[i].inUse)
    {
      var token := nextToken;
      nextToken := nextToken + 1;
      inflight[slot] := Slot(true, Some(token), false, 0, []);
      var attempt, timedOut := RetryLoop(slot, cmd + [0], token, vendor);
      var err, text := Collect(slot, token, timedOut, if timedOut then vendor(attempt).late else None);
      MalSendFrame(Answer(r.simId, r.serial, err, text));
      GiveBack(slot);
    }

    /** malDispatch: one answer for one request, also when the table is full, and vendor
        calls exactly for a command that has a slot. */
    method MalDispatch(r: Request, vendor: nat -> Outcome)
      requires client != null && Fresh()
      modifies inflight, this`nextToken, this`calls, client`outgoing, client`writeEvents, client`broken
      ensures !old(Full()) ==>
        && Sent(client, old(client.outgoing), AnswerFrame(AnswerTo(r, vendor)))
        && calls == old(calls) + CallsFor(r, vendor, old(nextToken)) && nextToken == NextToken(r, old(nextToken))
      ensures !old(Full()) ==>
        old(calls) <= calls && RightCalls(r, calls[|old(calls)|..], old(nextToken))
      ensures old(Full()) ==>
        && Sent(client, old(client.outgoing), AnswerFrame(Answer(r.simId, r.serial, GENERIC_FAILURE, [])))
        && calls == old(calls) && nextToken == old(nextToken)
      ensures old(client.broken) ==> client.broken && client.outgoing == old(client.outgoing)
      ensures Fresh() && forall i :: 0 <= i < inflight.Length ==> inflight[i].inUse == old(inflight[i].inUse)
    {
      CallsAreRight(r, vendor, nextToken);
      ghost var mine := CallsFor(r, vendor, nextToken);
      assert (calls + mine)[|calls|..] == mine;
      match Classify(r) {
        case Refused => MalSendFrame(Answer(r.simId, r.serial, GENERIC_FAILURE, []));
        case Command(_, cmd) =>
          var slot := FindSlot();
          assert slot >= 0 ==> !inflight[..][slot].inUse;
          assert Full() <==> slot == -1;
          if slot < 0 {
            MalSendFrame(Answer(r.simId, r.serial, GENERIC_FAILURE, []));
          } else {
            Execute(r, slot, cmd, vendor);
          }
      }
    }

    /** One round of the inner loop of malServerLoop, up to malDispatch: the next request,
        or nothing when the connection ends, is cut short, or sends a bad frame. */
    method ReadFrame(fd: Connection, body: array<Byte>) returns (r: Option<Request>)
      requires body.Length == MAX_FRAME
      modifies fd`incoming, fd`readEvents, body
      ensures match FirstFrame(old(fd.incoming))
              case None => r == None
              case Some(f) => r == Some(f.request) && fd.incoming == old(fd.incoming)[f.length..]
    {
      ghost var stream := fd.incoming;
      var lenBuf := new Byte[4];
      var ok := MalReadAll(fd, lenBuf, 4);
      if !ok { return None; }
      assert lenBuf[..4] == stream[..4];
      var bodyLen := GetBE(lenBuf[..]);
      assert bodyLen == GetBE(stream);
      if bodyLen < HEADER_BYTES || bodyLen > MAX_FRAME { return None; }
      ok := MalReadAll(fd, body, bodyLen);
      if !ok { return None; }
      assert body[..bodyLen] == stream[4..4 + bodyLen];
      r := ParseBody(body[..bodyLen]);
      assert fd.incoming == stream[4 + bodyLen..];
    }

    /** malDispatch for the next request of a connection that is being served. */
    method ServeRequest(fd: Connection, r: Request, vendor: nat -> Outcome, ghost before: seq<Byte>,
                        ghost answers: seq<Answer>)
      requires client == fd && Idle() && Fresh() && Sent(fd, before, AnswerFrames(answers))
      modifies inflight, this`nextToken, this`calls, fd`outgoing, fd`writeEvents, fd`broken
      ensures Idle() && Fresh() && Sent(fd, before, AnswerFrames(answers + [AnswerTo(r, vendor)]))
      ensures calls == old(calls) + CallsFor(r, vendor, old(nextToken)) && nextToken == NextToken(r, old(nextToken))
    {
      ghost var a, out, broken := AnswerTo(r, vendor), fd.outgoing, fd.broken;
      assert !Full() by { assert !inflight[0].inUse; }
      MalDispatch(r, vendor);
      SentMore(before, AnswerFrames(answers), AnswerFrame(a), out, broken, fd.outgoing, fd.broken);
      AnswerFramesAppend(answers, a);
    }

    /** The server in the middle of a connection: what it has dispatched, answered, and
        called the vendor for. */
    ghost predicate Serving(fd: Connection, vendor: nat -> nat -> Outcome, total: seq<Request>, before: seq<Byte>,
                            calls0: seq<VendorCall>, token0: nat, dispatched: seq<Request>, answers: seq<Answer>)
      reads this, fd, inflight
    {
      && client == fd && Idle() && Fresh() && dispatched + ParseStream(fd.incoming) == total
      && AllAnswered(dispatched, vendor, answers) && Sent(fd, before, AnswerFrames(answers))
      && calls == calls0 + AllCalls(dispatched, vendor, token0) && nextToken == TokenAfter(dispatched, token0)
    }

    /** One round of the inner loop of malServerLoop. */
    method ServeNext(fd: Connection, body: array<Byte>, vendor: nat -> nat -> Outcome, dispatched: seq<Request>,
                     ghost answers: seq<Answer>, ghost total: seq<Request>, ghost before: seq<Byte>,
                     ghost calls0: seq<VendorCall>, ghost token0: nat)
      returns (more: bool, dispatched': seq<Request>, ghost answers': seq<Answer>)
      requires body.Length == MAX_FRAME
      requires Serving(fd, vendor, total, before, calls0, token0, dispatched, answers)
      modifies inflight, this`nextToken, this`calls, fd, body
      ensures more ==> |fd.incoming| < old(|fd.incoming|)
      ensures more ==> Serving(fd, vendor, total, before, calls0, token0, dispatched', answers') == true
      ensures !more ==> dispatched' == dispatched == total && answers' == answers
      ensures !more ==> calls == old(calls) && Idle() && Fresh() && Sent(fd, before, AnswerFrames(answers)) == true
    {
      ghost var rest := ParseStream(fd.incoming);
      dispatched', answers' := dispatched, answers;
      var r := ReadFrame(fd, body);
      more := r.Some?;
      if r.None? {
        assert rest == [];
        return;
      }
      assert rest == [r.value] + ParseStream(fd.incoming);
      assert dispatched + rest == dispatched + [r.value] + ParseStream(fd.incoming);
      CallsMore(dispatched, vendor, token0, r.value, calls0);
      AnsweredMore(dispatched, vendor, answers, r.value);
      ServeRequest(fd, r.value, vendor(|dispatched|), before, answers);
      answers' := answers + [AnswerTo(r.value, vendor(|dispatched|))];
      dispatched' := dispatched + [r.value];
    }

    /** malServerLoop for one connection: whatever way the bytes are split and reads and
        writes are interrupted, the requests are those of a one-pass parse of the stream,
        the vendor is called for their commands, and each is answered once, in order, on
        the same connection. */
    method ServeConnection(fd: Connection, body: array<Byte>, vendor: nat -> nat -> Outcome)
      returns (dispatched: seq<Request>, ghost answers: seq<Answer>)
      requires body.Length == MAX_FRAME && Idle() && Fresh()
      modifies this, fd, body, inflight
      ensures Idle() && Fresh() && client == null
      ensures dispatched == ParseStream(old(fd.incoming))
      ensures AllAnswered(dispatched, vendor, answers)
      ensures Sent(fd, old(fd.outgoing), AnswerFrames(answers))
      ensures calls == old(calls) + AllCalls(dispatched, vendor, old(nextToken))
    {
      ghost var before, total := fd.outgoing, ParseStream(fd.incoming);
      ghost var calls0, token0 := calls, nextToken;
      client := fd;
      dispatched, answers := [], [];
      var more := true;
      while more
        invariant more ==> Serving(fd, vendor, total, before, calls0, token0, dispatched, answers) == true
        invariant !more ==> dispatched == total && Idle() == true && Fresh() == true
        invariant AllAnswered(dispatched, vendor, answers) == true && Sent(fd, before, AnswerFrames(answers)) == true
        invariant calls == calls0 + AllCalls(dispatched, vendor, token0)
        decreases more, |fd.incoming|
      {
        more, dispatched, answers := ServeNext(fd, body, vendor, dispatched, answers, total, before, calls0, token0);
      }
      client := null;
    }
  }
}
