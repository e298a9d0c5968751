/** The MAL byte protocol as a pure, one-pass parse of a byte stream, and its inverse: the
    frames as the comments of ril.cpp lay them out. */
module MalFraming {
  import opened Bytes
  import opened Wrappers

  const HEADER_BYTES: int := 16
  const MAX_FRAME: int := 65536
  const AT_COMMAND_WITH_PROXY: U32 := 2106

  /** What malServerLoop hands to malDispatch. */
  datatype Request = Request(simId: U32, requestId: U32, serial: U32, payload: seq<Byte>)

  /** The fields of a frame body. The header length is the client's choice, and is checked
      only to leave room for the request id, the serial and itself. */
  function ParseBody(body: seq<Byte>): Option<Request>
    requires |body| >= HEADER_BYTES
  {
    var hdrLen := GetLE(body);
    if hdrLen > |body| || |body| - hdrLen < 12 then None
    else Some(Request(
      if hdrLen >= 4 then GetLE(body[4..]) else 0,
      GetLE(body[4 + hdrLen..]), GetLE(body[8 + hdrLen..]), body[12 + hdrLen..]))
  }

  /** A frame at the head of a stream, and its whole length. */
  datatype Frame = Frame(request: Request, length: nat)

  /** The first frame of the stream, unless the stream ends inside it or the frame is
      refused. */
  function FirstFrame(s: seq<Byte>): (r: Option<Frame>)
    ensures r.Some? ==> HEADER_BYTES + 4 <= r.value.length <= |s|
  {
    if |s| < 4 then None
    else
      var n := GetBE(s);
      if n < HEADER_BYTES || n > MAX_FRAME || |s| < 4 + n then None
      else
        match ParseBody(s[4..4 + n])
        case None => None
        case Some(r) => Some(Frame(r, 4 + n))
  }

  /** Every request of a connection that delivers the bytes `s`. */
  function ParseStream(s: seq<Byte>): seq<Request>
    decreases |s|
  {
    match FirstFrame(s)
    case None => []
    case Some(f) => [f.request] + ParseStream(s[f.length..])
  }

  /** Little-endian words, one after the other. */
  function Words(ws: seq<U32>): (p: seq<Byte>)
    ensures |p| == 4 * |ws|
  {
    if ws == [] then [] else Words(ws[..|ws| - 1]) + PutLE(ws[|ws| - 1])
  }

  /** A request frame as libmal_rilproxy writes it. */
  function RequestFrame(r: Request): seq<Byte>
    requires |r.payload| < 0x1_0000_0000 - HEADER_BYTES
  {
    PutBE(HEADER_BYTES + |r.payload|) + (Words([4, r.simId, r.requestId, r.serial]) + r.payload)
  }

  predicate Encodable(rs: seq<Request>) {
    forall i :: 0 <= i < |rs| ==> |rs[i].payload| < 0x1_0000_0000 - HEADER_BYTES
  }

  function RequestFrames(rs: seq<Request>): seq<Byte>
    requires Encodable(rs)
  {
    if rs == [] then [] else RequestFrame(rs[0]) + RequestFrames(rs[1..])
  }

  predicate Fits(r: Request) {
    |r.payload| <= MAX_FRAME - HEADER_BYTES
  }

  /** The requests before the first one that is too long. */
  function FittingPrefix(rs: seq<Request>): seq<Request> {
    if rs == [] || !Fits(rs[0]) then [] else [rs[0]] + FittingPrefix(rs[1..])
  }

  lemma {:induction false} WordAt(ws: seq<U32>, tail: seq<Byte>, i: nat)
    requires i < |ws|
    ensures GetLE((Words(ws) + tail)[4 * i..]) == ws[i]
  {
    var n := |ws| - 1;
    var front, last := Words(ws[..n]), PutLE(ws[n]);
    assert Words(ws) + tail == front + (last + tail);
    if i == n {
      assert (front + (last + tail))[4 * n..] == last + tail;
      GetPut(ws[n], tail);
    } else {
      WordAt(ws[..n], last + tail, i);
    }
  }

  /** A frame body with a header of any length: the slot is the first word of the header,
      and 0 when the header is too short for one. */
  function Body(header: seq<Byte>, requestId: U32, serial: U32, payload: seq<Byte>): seq<Byte>
    requires |header| < 0x1_0000_0000
  {
    PutLE(|header|) + header + Words([requestId, serial]) + payload
  }

  function SimOf(header: seq<Byte>): U32 {
    if |header| >= 4 then GetLE(header) else 0
  }

  lemma BodyParses(header: seq<Byte>, requestId: U32, serial: U32, payload: seq<Byte>)
    requires HEADER_BYTES <= |header| + |payload| + 12 && |header| < 0x1_0000_0000
    ensures ParseBody(Body(header, requestId, serial, payload))
         == Some(Request(SimOf(header), requestId, serial, payload))
    ensures ParseBody(Body(header, requestId, serial, payload)).value.simId
         == if |header| >= 4 then GetLE(header) else 0
  {
    var h, ids := PutLE(|header|), Words([requestId, serial]);
    var body := Body(header, requestId, serial, payload);
    var front := h + header;
    assert body == h + (header + ids + payload);
    GetPut(|header|, header + ids + payload);
    assert body == front + (ids + payload);
    WordAt([requestId, serial], payload, 0);
    WordAt([requestId, serial], payload, 1);
    assert body[|front|..] == (ids + payload)[0..];
    assert body[|front| + 4..] == (ids + payload)[4..];
    assert body[|front| + 8..] == payload;
    assert |header| >= 4 ==> body[4..][..4] == header[..4];
  }

  lemma TwoWords(p: seq<Byte>)
    requires |p| >= 8
    ensures Words([GetLE(p), GetLE(p[4..])]) == p[..8]
  {
    var a, b := GetLE(p), GetLE(p[4..]);
    PutGet(p[..4]);
    PutGet(p[4..8]);
    assert [a, b][..1] == [a] && [a][..0] == [];
    assert Words([a]) == PutLE(a);
  }

  /** The body carries the request behind this header. */
  predicate Carries(body: seq<Byte>, header: seq<Byte>, r: Request) {
    && |header| < 0x1_0000_0000 && SimOf(header) == r.simId
    && body == Body(header, r.requestId, r.serial, r.payload)
  }

  lemma SplitBody(body: seq<Byte>, n: nat)
    requires n + 12 <= |body|
    ensures body == body[..4] + body[4..4 + n] + body[4 + n..12 + n] + body[12 + n..]
    ensures body[4 + n..][..8] == body[4 + n..12 + n] && body[4 + n..][4..] == body[8 + n..]
    ensures n >= 4 ==> body[4..][..4] == body[4..4 + n][..4]
  {
  }

  lemma ParsedIsCarried(body: seq<Byte>, r: Request) returns (header: seq<Byte>)
    requires |body| >= HEADER_BYTES && ParseBody(body) == Some(r)
    ensures Carries(body, header, r)
  {
    var hdrLen: int := GetLE(body);
    header := body[4..4 + hdrLen];
    SplitBody(body, hdrLen);
    PutGet(body[..4]);
    TwoWords(body[4 + hdrLen..]);
    assert PutLE(|header|) == body[..4];
    assert Words([r.requestId, r.serial]) == body[4 + hdrLen..12 + hdrLen];
  }

  /** The parse of a body accepts exactly the bodies of this form, and is its inverse. */
  lemma BodyParsesIff(body: seq<Byte>, r: Request)
    requires |body| >= HEADER_BYTES
    ensures ParseBody(body) == Some(r) <==> exists header :: Carries(body, header, r)
  {
    if ParseBody(body) == Some(r) {
      var header := ParsedIsCarried(body, r);
    }
    forall header | Carries(body, header, r)
      ensures ParseBody(body) == Some(r)
    {
      BodyParses(header, r.requestId, r.serial, r.payload);
    }
  }

  lemma ParseEncodedBody(r: Request)
    ensures ParseBody(Words([4, r.simId, r.requestId, r.serial]) + r.payload) == Some(r)
  {
    var ws := [4, r.simId, r.requestId, r.serial];
    var body := Words(ws) + r.payload;
    assert body[0..] == body;
    WordAt(ws, r.payload, 0);
    WordAt(ws, r.payload, 1);
    WordAt(ws, r.payload, 2);
    WordAt(ws, r.payload, 3);
    assert body[16..] == r.payload;
  }

  lemma DropShift(head: seq<Byte>, body: seq<Byte>, k: nat)
    requires k <= |body|
    ensures (head + body)[|head| + k..] == body[k..]
  {
  }

  /** The i-th word behind the length of a frame. */
  lemma FrameWord(head: seq<Byte>, ws: seq<U32>, tail: seq<Byte>, body: seq<Byte>, i: nat)
    requires |head| == 4 && i < |ws| && body == Words(ws) + tail
    ensures GetLE((head + body)[4 * (i + 1)..]) == ws[i]
  {
    WordAt(ws, tail, i);
    DropShift(head, body, 4 * i);
  }

  lemma FrameEnds(n: U32, ws: seq<U32>, tail: seq<Byte>, body: seq<Byte>)
    requires body == Words(ws) + tail
    ensures GetBE(PutBE(n) + body) == n && (PutBE(n) + body)[4 + 4 * |ws|..] == tail
  {
    GetPut(n, body);
    DropShift(PutBE(n), body, 4 * |ws|);
  }

  /** Where the fields of a request frame are. */
  lemma RequestLayout(r: Request)
    requires |r.payload| < 0x1_0000_0000 - HEADER_BYTES
    ensures var f := RequestFrame(r);
            && |f| == 20 + |r.payload| && GetBE(f) == 16 + |r.payload| && GetLE(f[4..]) == 4
            && GetLE(f[8..]) == r.simId && GetLE(f[12..]) == r.requestId && GetLE(f[16..]) == r.serial
            && f[20..] == r.payload
  {
    var head, ws := PutBE(HEADER_BYTES + |r.payload|), [4, r.simId, r.requestId, r.serial];
    var body := Words(ws) + r.payload;
    FrameEnds(HEADER_BYTES + |r.payload|, ws, r.payload, body);
    FrameWord(head, ws, r.payload, body, 0);
    FrameWord(head, ws, r.payload, body, 1);
    FrameWord(head, ws, r.payload, body, 2);
    FrameWord(head, ws, r.payload, body, 3);
  }

  lemma FirstOfEncoded(r: Request, rest: seq<Byte>)
    requires |r.payload| < 0x1_0000_0000 - HEADER_BYTES
    ensures FirstFrame(RequestFrame(r) + rest)
         == if Fits(r) then Some(Frame(r, 20 + |r.payload|)) else None
  {
    var n := HEADER_BYTES + |r.payload|;
    var body := Words([4, r.simId, r.requestId, r.serial]) + r.payload;
    var s := RequestFrame(r) + rest;
    assert s == PutBE(n) + (body + rest);
    GetPut(n, body + rest);
    if Fits(r) {
      assert s[4..4 + n] == body;
      ParseEncodedBody(r);
    }
  }

  /** Any concatenation of frames parses back to its requests, up to the first one that is
      too long for the server: that one makes it drop the connection. */
  lemma {:induction false} FramesParseBack(rs: seq<Request>)
    requires Encodable(rs)
    ensures ParseStream(RequestFrames(rs)) == FittingPrefix(rs)
  {
    if rs == [] {
    } else {
      var rest := RequestFrames(rs[1..]);
      FirstOfEncoded(rs[0], rest);
      if Fits(rs[0]) {
        assert (RequestFrame(rs[0]) + rest)[20 + |rs[0].payload|..] == rest;
        FramesParseBack(rs[1..]);
      }
    }
  }

  lemma {:induction false} PrefixIsAll(rs: seq<Request>)
    ensures FittingPrefix(rs) == rs <==> forall i :: 0 <= i < |rs| ==> Fits(rs[i])
    ensures |FittingPrefix(rs)| <= |rs|
  {
    if rs == [] {
    } else {
      PrefixIsAll(rs[1..]);
      assert rs == [rs[0]] + rs[1..];
      if Fits(rs[0]) && forall i :: 0 <= i < |rs[1..]| ==> Fits(rs[1..][i]) {
        forall i | 0 <= i < |rs| ensures Fits(rs[i]) {
          assert i > 0 ==> rs[i] == rs[1..][i - 1];
        }
      }
    }
  }

  /** The round trip holds exactly for payloads of at most 65520 bytes. */
  lemma FramesRoundTrip(rs: seq<Request>)
    requires Encodable(rs)
    ensures ParseStream(RequestFrames(rs)) == rs <==> forall i :: 0 <= i < |rs| ==> |rs[i].payload| <= 65520
  {
    FramesParseBack(rs);
    PrefixIsAll(rs);
    assert forall i :: 0 <= i < |rs| ==> (Fits(rs[i]) <==> |rs[i].payload| <= 65520);
  }

  // ---------------------------------------------------------------- what is dispatched

  /** What malDispatch makes of a request before the vendor sees it. */
  datatype Verdict = Refused | Command(channel: U32, cmd: seq<Byte>)

  function Classify(r: Request): Verdict {
    if r.requestId != AT_COMMAND_WITH_PROXY || |r.payload| < 8 then Refused
    else
      var cmdLen := GetLE(r.payload[4..]);
      if cmdLen > |r.payload| - 8 then Refused
      else Command(GetLE(r.payload), r.payload[8..8 + cmdLen])
  }

  /** A command payload as the client lays it out; whatever follows it is ignored. */
  predicate IsCommand(payload: seq<Byte>, channel: U32, cmd: seq<Byte>) {
    |cmd| < 0x1_0000_0000 && Words([channel, |cmd|]) + cmd <= payload
  }

  /** The vendor is called exactly for command payloads of this form, with exactly the
      channel and the command bytes that the client put in. */
  lemma ClassifyIff(r: Request, channel: U32, cmd: seq<Byte>)
    ensures Classify(r) == Command(channel, cmd) <==>
      r.requestId == AT_COMMAND_WITH_PROXY && IsCommand(r.payload, channel, cmd)
  {
    if IsCommand(r.payload, channel, cmd) {
      var tail := r.payload[8..];
      assert r.payload == Words([channel, |cmd|]) + tail;
      WordAt([channel, |cmd|], tail, 0);
      WordAt([channel, |cmd|], tail, 1);
      assert r.payload[0..] == r.payload;
      assert r.payload[8..8 + |cmd|] == cmd;
    }
    if Classify(r) == Command(channel, cmd) {
      TwoWords(r.payload);
      assert r.payload[..8] + cmd == r.payload[..8 + |cmd|];
    }
  }

  // ---------------------------------------------------------------- answers

  datatype Answer = Answer(simId: U32, serial: U32, err: U32, text: seq<Byte>)

  /** The body that malSendFrame writes: 24 bytes of header, a word the client ignores,
      and the text. */
  function AnswerBody(a: Answer): (b: seq<Byte>)
    ensures |b| == 28 + |a.text|
  {
    Words([8, 1, a.simId, 0, a.serial, a.err, |a.text| % 0x1_0000_0000]) + a.text
  }

  /** malSendFrame. Both lengths are cut to 32 bits. */
  function AnswerFrame(a: Answer): seq<Byte> {
    PutBE((28 + |a.text|) % 0x1_0000_0000) + AnswerBody(a)
  }

  /** The client's reading of an answer frame's body. */
  function ParseAnswerBody(body: seq<Byte>): Option<Answer> {
    if |body| < 28 || GetLE(body) != 8 || GetLE(body[4..]) != 1 || GetLE(body[12..]) != 0 then None
    else Some(Answer(GetLE(body[8..]), GetLE(body[16..]), GetLE(body[20..]), body[28..]))
  }

  datatype AnswerAt = AnswerAt(answer: Answer, length: nat)

  function FirstAnswer(s: seq<Byte>): (r: Option<AnswerAt>)
    ensures r.Some? ==> 4 <= r.value.length <= |s|
  {
    if |s| < 4 || |s| < 4 + GetBE(s) then None
    else
      match ParseAnswerBody(s[4..4 + GetBE(s)])
      case None => None
      case Some(a) => Some(AnswerAt(a, 4 + GetBE(s)))
  }

  function ParseAnswers(s: seq<Byte>): seq<Answer>
    decreases |s|
  {
    match FirstAnswer(s)
    case None => []
    case Some(f) => [f.answer] + ParseAnswers(s[f.length..])
  }

  function AnswerFrames(answers: seq<Answer>): seq<Byte> {
    if answers == [] then [] else AnswerFrame(answers[0]) + AnswerFrames(answers[1..])
  }

  lemma {:induction false} AnswerFramesAppend(answers: seq<Answer>, a: Answer)
    ensures AnswerFrames(answers + [a]) == AnswerFrames(answers) + AnswerFrame(a)
  {
    if answers == [] {
      assert AnswerFrames([a]) == AnswerFrame(a) + AnswerFrames([]);
    } else {
      assert (answers + [a])[1..] == answers[1..] + [a];
      AnswerFramesAppend(answers[1..], a);
    }
  }

  predicate Short(a: Answer) {
    |a.text| + 28 < 0x1_0000_0000
  }

  lemma AnswerBodyParses(a: Answer)
    requires Short(a)
    ensures ParseAnswerBody(AnswerBody(a)) == Some(a)
  {
    var ws := [8, 1, a.simId, 0, a.serial, a.err, |a.text| % 0x1_0000_0000];
    var body := AnswerBody(a);
    assert body[0..] == body;
    WordAt(ws, a.text, 0);
    WordAt(ws, a.text, 1);
    WordAt(ws, a.text, 2);
    WordAt(ws, a.text, 3);
    WordAt(ws, a.text, 4);
    WordAt(ws, a.text, 5);
    assert body[28..] == a.text;
  }

  lemma AnswerWords(head: seq<Byte>, a: Answer, f: seq<Byte>)
    requires |head| == 4 && f == head + AnswerBody(a)
    ensures GetLE(f[4..]) == 8 && GetLE(f[8..]) == 1 && GetLE(f[12..]) == a.simId && GetLE(f[16..]) == 0
    ensures GetLE(f[20..]) == a.serial && GetLE(f[24..]) == a.err
    ensures GetLE(f[28..]) == |a.text| % 0x1_0000_0000
  {
    var ws := [8, 1, a.simId, 0, a.serial, a.err, |a.text| % 0x1_0000_0000];
    FrameWord(head, ws, a.text, AnswerBody(a), 0);
    FrameWord(head, ws, a.text, AnswerBody(a), 1);
    FrameWord(head, ws, a.text, AnswerBody(a), 2);
    FrameWord(head, ws, a.text, AnswerBody(a), 3);
    FrameWord(head, ws, a.text, AnswerBody(a), 4);
    FrameWord(head, ws, a.text, AnswerBody(a), 5);
    FrameWord(head, ws, a.text, AnswerBody(a), 6);
  }

  lemma SmallRemainder(n: nat)
    requires n < 0x1_0000_0000
    ensures n % 0x1_0000_0000 == n
  {
  }

  lemma NothingIsCut(a: Answer)
    requires Short(a)
    ensures |a.text| % 0x1_0000_0000 == |a.text|
    ensures AnswerFrame(a) == PutBE(28 + |a.text|) + AnswerBody(a)
  {
    SmallRemainder(|a.text|);
    SmallRemainder(28 + |a.text|);
  }

  lemma AnswerEnds(head: seq<Byte>, n: U32, a: Answer, f: seq<Byte>)
    requires n == 28 + |a.text| && head == PutBE(n) && f == head + AnswerBody(a)
    ensures |f| == 32 + |a.text| && GetBE(f) == 28 + |a.text| && f[32..] == a.text
  {
    FrameEnds(n, [8, 1, a.simId, 0, a.serial, a.err, |a.text| % 0x1_0000_0000], a.text, AnswerBody(a));
  }

  /** Where the fields of an answer frame are. */
  lemma AnswerLayout(a: Answer, f: seq<Byte>)
    requires Short(a) && f == AnswerFrame(a)
    ensures |f| == 32 + |a.text| && GetBE(f) == 28 + |a.text| && GetLE(f[4..]) == 8 && GetLE(f[8..]) == 1
    ensures GetLE(f[12..]) == a.simId && GetLE(f[16..]) == 0 && GetLE(f[20..]) == a.serial
    ensures GetLE(f[24..]) == a.err && GetLE(f[28..]) == |a.text| && f[32..] == a.text
  {
    NothingIsCut(a);
    var head :| head == PutBE(28 + |a.text|);
    AnswerWords(head, a, f);
    AnswerEnds(head, 28 + |a.text|, a, f);
  }

  lemma FirstOfAnswers(a: Answer, rest: seq<Byte>)
    requires Short(a)
    ensures FirstAnswer(AnswerFrame(a) + rest) == Some(AnswerAt(a, 32 + |a.text|))
  {
    var n := 28 + |a.text|;
    var s := AnswerFrame(a) + rest;
    NothingIsCut(a);
    assert s == PutBE(n) + (AnswerBody(a) + rest);
    GetPut(n, AnswerBody(a) + rest);
    assert s[4..4 + n] == AnswerBody(a);
    AnswerBodyParses(a);
  }

  /** The answers of a connection, written one after the other, parse back to themselves:
      each one echoes its own sim id and serial. */
  lemma {:induction false} AnswersRoundTrip(answers: seq<Answer>)
    requires forall i :: 0 <= i < |answers| ==> Short(answers[i])
    ensures ParseAnswers(AnswerFrames(answers)) == answers
  {
    if answers == [] {
    } else {
      var rest := AnswerFrames(answers[1..]);
      FirstOfAnswers(answers[0], rest);
      assert (AnswerFrame(answers[0]) + rest)[32 + |answers[0].text|..] == rest;
      AnswersRoundTrip(answers[1..]);
    }
  }
}
