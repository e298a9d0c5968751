/** The in-flight table of MAL requests: its slots, the searches by token and for a free
    slot, and what a completion writes. */
module MalTable {
  import opened Bytes
  import opened Wrappers

  const MAX_INFLIGHT: nat := 16
  const MAX_ATTEMPTS: nat := 10
  const GENERIC_FAILURE: U32 := 2

  datatype Slot = Slot(inUse: bool, token: Option<nat>, done: bool, err: U32, text: seq<Byte>)

  const EMPTY: Slot := Slot(false, None, false, 0, [])

  /** What the vendor passes to RIL_onRequestComplete. */
  datatype Completion = Completion(err: U32, response: seq<Byte>)

  /** strnlen: the response up to its first NUL. */
  function Text(response: seq<Byte>): (t: seq<Byte>)
    ensures t <= response && 0 !in t && (|t| < |response| ==> response[|t|] == 0)
  {
    if response == [] || response[0] == 0 then [] else [response[0]] + Text(response[1..])
  }

  predicate Matches(slot: Slot, token: nat) {
    slot.inUse && slot.token == Some(token)
  }

  /** malClaim: the lowest slot in use with the token, or -1. */
  function Claim(slots: seq<Slot>, token: nat): (r: int)
    ensures -1 <= r < |slots|
    ensures r == -1 <==> forall i :: 0 <= i < |slots| ==> !(slots[i].inUse && slots[i].token == Some(token))
    ensures r >= 0 ==> slots[r].inUse && slots[r].token == Some(token)
    ensures r >= 0 ==> forall i :: 0 <= i < r ==> !(slots[i].inUse && slots[i].token == Some(token))
  {
    if slots == [] then -1
    else if Matches(slots[0], token) then 0
    else
      var r := Claim(slots[1..], token);
      assert forall i :: 0 < i < |slots| ==> slots[i] == slots[1..][i - 1];
      if r < 0 then -1 else r + 1
  }

  /** The lowest free slot, or -1. */
  function FreeSlot(slots: seq<Slot>): (r: int)
    ensures -1 <= r < |slots|
    ensures r == -1 <==> forall i :: 0 <= i < |slots| ==> slots[i].inUse
    ensures r >= 0 ==> !slots[r].inUse && forall i :: 0 <= i < r ==> slots[i].inUse
  {
    if slots == [] then -1
    else if !slots[0].inUse then 0
    else
      var r := FreeSlot(slots[1..]);
      assert forall i :: 0 < i < |slots| ==> slots[i] == slots[1..][i - 1];
      if r < 0 then -1 else r + 1
  }

  /** malComplete. */
  function Fill(slots: seq<Slot>, i: nat, c: Completion): (r: seq<Slot>)
    requires i < |slots|
    ensures |r| == |slots|
  {
    slots[i := slots[i].(done := true, err := c.err, text := Text(c.response))]
  }
}
