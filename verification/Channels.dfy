/** The RIL channels: how many there are, and which one a channel id stands for. */
module Channels {
  const CHANNEL_COUNT: nat := 24

  function ChannelIndex(cid: int): (i: nat)
    ensures i < CHANNEL_COUNT
  {
    if cid < 0 then 0 else cid % CHANNEL_COUNT
  }
}
