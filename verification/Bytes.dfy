/** Bytes and the 32-bit words of the MAL protocol: malGetLE, malPutLE, malPutBE and the
    big-endian read in malServerLoop. */
module Bytes {

  type Byte = b: int | 0 <= b < 0x100
  type U32 = w: int | 0 <= w < 0x1_0000_0000

  function GetLE(p: seq<Byte>): U32
    requires |p| >= 4
  {
    p[0] as int + 0x100 * p[1] as int + 0x1_0000 * p[2] as int + 0x100_0000 * p[3] as int
  }

  function GetBE(p: seq<Byte>): U32
    requires |p| >= 4
  {
    GetLE([p[3], p[2], p[1], p[0]])
  }

  function PutLE(v: U32): (p: seq<Byte>)
    ensures |p| == 4
  {
    [v % 0x100, v / 0x100 % 0x100, v / 0x1_0000 % 0x100, v / 0x100_0000 % 0x100]
  }

  function PutBE(v: U32): (p: seq<Byte>)
    ensures |p| == 4
  {
    [v / 0x100_0000 % 0x100, v / 0x1_0000 % 0x100, v / 0x100 % 0x100, v % 0x100]
  }

  lemma GetPut(v: U32, rest: seq<Byte>)
    ensures GetLE(PutLE(v) + rest) == v && GetBE(PutBE(v) + rest) == v
  {
    assert v / 0x1_0000 == v / 0x100 / 0x100;
    assert v / 0x100_0000 == v / 0x1_0000 / 0x100;
  }

  /** Little-endian is low byte first, and big-endian is the same bytes the other way round. */
  lemma ByteOrder(v: U32)
    ensures var p := PutLE(v);
            v == p[0] as int + 0x100 * p[1] as int + 0x1_0000 * p[2] as int + 0x100_0000 * p[3] as int
    ensures var q := PutBE(v);
            v == 0x100_0000 * q[0] as int + 0x1_0000 * q[1] as int + 0x100 * q[2] as int + q[3] as int
  {
    GetPut(v, []);
    assert PutLE(v) + [] == PutLE(v);
  }

  /** No two byte strings are read as the same word. */
  lemma PutGet(p: seq<Byte>)
    requires |p| == 4
    ensures PutLE(GetLE(p)) == p && PutBE(GetBE(p)) == p
  {
    WordBytes(p[0], p[1], p[2], p[3]);
    WordBytes(p[3], p[2], p[1], p[0]);
  }

  lemma Split(v: int, high: int, low: int)
    requires v == low + 0x100 * high && 0 <= low < 0x100
    ensures v % 0x100 == low && v / 0x100 == high
  {
  }

  lemma WordBytes(a: Byte, b: Byte, c: Byte, d: Byte)
    ensures PutLE(GetLE([a, b, c, d])) == [a, b, c, d]
  {
    var v: int := GetLE([a, b, c, d]);
    var v1: int := b + 0x100 * c + 0x1_0000 * d;
    var v2: int := c + 0x100 * d;
    Split(v, v1, a);
    Split(v1, v2, b);
    Split(v2, d, c);
    assert v / 0x1_0000 == v / 0x100 / 0x100;
    assert v / 0x100_0000 == v / 0x1_0000 / 0x100;
  }
}
