/** mtkFcpToLegacy of ril_service.cpp: an FCP template (ETSI TS 102 221, 11.1.1.3) given in
    hexadecimal becomes the 15 bytes of a GET RESPONSE answer (3GPP TS 51.011, 9.2.1). */
module FcpTranslator {
  import opened Bytes
  import opened Wrappers

  const MAX_BYTES: nat := 256
  const FCP_TAG: int := 0x62

  // ---------------------------------------------------------------- hexadecimal text

  function HexNibble(c: char): (r: int)
    ensures -1 <= r < 16
  {
    if '0' <= c <= '9' then c as int - '0' as int
    else if 'A' <= c <= 'F' then c as int - 'A' as int + 10
    else if 'a' <= c <= 'f' then c as int - 'a' as int + 10
    else -1
  }

  /** One digit of "%02X". */
  function HexDigit(n: int): (c: char)
    requires 0 <= n < 16
    ensures HexNibble(c) == n
  {
    if n < 10 then (n + '0' as int) as char else (n - 10 + 'A' as int) as char
  }

  const DIGITS := "0123456789ABCDEF"
  const SMALL_DIGITS := "0123456789abcdef"

  /** The digits are these, and every other character is none; the output has capitals. */
  lemma DigitsAre(c: char, n: int)
    requires 0 <= n < 16
    ensures HexNibble(c) == n <==> c == DIGITS[n] || c == SMALL_DIGITS[n]
    ensures HexDigit(n) == DIGITS[n]
  {
  }

  /** The bytes written by pairs of digits; nothing when a character is no digit. */
  function Decode(hex: string): (r: Option<seq<Byte>>)
    requires |hex| % 2 == 0
    ensures r.Some? ==> 2 * |r.value| == |hex|
  {
    if hex == "" then Some([])
    else
      var n := |hex| - 2;
      var front, hi, lo := Decode(hex[..n]), HexNibble(hex[n]), HexNibble(hex[n + 1]);
      if front.None? || hi < 0 || lo < 0 then None else Some(front.value + [16 * hi + lo])
  }

  function Encode(bytes: seq<Byte>): (hex: string)
    ensures |hex| == 2 * |bytes|
  {
    if bytes == [] then ""
    else
      var n := |bytes| - 1;
      Encode(bytes[..n]) + [HexDigit(bytes[n] / 16), HexDigit(bytes[n] % 16)]
  }

  lemma {:induction false} DecodeEncode(bytes: seq<Byte>)
    ensures Decode(Encode(bytes)) == Some(bytes)
  {
    if bytes != [] {
      var n := |bytes| - 1;
      assert Encode(bytes)[..2 * n] == Encode(bytes[..n]);
      DecodeEncode(bytes[..n]);
      assert bytes == bytes[..n] + [bytes[n]];
    }
  }

  /** Each byte is written by two digits, the high one first. */
  lemma {:induction false} DecodeAt(hex: string, i: nat)
    requires |hex| % 2 == 0 && 2 * i < |hex|
    ensures Decode(hex).Some? ==>
              && HexNibble(hex[2 * i]) >= 0 && HexNibble(hex[2 * i + 1]) >= 0
              && Decode(hex).value[i] == 16 * HexNibble(hex[2 * i]) + HexNibble(hex[2 * i + 1])
  {
    var n := |hex| - 2;
    if 2 * i < n {
      DecodeAt(hex[..n], i);
    }
  }

  lemma {:induction false} DecodesIff(hex: string)
    requires |hex| % 2 == 0
    ensures Decode(hex).Some? <==> forall i :: 0 <= i < |hex| ==> HexNibble(hex[i]) >= 0
  {
    if hex != "" {
      var n := |hex| - 2;
      DecodesIff(hex[..n]);
      assert forall i :: 0 <= i < n ==> hex[..n][i] == hex[i];
    }
  }

  /** The text gives two digits for each byte, the high one first. */
  predicate Spells(text: string, bytes: seq<Byte>) {
    && |text| == 2 * |bytes|
    && forall k :: 0 <= k < |bytes| ==>
         text[2 * k] == HexDigit(bytes[k] / 16) && text[2 * k + 1] == HexDigit(bytes[k] % 16)
  }

  lemma {:induction false} EncodeSpells(bytes: seq<Byte>)
    ensures Spells(Encode(bytes), bytes)
  {
    if bytes != [] {
      EncodeSpells(bytes[..|bytes| - 1]);
    }
  }

  // ---------------------------------------------------------------- data objects

  datatype Tlv = Tlv(tag: Byte, value: seq<Byte>)

  /** The objects of a template between `off` and `end`, up to the first one that is cut
      short. */
  function Objects(s: seq<Byte>, off: nat, end: nat): (objs: seq<Tlv>)
    requires off <= end <= |s|
    decreases end - off
  {
    if end < off + 2 || end < off + 2 + s[off + 1] then []
    else
      var next := off + 2 + s[off + 1];
      [Tlv(s[off], s[off + 2..next])] + Objects(s, next, end)
  }

  function EncodeObjects(objs: seq<Tlv>): seq<Byte>
    requires forall i :: 0 <= i < |objs| ==> |objs[i].value| < 0x100
  {
    if objs == [] then []
    else [objs[0].tag, |objs[0].value|] + objs[0].value + EncodeObjects(objs[1..])
  }

  lemma HeadOfEncoded(objs: seq<Tlv>)
    requires objs != [] && forall i :: 0 <= i < |objs| ==> |objs[i].value| < 0x100
    ensures var p, n := EncodeObjects(objs), |objs[0].value|;
            && |p| >= 2 + n && p[0] == objs[0].tag && p[1] == n
            && p[2..2 + n] == objs[0].value && p[2 + n..] == EncodeObjects(objs[1..])
  {
  }

  /** The beginning of an object that is not there as a whole. */
  predicate IsCut(cut: seq<Byte>) {
    |cut| < 2 || |cut| < 2 + cut[1] as int
  }

  lemma SliceOfSlice<T>(s: seq<T>, a: nat, b: nat, i: nat, j: nat)
    requires a <= b <= |s| && i <= j <= b - a
    ensures s[a..b][i..j] == s[a + i..a + j]
  {
    var t := s[a..b];
    assert forall k :: 0 <= k < |t| ==> t[k] == s[a + k];
    forall k | 0 <= k < j - i ensures t[i..j][k] == s[a + i..a + j][k] {
      assert t[i..j][k] == t[i + k];
    }
  }

  lemma SplitConcat<T>(q: seq<T>, cut: seq<T>, i: nat, n: nat)
    requires i <= n <= |q|
    ensures (q + cut)[i..n] == q[i..n] && (q + cut)[n..] == q[n..] + cut
  {
  }

  lemma HeadWithCut(objs: seq<Tlv>, cut: seq<Byte>, p: seq<Byte>)
    requires objs != [] && forall i :: 0 <= i < |objs| ==> |objs[i].value| < 0x100
    requires p == EncodeObjects(objs) + cut
    ensures var n := |objs[0].value|;
            && |p| >= 2 + n && p[0] == objs[0].tag && p[1] == n
            && p[2..2 + n] == objs[0].value && p[2 + n..] == EncodeObjects(objs[1..]) + cut
  {
    HeadOfEncoded(objs);
    SplitConcat(EncodeObjects(objs), cut, 2, 2 + |objs[0].value|);
  }

  /** The objects of an encoded list are that list, and an object that is cut short at the
      end does not count. */
  lemma {:induction false} ObjectsOfEncoded(s: seq<Byte>, off: nat, end: nat, objs: seq<Tlv>, cut: seq<Byte>)
    requires forall i :: 0 <= i < |objs| ==> |objs[i].value| < 0x100
    requires off <= end <= |s| && s[off..end] == EncodeObjects(objs) + cut && IsCut(cut)
    ensures Objects(s, off, end) == objs
    decreases |objs|
  {
    var p := s[off..end];
    if objs == [] {
      assert p == cut;
      assert |cut| >= 2 ==> s[off + 1] == cut[1];
    } else {
      HeadWithCut(objs, cut, p);
      var next := off + 2 + |objs[0].value|;
      assert s[off] == p[0] && s[off + 1] == p[1];
      SliceOfSlice(s, off, end, 2, next - off);
      SliceOfSlice(s, off, end, next - off, end - off);
      ObjectsOfEncoded(s, next, end, objs[1..], cut);
    }
  }

  /** Which objects the translator uses: a file size of two bytes or more, an identifier of
      two, a descriptor of one or more, and for the record length one of five or more. */
  datatype Use = Size | Id | Descriptor | Records

  predicate Usable(o: Tlv, use: Use) {
    match use
    case Size => o.tag == 0x80 && |o.value| >= 2
    case Id => o.tag == 0x83 && |o.value| == 2
    case Descriptor => o.tag == 0x82 && |o.value| >= 1
    case Records => o.tag == 0x82 && |o.value| >= 5
  }

  /** The value of the last usable object: a later one wins. */
  function Last(objs: seq<Tlv>, use: Use): (r: Option<seq<Byte>>)
    ensures r.Some? ==> |r.value| >= match use case Size => 2 case Id => 2 case Descriptor => 1 case Records => 5
  {
    if objs == [] then None
    else if Usable(objs[|objs| - 1], use) then Some(objs[|objs| - 1].value)
    else Last(objs[..|objs| - 1], use)
  }

  /** `Last` is what its name says. */
  lemma {:induction false} LastIsLast(objs: seq<Tlv>, use: Use) returns (i: nat)
    ensures if Last(objs, use).None? then forall j :: 0 <= j < |objs| ==> !Usable(objs[j], use)
            else i < |objs| && Usable(objs[i], use) && Last(objs, use) == Some(objs[i].value)
                 && forall j :: i < j < |objs| ==> !Usable(objs[j], use)
  {
    i := 0;
    if objs != [] {
      var n := |objs| - 1;
      if Usable(objs[n], use) {
        i := n;
      } else {
        i := LastIsLast(objs[..n], use);
      }
    }
  }

  function Pair(hi: Byte, lo: Byte): (v: int)
    ensures 0 <= v < 0x1_0000
  {
    0x100 * hi as int + lo as int
  }

  function Structure(fdb: Byte): (s: Byte)
    ensures s == 0 || s == 1 || s == 3
  {
    if fdb % 8 == 2 then 1 else if fdb % 8 == 6 then 3 else 0
  }

  /** The file that a list of objects describes. */
  datatype File = File(size: int, id: int, structure: Byte, recLen: int)

  function Described(objs: seq<Tlv>): Option<File> {
    match (Last(objs, Size), Last(objs, Id), Last(objs, Descriptor))
    case (Some(s), Some(i), Some(d)) =>
      var rec := Last(objs, Records);
      Some(File(Pair(s[|s| - 2], s[|s| - 1]), Pair(i[0], i[1]), Structure(d[0]),
                match rec
                case None => 0
                case Some(r) => Pair(r[2], r[3])))
    case _ => None
  }

  /** The 15 bytes; the record length is cut to one byte. */
  function Legacy(f: File): (out: seq<Byte>)
    requires 0 <= f.size < 0x1_0000 && 0 <= f.id < 0x1_0000 && f.recLen >= 0
    ensures |out| == 15
  {
    [0, 0, f.size / 0x100, f.size % 0x100, f.id / 0x100, f.id % 0x100, 4, 0, 0, 0, 0, 1, 2,
     f.structure, f.recLen % 0x100]
  }

  /** How the framework reads the fields of the answer. */
  function ReadLegacy(out: seq<Byte>): File
    requires |out| == 15
  {
    File(Pair(out[2], out[3]), Pair(out[4], out[5]), out[13], out[14])
  }

  /** The end of the body of a template in short form, as far as it is there. */
  function BodyEnd(bytes: seq<Byte>): (end: Option<nat>)
    ensures end.Some? ==> 2 <= end.value <= |bytes|
  {
    if |bytes| < 2 || bytes[0] != FCP_TAG || bytes[1] >= 0x80 then None
    else if 2 + bytes[1] > |bytes| then Some(|bytes|)
    else Some(2 + bytes[1])
  }

  function TranslateBytes(bytes: seq<Byte>): Option<string> {
    match BodyEnd(bytes)
    case None => None
    case Some(end) =>
      match Described(Objects(bytes, 2, end))
      case None => None
      case Some(f) => Some(Encode(Legacy(f)))
  }

  /** The specification of the translator. */
  function Translate(hex: string): Option<string> {
    if |hex| < 4 || |hex| % 2 != 0 || |hex| > 2 * MAX_BYTES then None
    else
      match Decode(hex)
      case None => None
      case Some(bytes) => TranslateBytes(bytes)
  }

  // ---------------------------------------------------------------- the code

  /** A bad digit is a bad digit, whatever follows it. */
  lemma {:induction false} DecodePrefix(hex: string, n: nat)
    requires |hex| % 2 == 0 && 2 * n <= |hex| && Decode(hex[..2 * n]).None?
    ensures Decode(hex).None?
  {
    if 2 * n == |hex| {
      assert hex[..2 * n] == hex;
    } else {
      assert hex[..|hex| - 2][..2 * n] == hex[..2 * n];
      DecodePrefix(hex[..|hex| - 2], n);
    }
  }

  lemma DecodeStep(hex: string, n: nat)
    requires |hex| % 2 == 0 && 2 * n < |hex|
    ensures Decode(hex[..2 * (n + 1)]) ==
      var front, hi, lo := Decode(hex[..2 * n]), HexNibble(hex[2 * n]), HexNibble(hex[2 * n + 1]);
      if front.None? || hi < 0 || lo < 0 then None else Some(front.value + [16 * hi + lo])
  {
    assert hex[..2 * (n + 1)][..2 * n] == hex[..2 * n];
  }

  /** The first loop: the digits are decoded into `buf`. */
  method DecodeInto(hex: string, buf: array<Byte>) returns (ok: bool)
    requires |hex| % 2 == 0 && |hex| <= 2 * buf.Length
    modifies buf
    ensures ok <==> Decode(hex).Some?
    ensures ok ==> buf[..|hex| / 2] == Decode(hex).value
  {
    var blen := |hex| / 2;
    var i := 0;
    while i < blen
      invariant i <= blen && Decode(hex[..2 * i]) == Some(buf[..i])
    {
      DecodeStep(hex, i);
      var hi, lo := HexNibble(hex[2 * i]), HexNibble(hex[2 * i + 1]);
      if hi < 0 || lo < 0 {
        DecodePrefix(hex, i + 1);
        return false;
      }
      ghost var front := buf[..i];
      buf[i] := 16 * hi + lo;
      i := i + 1;
      assert buf[..i] == front + [16 * hi + lo];
    }
    assert hex[..2 * blen] == hex;
    return true;
  }

  lemma LastStep(objs: seq<Tlv>, o: Tlv, use: Use)
    ensures Last(objs + [o], use) == if Usable(o, use) then Some(o.value) else Last(objs, use)
  {
    assert (objs + [o])[..|objs|] == objs;
  }

  /** The locals of the second loop. */
  datatype Fields = Fields(haveSize: bool, fileSize: int, haveId: bool, fileId: int,
                           haveDesc: bool, structure: Byte, recLen: int)

  /** The locals after the objects `seen`. */
  predicate Tracks(f: Fields, seen: seq<Tlv>) {
    && f.haveSize == Last(seen, Size).Some? && f.haveId == Last(seen, Id).Some?
    && f.haveDesc == Last(seen, Descriptor).Some?
    && (f.haveSize ==> var s := Last(seen, Size).value; f.fileSize == Pair(s[|s| - 2], s[|s| - 1]))
    && (f.haveId ==> var i := Last(seen, Id).value; f.fileId == Pair(i[0], i[1]))
    && (f.haveDesc ==> var d := Last(seen, Descriptor).value; f.structure == Structure(d[0]))
    && (match Last(seen, Records)
        case None => f.recLen == 0
        case Some(r) => f.recLen == Pair(r[2], r[3]))
  }

  /** The inner switch, on the low three bits of the file descriptor byte. */
  method ReadStructure(fdb: Byte) returns (s: Byte)
    ensures s == Structure(fdb)
  {
    match fdb % 8 {
      case 1 => s := 0;
      case 2 => s := 1;
      case 6 => s := 3;
      case _ => s := 0;
    }
  }

  /** The locals after all objects describe the file, if they are complete. */
  lemma TracksDescribed(f: Fields, objs: seq<Tlv>)
    requires Tracks(f, objs)
    ensures Described(objs) ==
      if f.haveSize && f.haveId && f.haveDesc then Some(File(f.fileSize, f.fileId, f.structure, f.recLen)) else None
  {
  }

  /** The switch of the second loop. */
  method Visit(f: Fields, tag: Byte, val: seq<Byte>, ghost seen: seq<Tlv>) returns (r: Fields)
    requires Tracks(f, seen) == true
    ensures Tracks(r, seen + [Tlv(tag, val)]) == true
  {
    LastStep(seen, Tlv(tag, val), Size);
    LastStep(seen, Tlv(tag, val), Id);
    LastStep(seen, Tlv(tag, val), Descriptor);
    LastStep(seen, Tlv(tag, val), Records);
    r := f;
    if tag == 0x80 {
      if |val| >= 2 {
        r := r.(fileSize := Pair(val[|val| - 2], val[|val| - 1]), haveSize := true);
      }
    } else if tag == 0x83 {
      if |val| == 2 {
        r := r.(fileId := Pair(val[0], val[1]), haveId := true);
      }
    } else if tag == 0x82 {
      if |val| >= 1 {
        var structure := ReadStructure(val[0]);
        r := r.(structure := structure);
        if |val| >= 5 {
          r := r.(recLen := Pair(val[2], val[3]));
        }
        r := r.(haveDesc := true);
      }
    }
  }

  lemma NextObject(s: seq<Byte>, off: nat, end: nat, seen: seq<Tlv>, o: Tlv)
    requires off + 2 <= end <= |s| && off + 2 + s[off + 1] as int <= end
    requires o == Tlv(s[off], s[off + 2..off + 2 + s[off + 1]])
    ensures seen + Objects(s, off, end) == seen + [o] + Objects(s, off + 2 + s[off + 1], end)
  {
  }

  /** The object at `off` of the second loop, which is there as a whole. */
  method ScanObject(buf: array<Byte>, off: nat, f: Fields, ghost bytes: seq<Byte>, ghost end: nat, ghost seen: seq<Tlv>)
    returns (r: Fields, next: nat, ghost seen': seq<Tlv>)
    requires off + 2 <= end <= |bytes| <= buf.Length && bytes == buf[..|bytes|]
    requires off + 2 + bytes[off + 1] as int <= end && Tracks(f, seen) == true
    ensures off < next <= end && Tracks(r, seen') == true
    ensures seen' + Objects(bytes, next, end) == seen + Objects(bytes, off, end)
  {
    var tag, len: int := buf[off], buf[off + 1];
    next := off + 2 + len;
    var val := buf[off + 2..next];
    assert val == bytes[off + 2..next];
    NextObject(bytes, off, end, seen, Tlv(tag, val));
    seen' := seen + [Tlv(tag, val)];
    r := Visit(f, tag, val, seen);
  }

  /** The second loop, on the `blen` bytes in `buf` and up to `end`. */
  method Scan(buf: array<Byte>, blen: nat, end: nat) returns (f: Fields)
    requires 2 <= end <= blen <= buf.Length
    ensures Tracks(f, Objects(buf[..blen], 2, end)) == true
  {
    var off := 2;
    f := Fields(false, 0, false, 0, false, 0, 0);
    ghost var bytes, seen: seq<Tlv> := buf[..blen], [];
    while off + 2 <= end
      invariant 2 <= off <= end && Tracks(f, seen) == true
      invariant seen + Objects(bytes, off, end) == Objects(bytes, 2, end)
      decreases end - off
    {
      if off + 2 + buf[off + 1] as int > end { break; }
      f, off, seen := ScanObject(buf, off, f, bytes, end, seen);
    }
    assert Objects(bytes, off, end) == [];
    assert seen == Objects(bytes, 2, end);
  }

  /** mtkFcpToLegacy with the property persist.vendor.ril.fcp as `gate`. For every input it
      stays inside its buffers and computes the specification. */
  method FcpToLegacy(gate: bool, hex: Option<string>) returns (res: Option<string>)
    ensures res == if gate && hex.Some? then Translate(hex.value) else None
  {
    if !gate || hex.None? { return None; }
    var hlen := |hex.value|;
    if hlen < 4 || hlen % 2 != 0 || hlen > 2 * MAX_BYTES { return None; }
    var buf := new Byte[MAX_BYTES];
    var ok := DecodeInto(hex.value, buf);
    if !ok { return None; }
    var blen := hlen / 2;
    if buf[0] != FCP_TAG || buf[1] >= 0x80 { return None; }
    var end := 2 + buf[1];
    if end > blen {
      end := blen;
    }
    assert BodyEnd(buf[..blen]) == Some(end);
    var f := Scan(buf, blen, end);
    TracksDescribed(f, Objects(buf[..blen], 2, end));
    if !f.haveSize || !f.haveId || !f.haveDesc { return None; }
    return Some(Encode(Legacy(File(f.fileSize, f.fileId, f.structure, f.recLen))));
  }

  /** An object of the list may serve as size, identifier or descriptor. */
  predicate Offers(o: Tlv, tag: Byte) {
    if tag == 0x80 then o.tag == 0x80 && |o.value| >= 2
    else if tag == 0x83 then o.tag == 0x83 && |o.value| == 2
    else o.tag == tag == 0x82 && |o.value| >= 1
  }

  ghost predicate Offered(objs: seq<Tlv>, tag: Byte) {
    exists i :: 0 <= i < |objs| && Offers(objs[i], tag)
  }

  lemma LastIffOffered(objs: seq<Tlv>, use: Use, tag: Byte)
    requires (use == Size && tag == 0x80) || (use == Id && tag == 0x83) || (use == Descriptor && tag == 0x82)
    ensures Last(objs, use).Some? <==> Offered(objs, tag)
  {
    var i := LastIsLast(objs, use);
    assert forall o: Tlv :: Offers(o, tag) <==> Usable(o, use);
  }

  /** What is translated: 4 to 512 hexadecimal digits of an even number that start with 62
      and a digit below 8, and whose objects offer a size, an identifier and a descriptor.
      Everything else is passed through. */
  lemma TranslatedIff(hex: string)
    ensures Translate(hex).Some? <==>
      && 4 <= |hex| <= 512 && |hex| % 2 == 0 && (forall i :: 0 <= i < |hex| ==> HexNibble(hex[i]) >= 0)
      && hex[0] == '6' && hex[1] == '2' && HexNibble(hex[2]) < 8
      && var bytes := Decode(hex);
         bytes.Some? && BodyEnd(bytes.value).Some? &&
         var objs := Objects(bytes.value, 2, BodyEnd(bytes.value).value);
         Offered(objs, 0x80) && Offered(objs, 0x83) && Offered(objs, 0x82)
  {
    if 4 <= |hex| <= 512 && |hex| % 2 == 0 {
      DecodesIff(hex);
      if Decode(hex).Some? {
        var bytes := Decode(hex).value;
        DecodeAt(hex, 0);
        DecodeAt(hex, 1);
        StartsTemplate(hex[0], hex[1], bytes[0]);
        if BodyEnd(bytes).Some? {
          var objs := Objects(bytes, 2, BodyEnd(bytes).value);
          LastIffOffered(objs, Size, 0x80);
          LastIffOffered(objs, Id, 0x83);
          LastIffOffered(objs, Descriptor, 0x82);
        }
      }
    }
  }

  lemma StartsTemplate(c: char, d: char, b: Byte)
    requires HexNibble(c) >= 0 && HexNibble(d) >= 0 && b == 16 * HexNibble(c) + HexNibble(d)
    ensures b == FCP_TAG <==> c == '6' && d == '2'
  {
  }

  // ---------------------------------------------------------------- round trips

  function BigEndian(p: seq<Byte>): nat {
    if p == [] then 0 else 0x100 * BigEndian(p[..|p| - 1]) + p[|p| - 1]
  }

  /** A template with the objects `objs`, in any order. */
  function Template(objs: seq<Tlv>): seq<Byte>
    requires forall i :: 0 <= i < |objs| ==> |objs[i].value| < 0x100
    requires |EncodeObjects(objs)| < 0x80
  {
    [FCP_TAG, |EncodeObjects(objs)|] + EncodeObjects(objs)
  }

  /** The only usable object for `use` is the one at `i`. */
  predicate Only(objs: seq<Tlv>, use: Use, i: nat) {
    i < |objs| && Usable(objs[i], use) && forall j :: 0 <= j < |objs| && j != i ==> !Usable(objs[j], use)
  }

  lemma LastOfOnly(objs: seq<Tlv>, use: Use, i: nat)
    requires Only(objs, use, i)
    ensures Last(objs, use) == Some(objs[i].value)
  {
    var j := LastIsLast(objs, use);
  }

  lemma TranslateDecoded(hex: string, bytes: seq<Byte>)
    requires 4 <= |hex| <= 2 * MAX_BYTES && |hex| % 2 == 0 && Decode(hex) == Some(bytes)
    ensures Translate(hex) == TranslateBytes(bytes)
  {
  }

  /** The bytes are a template whose body, as far as it is there, holds these objects and
      perhaps a cut one; what follows the body does not matter. */
  ghost predicate Holds(bytes: seq<Byte>, objs: seq<Tlv>) {
    && |bytes| >= 2 && bytes[0] == FCP_TAG && bytes[1] < 0x80
    && (forall i :: 0 <= i < |objs| ==> |objs[i].value| < 0x100)
    && exists cut :: IsCut(cut) && bytes[2..if 2 + bytes[1] < |bytes| then 2 + bytes[1] else |bytes|]
                                   == EncodeObjects(objs) + cut
  }

  lemma HeldObjects(bytes: seq<Byte>, objs: seq<Tlv>)
    requires Holds(bytes, objs)
    ensures BodyEnd(bytes).Some? && Objects(bytes, 2, BodyEnd(bytes).value) == objs
  {
    var end: nat := if 2 + bytes[1] < |bytes| then 2 + bytes[1] else |bytes|;
    var cut :| IsCut(cut) && bytes[2..end] == EncodeObjects(objs) + cut;
    ObjectsOfEncoded(bytes, 2, end, objs, cut);
  }

  /** Every template is translated whose objects describe a file, whatever their order,
      whatever follows them, and whatever the case of the digits that spell it. */
  lemma TemplateIsTranslated(hex: string, bytes: seq<Byte>, objs: seq<Tlv>, f: File)
    requires 4 <= |hex| <= 512 && |hex| % 2 == 0 && Decode(hex) == Some(bytes)
    requires Holds(bytes, objs) && Described(objs) == Some(f)
    ensures Translate(hex) == Some(Encode(Legacy(f)))
  {
    HeldObjects(bytes, objs);
    TranslateDecoded(hex, bytes);
  }

  lemma TemplateHolds(objs: seq<Tlv>)
    requires forall i :: 0 <= i < |objs| ==> |objs[i].value| < 0x100
    requires |EncodeObjects(objs)| < 0x80
    ensures Holds(Template(objs), objs) == true
  {
    var bytes := Template(objs);
    assert IsCut([]) && bytes[2..] == EncodeObjects(objs) + [];
  }

  /** The record length that a descriptor gives, and 0 when it is too short for one. */
  function RecordLength(desc: seq<Byte>): nat {
    if |desc| >= 5 then BigEndian(desc[2..4]) else 0
  }

  lemma DescribedFile(objs: seq<Tlv>, size: nat, id: nat, desc: nat) returns (f: File)
    requires Only(objs, Size, size) && Only(objs, Id, id) && Only(objs, Descriptor, desc)
    ensures Described(objs) == Some(f)
    ensures f == File(BigEndian(objs[size].value) % 0x1_0000, BigEndian(objs[id].value),
                      Structure(objs[desc].value[0]), RecordLength(objs[desc].value))
  {
    var d := objs[desc].value;
    LastOfOnly(objs, Size, size);
    LastOfOnly(objs, Id, id);
    LastOfOnly(objs, Descriptor, desc);
    var r := LastIsLast(objs, Records);
    if |d| >= 5 {
      assert Only(objs, Records, desc);
      LastOfOnly(objs, Records, desc);
      LastTwo(d[2..4]);
    } else {
      assert forall j :: 0 <= j < |objs| && Usable(objs[j], Records) ==> Usable(objs[j], Descriptor);
    }
    LastTwo(objs[size].value);
    LastTwo(objs[id].value);
    f := Described(objs).value;
  }

  /** An elementary file (4) that is not invalidated (1), two bytes of data (2). */
  predicate FixedBytes(out: seq<Byte>) {
    |out| == 15 && out[..2] == [0, 0] && out[6..13] == [4, 0, 0, 0, 0, 1, 2]
  }

  /** The codes of TS 51.011 for the file structures of TS 102 221: 1 is transparent, 2 is
      linear fixed, 6 is cyclic. */
  predicate Codes(fdb: Byte, code: Byte) {
    && (fdb % 8 == 1 ==> code == 0) && (fdb % 8 == 2 ==> code == 1) && (fdb % 8 == 6 ==> code == 3)
    && (fdb % 8 !in {1, 2, 6} ==> code == 0)
  }

  lemma LegacyIsRead(f: File)
    requires 0 <= f.size < 0x1_0000 && 0 <= f.id < 0x1_0000 && f.recLen >= 0
    ensures ReadLegacy(Legacy(f)) == f.(recLen := f.recLen % 0x100) && FixedBytes(Legacy(f))
  {
  }

  /** The translation of a template, read back: its identifier and structure, its size
      modulo 65536 and its record length modulo 256. So size and record length come back
      exactly when they are below these bounds. */
  lemma TemplateRoundTrip(hex: string, objs: seq<Tlv>, size: nat, id: nat, desc: nat)
    returns (text: string, out: seq<Byte>)
    requires forall i :: 0 <= i < |objs| ==> |objs[i].value| < 0x100
    requires |EncodeObjects(objs)| < 0x80 && |hex| % 2 == 0 && Decode(hex) == Some(Template(objs))
    requires Only(objs, Size, size) && Only(objs, Id, id) && Only(objs, Descriptor, desc)
    ensures Translate(hex) == Some(text) && |text| == 30
    ensures Decode(text) == Some(out) && |out| == 15
    ensures var d := objs[desc].value;
            ReadLegacy(out) == File(BigEndian(objs[size].value) % 0x1_0000, BigEndian(objs[id].value),
                                    Structure(d[0]), RecordLength(d) % 0x100)
            && Codes(d[0], out[13])
    ensures FixedBytes(out) == true
    ensures Spells(text, out) == true
  {
    var f := DescribedFile(objs, size, id, desc);
    TemplateHolds(objs);
    TemplateIsTranslated(hex, Template(objs), objs, f);
    out := Legacy(f);
    text := Encode(out);
    DecodeEncode(out);
    EncodeSpells(out);
    LegacyIsRead(f);
  }

  /** The object at `i` is the only one with the tag. */
  predicate OnlyTag(objs: seq<Tlv>, tag: Byte, i: nat) {
    i < |objs| && objs[i].tag == tag && forall j :: 0 <= j < |objs| && j != i ==> objs[j].tag != tag
  }

  /** The same for a template that has each of the tags 80, 83 and 82 once. */
  lemma PlainTemplateRoundTrip(hex: string, objs: seq<Tlv>, size: nat, id: nat, desc: nat)
    returns (text: string, out: seq<Byte>)
    requires forall i :: 0 <= i < |objs| ==> |objs[i].value| < 0x100
    requires |EncodeObjects(objs)| < 0x80 && |hex| % 2 == 0 && Decode(hex) == Some(Template(objs))
    requires OnlyTag(objs, 0x80, size) && OnlyTag(objs, 0x83, id) && OnlyTag(objs, 0x82, desc)
    requires |objs[size].value| >= 2 && |objs[id].value| == 2 && |objs[desc].value| >= 1
    ensures Translate(hex) == Some(text) && Decode(text) == Some(out) && |out| == 15
    ensures BigEndian(out[2..4]) == BigEndian(objs[size].value) % 0x1_0000
    ensures BigEndian(out[4..6]) == BigEndian(objs[id].value)
    ensures FixedBytes(out) && Codes(objs[desc].value[0], out[13])
    ensures out[14] == RecordLength(objs[desc].value) % 0x100
  {
    text, out := TemplateRoundTrip(hex, objs, size, id, desc);
    LastTwo(out[2..4]);
    LastTwo(out[4..6]);
  }

  lemma LastTwo(p: seq<Byte>)
    requires |p| >= 2
    ensures BigEndian(p) % 0x1_0000 == Pair(p[|p| - 2], p[|p| - 1])
    ensures |p| == 2 ==> BigEndian(p) == Pair(p[0], p[1])
  {
    var q := p[..|p| - 1];
    assert q[..|q| - 1] == p[..|p| - 2] && q[|q| - 1] == p[|p| - 2];
    Remainder(BigEndian(p[..|p| - 2]), Pair(p[|p| - 2], p[|p| - 1]));
  }

  lemma Remainder(high: nat, low: nat)
    requires low < 0x1_0000
    ensures (0x1_0000 * high + low) % 0x1_0000 == low
  {
  }
}
