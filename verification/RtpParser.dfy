/** RTP packets: the parser as the service runs it, and the packet format of RFC 3550 as its inverse. */
module RtpParser {
  import opened Types

  type Byte = x: int | 0 <= x < 0x100
  type UInt16 = x: int | 0 <= x < 0x1_0000
  type UInt32 = x: int | 0 <= x < 0x1_0000_0000

  /** What the service keeps of a packet. */
  datatype RtpPacket = RtpPacket(ssrc: UInt32, sequenceNumber: UInt16, timestamp: UInt32, payloadType: int,
      payload: seq<Byte>)

  // ---------- the format, sections 5.1 and 5.3.1 of RFC 3550 ----------

  datatype Extension = Extension(profile: UInt16, words: seq<UInt32>)

  /** `payload` is everything after the header, so it includes the padding octets when the padding bit is set. */
  datatype Rtp = Rtp(
    padding: bool, marker: bool, payloadType: int,
    sequenceNumber: UInt16, timestamp: UInt32, ssrc: UInt32,
    csrcs: seq<UInt32>, extension: Option<Extension>, payload: seq<Byte>)
  {
    predicate Valid() {
      && 0 <= payloadType < 0x80 && |csrcs| <= 15 && payload != []
      && (extension.Some? ==> |extension.value.words| < 0x1_0000)
    }

    function Packet(): RtpPacket {
      RtpPacket(ssrc, sequenceNumber, timestamp, payloadType, payload)
    }
  }

  function Bytes16(x: UInt16): (b: seq<Byte>)
    ensures |b| == 2
  {
    [x / 0x100, x % 0x100]
  }

  function Bytes32(x: UInt32): (b: seq<Byte>)
    ensures |b| == 4
  {
    Bytes16(x / 0x1_0000) + Bytes16(x % 0x1_0000)
  }

  function Words(ws: seq<UInt32>): (b: seq<Byte>)
    ensures |b| == 4 * |ws|
  {
    if ws == [] then [] else Bytes32(ws[0]) + Words(ws[1..])
  }

  function FirstByte(h: Rtp): Byte
    requires h.Valid()
  {
    0x80 + (if h.padding then 0x20 else 0) + (if h.extension.Some? then 0x10 else 0) + |h.csrcs|
  }

  function FixedHeader(h: Rtp): (b: seq<Byte>)
    requires h.Valid()
    ensures |b| == 12
  {
    [FirstByte(h), (if h.marker then 0x80 else 0) + h.payloadType]
    + Bytes16(h.sequenceNumber) + Bytes32(h.timestamp) + Bytes32(h.ssrc)
  }

  function ExtensionBytes(e: Option<Extension>): seq<Byte>
    requires e.Some? ==> |e.value.words| < 0x1_0000
  {
    if e.None? then [] else Bytes16(e.value.profile) + Bytes16(|e.value.words|) + Words(e.value.words)
  }

  function Serialize(h: Rtp): seq<Byte>
    requires h.Valid()
  {
    FixedHeader(h) + Words(h.csrcs) + ExtensionBytes(h.extension) + h.payload
  }

  /** Big-endian order, octet by octet. */
  predicate HoldsWord(b: seq<Byte>, i: nat, x: UInt32) {
    && i + 4 <= |b|
    && x == b[i] as int * 0x100_0000 + b[i + 1] as int * 0x1_0000 + b[i + 2] as int * 0x100 + b[i + 3]
  }

  predicate HoldsHalf(b: seq<Byte>, i: nat, x: UInt16) {
    i + 2 <= |b| && x == b[i] as int * 0x100 + b[i + 1]
  }

  /** A number that stands in a part of the buffer stands in the buffer. */
  lemma WordInside(b: seq<Byte>, m: nat, part: seq<Byte>, i: nat, x: UInt32)
    requires m + |part| <= |b| && b[m..m + |part|] == part && HoldsWord(part, i, x)
    ensures HoldsWord(b, m + i, x)
  {
    assert forall j :: 0 <= j < |part| ==> part[j] == b[m + j];
    assert part[i] == b[m + i] && part[i + 1] == b[m + i + 1];
    assert part[i + 2] == b[m + i + 2] && part[i + 3] == b[m + i + 3];
  }

  lemma HalfInside(b: seq<Byte>, m: nat, part: seq<Byte>, x: UInt16)
    requires m + 2 <= |b| && b[m..m + 2] == part && HoldsHalf(part, 0, x)
    ensures HoldsHalf(b, m, x)
  {
    assert b[m..m + 2][0] == b[m] && b[m..m + 2][1] == b[m + 1];
  }

  lemma BytesHold(x: UInt32)
    ensures HoldsWord(Bytes32(x), 0, x)
  {
  }

  lemma {:induction false} WordsHold(ws: seq<UInt32>, i: nat)
    requires i < |ws|
    ensures HoldsWord(Words(ws), 4 * i, ws[i])
  {
    var first, rest := Bytes32(ws[0]), Words(ws[1..]);
    if i == 0 {
      BytesHold(ws[0]);
      FrontInside(first, rest, ws[0]);
    } else {
      WordsHold(ws[1..], i - 1);
      BackInside(first, rest, 4 * (i - 1), ws[i]);
    }
  }

  lemma FrontInside(first: seq<Byte>, rest: seq<Byte>, x: UInt32)
    requires |first| == 4 && HoldsWord(first, 0, x)
    ensures HoldsWord(first + rest, 0, x)
  {
    WordInside(first + rest, 0, first, 0, x);
  }

  lemma BackInside(first: seq<Byte>, rest: seq<Byte>, i: nat, x: UInt32)
    requires |first| == 4 && HoldsWord(rest, i, x)
    ensures HoldsWord(first + rest, i + 4, x)
  {
    assert (first + rest)[4..4 + |rest|] == rest;
    WordInside(first + rest, 4, rest, i, x);
  }

  /** The first two octets hold version, flags, count and payload type, as section 5.1 of RFC 3550 places them. */
  lemma FlagsStand(h: Rtp)
    requires h.Valid()
    ensures var b := Serialize(h);
      && |b| >= 12
      && b[0] / 0x40 == 2 && (b[0] / 0x20 % 2 == 1 <==> h.padding) && (b[0] / 0x10 % 2 == 1 <==> h.extension.Some?)
      && b[0] % 0x10 == |h.csrcs|
      && (b[1] / 0x80 == 1 <==> h.marker) && b[1] % 0x80 == h.payloadType
  {
    var b := Serialize(h);
    assert b[0] == FixedHeader(h)[0] && b[1] == FixedHeader(h)[1];
    FirstOctet(FirstByte(h), h);
  }

  lemma FirstOctet(x: Byte, h: Rtp)
    requires h.Valid() && x == FirstByte(h)
    ensures x / 0x40 == 2 && (x / 0x20 % 2 == 1 <==> h.padding) && (x / 0x10 % 2 == 1 <==> h.extension.Some?)
    ensures x % 0x10 == |h.csrcs|
  {
  }

  lemma NumbersAre(h: Rtp)
    requires h.Valid()
    ensures var b := Serialize(h);
      && |b| >= 12 && b[2..4] == Bytes16(h.sequenceNumber)
      && b[4..8] == Bytes32(h.timestamp) && b[8..12] == Bytes32(h.ssrc)
  {
  }

  /** The rest of the fixed header: sequence number, timestamp and synchronization source. */
  lemma NumbersStand(h: Rtp)
    requires h.Valid()
    ensures var b := Serialize(h);
      HoldsHalf(b, 2, h.sequenceNumber) && HoldsWord(b, 4, h.timestamp) && HoldsWord(b, 8, h.ssrc)
  {
    var b := Serialize(h);
    NumbersAre(h);
    HalfInside(b, 2, Bytes16(h.sequenceNumber), h.sequenceNumber);
    BytesHold(h.timestamp);
    WordInside(b, 4, Bytes32(h.timestamp), 0, h.timestamp);
    BytesHold(h.ssrc);
    WordInside(b, 8, Bytes32(h.ssrc), 0, h.ssrc);
  }

  lemma SourcesAre(h: Rtp)
    requires h.Valid()
    ensures var b, ws := Serialize(h), Words(h.csrcs);
      12 + |ws| <= |b| && b[12..12 + |ws|] == ws
  {
    assert Serialize(h) == FixedHeader(h) + Words(h.csrcs) + (ExtensionBytes(h.extension) + h.payload);
  }

  /** Then come the contributing sources. */
  lemma SourcesStand(h: Rtp, i: nat)
    requires h.Valid() && i < |h.csrcs|
    ensures HoldsWord(Serialize(h), 12 + 4 * i, h.csrcs[i])
  {
    SourcesAre(h);
    WordsHold(h.csrcs, i);
    WordInside(Serialize(h), 12, Words(h.csrcs), 4 * i, h.csrcs[i]);
  }

  lemma ExtensionIs(h: Rtp)
    requires h.Valid() && h.extension.Some?
    ensures var b, n, e := Serialize(h), 12 + 4 * |h.csrcs|, h.extension.value;
      && |b| >= n + 4 + |Words(e.words)|
      && b[n..n + 2] == Bytes16(e.profile) && b[n + 2..n + 4] == Bytes16(|e.words|)
      && b[n + 4..n + 4 + |Words(e.words)|] == Words(e.words)
  {
    var b, n, e := Serialize(h), 12 + 4 * |h.csrcs|, h.extension.value;
    var before := FixedHeader(h) + Words(h.csrcs);
    assert b == before + Bytes16(e.profile) + Bytes16(|e.words|) + Words(e.words) + h.payload && |before| == n;
  }

  /** Then the extension, if there is one: its profile and its length in words, section 5.3.1. */
  lemma ExtensionStands(h: Rtp)
    requires h.Valid() && h.extension.Some?
    ensures var b, n, e := Serialize(h), 12 + 4 * |h.csrcs|, h.extension.value;
      HoldsHalf(b, n, e.profile) && HoldsHalf(b, n + 2, |e.words|)
  {
    var b, n, e := Serialize(h), 12 + 4 * |h.csrcs|, h.extension.value;
    ExtensionIs(h);
    HalfInside(b, n, Bytes16(e.profile), e.profile);
    HalfInside(b, n + 2, Bytes16(|e.words|), |e.words|);
  }

  /** And its words. */
  lemma ExtensionWordStands(h: Rtp, i: nat)
    requires h.Valid() && h.extension.Some? && i < |h.extension.value.words|
    ensures HoldsWord(Serialize(h), 12 + 4 * |h.csrcs| + 4 + 4 * i, h.extension.value.words[i])
  {
    ExtensionIs(h);
    WordsHold(h.extension.value.words, i);
    WordInside(Serialize(h), 12 + 4 * |h.csrcs| + 4, Words(h.extension.value.words), 4 * i,
               h.extension.value.words[i]);
  }

  /** And then the payload, to the end. */
  lemma PayloadStands(h: Rtp)
    requires h.Valid()
    ensures var b := Serialize(h);
      var n := 12 + 4 * |h.csrcs| + if h.extension.Some? then 4 + 4 * |h.extension.value.words| else 0;
      |b| == n + |h.payload| && b[n..] == h.payload
  {
    var before := FixedHeader(h) + Words(h.csrcs) + ExtensionBytes(h.extension);
    assert Serialize(h) == before + h.payload;
  }

  // ---------- the parser ----------

  function Read16(b: seq<Byte>, i: nat): UInt16
    requires i + 2 <= |b|
  {
    var high: int := b[i];
    high * 0x100 + b[i + 1]
  }

  function Read32(b: seq<Byte>, i: nat): UInt32
    requires i + 4 <= |b|
  {
    Read16(b, i) * 0x1_0000 + Read16(b, i + 2)
  }

  predicate HasExtension(b: seq<Byte>)
    requires |b| >= 12
  {
    b[0] / 0x10 % 2 == 1
  }

  /** Length of everything before the payload, when the buffer is long enough to tell. */
  function HeaderLength(b: seq<Byte>): Option<nat>
    requires |b| >= 12
  {
    var offset := 12 + b[0] % 0x10 * 4;
    if !HasExtension(b) then Some(offset)
    else if |b| < offset + 4 then None
    else Some(offset + 4 + Read16(b, offset + 2) * 4)
  }

  function Parse(b: seq<Byte>): Option<RtpPacket> {
    if |b| < 12 || b[0] / 0x40 % 4 != 2 then None
    else
      match HeaderLength(b)
      case None => None
      case Some(n) =>
        if n >= |b| then None
        else Some(RtpPacket(Read32(b, 8), Read16(b, 2), Read32(b, 4), b[1] % 0x80, b[n..]))
  }

  /** Shifts and masks of single bytes appear as division and remainder. No read is out of bounds. */
  method ParseRtp(buf: seq<Byte>) returns (packet: Option<RtpPacket>)
    ensures packet == Parse(buf)
    ensures packet.Some? <==> exists h: Rtp :: h.Valid() && Serialize(h) == buf
    ensures forall h: Rtp :: h.Valid() && Serialize(h) == buf ==> packet == Some(h.Packet())
  {
    ParseInvertsSerialize(buf);
    if |buf| < 12 {
      return None;
    }
    var version := buf[0] / 0x40 % 4;
    if version != 2 {
      return None;
    }
    var hasExtension := buf[0] / 0x10 % 2;
    var csrcCount := buf[0] % 0x10;
    var payloadType := buf[1] % 0x80;
    var sequenceNumber := Read16(buf, 2);
    var timestamp := Read32(buf, 4);
    var ssrc := Read32(buf, 8);
    var offset := 12 + csrcCount * 4;
    if hasExtension == 1 {
      if |buf| < offset + 4 {
        return None;
      }
      var extWordCount := Read16(buf, offset + 2);
      offset := offset + 4 + extWordCount * 4;
    }
    if offset >= |buf| {
      return None;
    }
    return Some(RtpPacket(ssrc, sequenceNumber, timestamp, payloadType, buf[offset..]));
  }

  // ---------- reading back what was written ----------

  lemma Read16At(p: seq<Byte>, x: UInt16, q: seq<Byte>)
    ensures Read16(p + Bytes16(x) + q, |p|) == x
  {
    var b := p + Bytes16(x) + q;
    assert b[|p|] == x / 0x100 && b[|p| + 1] == x % 0x100;
  }

  lemma Read32At(p: seq<Byte>, x: UInt32, q: seq<Byte>)
    ensures Read32(p + Bytes32(x) + q, |p|) == x
  {
    var hi, lo := x / 0x1_0000, x % 0x1_0000;
    assert p + Bytes32(x) + q == p + Bytes16(hi) + (Bytes16(lo) + q);
    Read16At(p, hi, Bytes16(lo) + q);
    assert p + Bytes32(x) + q == (p + Bytes16(hi)) + Bytes16(lo) + q;
    Read16At(p + Bytes16(hi), lo, q);
  }

  lemma FixedHeaderReads(h: Rtp, rest: seq<Byte>)
    requires h.Valid()
    ensures var b := FixedHeader(h) + rest;
      && b[0] == FirstByte(h) && b[1] % 0x80 == h.payloadType
      && Read16(b, 2) == h.sequenceNumber && Read32(b, 4) == h.timestamp && Read32(b, 8) == h.ssrc
  {
    var b := FixedHeader(h) + rest;
    var start := [FirstByte(h), (if h.marker then 0x80 else 0) + h.payloadType];
    var s, t, r := Bytes16(h.sequenceNumber), Bytes32(h.timestamp), Bytes32(h.ssrc);
    assert b == start + s + (t + r + rest);
    Read16At(start, h.sequenceNumber, t + r + rest);
    assert b == (start + s) + t + (r + rest);
    Read32At(start + s, h.timestamp, r + rest);
    assert b == (start + s + t) + r + rest;
    Read32At(start + s + t, h.ssrc, rest);
  }

  lemma FirstByteReads(h: Rtp)
    requires h.Valid()
    ensures var x := FirstByte(h);
      x / 0x40 % 4 == 2 && (x / 0x10 % 2 == 1 <==> h.extension.Some?) && x % 0x10 == |h.csrcs|
  {
  }

  /** The parser finds where the payload begins. */
  lemma HeaderLengthReads(h: Rtp)
    requires h.Valid()
    ensures HeaderLength(Serialize(h)) == Some(12 + 4 * |h.csrcs| + |ExtensionBytes(h.extension)|)
  {
    var b, head := Serialize(h), FixedHeader(h) + Words(h.csrcs);
    FirstByteReads(h);
    assert b[0] == FirstByte(h);
    if h.extension.Some? {
      var e := h.extension.value;
      assert b == (head + Bytes16(e.profile)) + Bytes16(|e.words|) + (Words(e.words) + h.payload);
      Read16At(head + Bytes16(e.profile), |e.words|, Words(e.words) + h.payload);
    }
  }

  /** The parser returns exactly the fields and the payload that were encoded. */
  lemma ParseAfterSerialize(h: Rtp)
    requires h.Valid()
    ensures Parse(Serialize(h)) == Some(h.Packet())
  {
    var b, rest := Serialize(h), Words(h.csrcs) + ExtensionBytes(h.extension) + h.payload;
    assert b == FixedHeader(h) + rest;
    FirstByteReads(h);
    FixedHeaderReads(h, rest);
    HeaderLengthReads(h);
    assert b[12 + 4 * |h.csrcs| + |ExtensionBytes(h.extension)|..] == h.payload;
  }

  lemma FieldsAreParsed(h: Rtp)
    requires h.Valid()
    ensures Parse(Serialize(h)).Some?
    ensures var p := Parse(Serialize(h)).value;
      && p.ssrc == h.ssrc && p.sequenceNumber == h.sequenceNumber && p.timestamp == h.timestamp
      && p.payloadType == h.payloadType && p.payload == h.payload
  {
    ParseAfterSerialize(h);
  }

  // ---------- writing back what was read ----------

  lemma WriteRead16(b: seq<Byte>, i: nat)
    requires i + 2 <= |b|
    ensures Bytes16(Read16(b, i)) == b[i..i + 2]
  {
  }

  lemma WriteRead32(b: seq<Byte>, i: nat)
    requires i + 4 <= |b|
    ensures Bytes32(Read32(b, i)) == b[i..i + 4]
  {
    WriteRead16(b, i);
    WriteRead16(b, i + 2);
    assert Read32(b, i) / 0x1_0000 == Read16(b, i) && Read32(b, i) % 0x1_0000 == Read16(b, i + 2);
    assert b[i..i + 4] == b[i..i + 2] + b[i + 2..i + 4];
  }

  function ReadWords(b: seq<Byte>, i: nat, n: nat): (ws: seq<UInt32>)
    requires i + 4 * n <= |b|
    ensures |ws| == n
    decreases n
  {
    if n == 0 then [] else [Read32(b, i)] + ReadWords(b, i + 4, n - 1)
  }

  lemma {:induction false} WriteReadWords(b: seq<Byte>, i: nat, n: nat)
    requires i + 4 * n <= |b|
    ensures Words(ReadWords(b, i, n)) == b[i..i + 4 * n]
    decreases n
  {
    if n > 0 {
      WriteRead32(b, i);
      WriteReadWords(b, i + 4, n - 1);
      assert b[i..i + 4 * n] == b[i..i + 4] + b[i + 4..i + 4 * n];
    }
  }

  /** All the fields of an accepted buffer, with the ones that the service ignores. */
  function Fields(b: seq<Byte>): Rtp
    requires Parse(b).Some?
  {
    var n := b[0] % 0x10;
    var extension :=
      if HasExtension(b) then Some(Extension(Read16(b, 12 + 4 * n), ReadWords(b, 16 + 4 * n, Read16(b, 14 + 4 * n))))
      else None;
    Rtp(b[0] / 0x20 % 2 == 1, b[1] / 0x80 == 1, b[1] % 0x80, Read16(b, 2), Read32(b, 4), Read32(b, 8),
        ReadWords(b, 12, n), extension, b[HeaderLength(b).value..])
  }

  lemma FieldsAreValid(b: seq<Byte>)
    requires Parse(b).Some?
    ensures Fields(b).Valid()
  {
  }

  lemma ExtensionAt(b: seq<Byte>, i: nat, n: UInt16)
    requires i + 4 + 4 * n <= |b| && Read16(b, i + 2) == n
    ensures Bytes16(Read16(b, i)) + Bytes16(n) + Words(ReadWords(b, i + 4, n)) == b[i..i + 4 + 4 * n]
  {
    WriteRead16(b, i);
    WriteRead16(b, i + 2);
    WriteReadWords(b, i + 4, n);
    assert b[i..i + 4 + 4 * n] == b[i..i + 2] + b[i + 2..i + 4] + b[i + 4..i + 4 + 4 * n];
  }

  /** Where the extension of an accepted buffer ends. */
  lemma ExtensionFits(b: seq<Byte>)
    requires Parse(b).Some?
    ensures var i, length := 12 + b[0] % 0x10 * 4, HeaderLength(b).value;
      && i <= length < |b|
      && length == i + if HasExtension(b) then 4 + 4 * Read16(b, i + 2) else 0
  {
  }

  lemma ExtensionWrites(b: seq<Byte>)
    requires Parse(b).Some? && Fields(b).Valid()
    ensures var i, length := 12 + b[0] % 0x10 * 4, HeaderLength(b).value;
      i <= length < |b| && ExtensionBytes(Fields(b).extension) == b[i..length]
  {
    ExtensionFits(b);
    if HasExtension(b) {
      var i := 12 + b[0] % 0x10 * 4;
      var n := Read16(b, i + 2);
      ExtensionAt(b, i, n);
      assert Fields(b).extension.value == Extension(Read16(b, i), ReadWords(b, i + 4, n));
    }
  }

  /** Every accepted buffer is header, CSRC list, optional extension and payload, and nothing else. */
  lemma SerializeAfterParse(b: seq<Byte>)
    requires Parse(b).Some?
    ensures Fields(b).Valid() && Serialize(Fields(b)) == b
  {
    var i, length := 12 + b[0] % 0x10 * 4, HeaderLength(b).value;
    FieldsAreValid(b);
    FixedHeaderWrites(b);
    WriteReadWords(b, 12, b[0] % 0x10);
    ExtensionWrites(b);
    assert b == b[..12] + b[12..i] + b[i..length] + b[length..];
  }

  /** The first two bytes are put together from the same bits that they are taken apart into. */
  lemma FirstBytesWrite(b: seq<Byte>)
    requires Parse(b).Some? && Fields(b).Valid()
    ensures FirstByte(Fields(b)) == b[0]
    ensures (if Fields(b).marker then 0x80 else 0) + Fields(b).payloadType == b[1]
  {
    BitsOf(b[0]);
  }

  lemma BitsOf(x: Byte)
    requires x / 0x40 % 4 == 2
    ensures x == 0x80 + (if x / 0x20 % 2 == 1 then 0x20 else 0) + (if x / 0x10 % 2 == 1 then 0x10 else 0) + x % 0x10
  {
  }

  lemma FixedHeaderWrites(b: seq<Byte>)
    requires Parse(b).Some? && Fields(b).Valid()
    ensures FixedHeader(Fields(b)) == b[..12]
  {
    FirstBytesWrite(b);
    WriteRead16(b, 2);
    WriteRead32(b, 4);
    WriteRead32(b, 8);
    assert b[..12] == [b[0], b[1]] + b[2..4] + b[4..8] + b[8..12];
  }

  /** The parser accepts exactly the well-formed packets, and each of them in one way only. */
  lemma ParseInvertsSerialize(b: seq<Byte>)
    ensures Parse(b).Some? <==> exists h: Rtp :: h.Valid() && Serialize(h) == b
    ensures forall h: Rtp :: h.Valid() && Serialize(h) == b ==> Parse(b) == Some(h.Packet())
  {
    forall h: Rtp | h.Valid() && Serialize(h) == b
      ensures Parse(b) == Some(h.Packet())
    {
      ParseAfterSerialize(h);
    }
    if Parse(b).Some? {
      SerializeAfterParse(b);
    }
  }
}
