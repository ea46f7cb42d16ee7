/**
  The fixed 32-byte USRP header: the tag "USRP" followed by seven signed
  32-bit big-endian integers (sequence number, memory, keyup, talkgroup,
  packet type, mpx id, reserved), then a payload whose meaning depends on
  the packet type.
 */
module UsrpHeader {
  import opened Wrappers

  /** One octet of a datagram, as Python's `bytes` indexing yields it. */
  type Byte = b: int | 0 <= b < 256

  const TWO_8: int := 0x100
  const TWO_16: int := 0x1_0000
  const TWO_24: int := 0x100_0000
  const TWO_31: int := 0x8000_0000
  const TWO_32: int := 0x1_0000_0000

  /** Length of the fixed header, and offset of the payload. */
  const HeaderSize: nat := 32

  /** The ASCII tag "USRP". */
  const Magic: seq<Byte> := [0x55, 0x53, 0x52, 0x50]

  /** The values a signed 32-bit integer can take. */
  predicate IsInt32(v: int) {
    -TWO_31 <= v < TWO_31
  }

  /** The unsigned value of four bytes read most significant first. */
  function Word32BE(b0: Byte, b1: Byte, b2: Byte, b3: Byte): (w: int)
    ensures 0 <= w < TWO_32
  {
    b0 * TWO_24 + b1 * TWO_16 + b2 * TWO_8 + b3
  }

  /**
    The value `struct.unpack(">i", ...)` gives for four bytes: the
    two's-complement reading of the unsigned big-endian word.
   */
  function Int32BE(b0: Byte, b1: Byte, b2: Byte, b3: Byte): (v: int)
    ensures IsInt32(v)
    ensures v < 0 <==> b0 >= 0x80
    ensures v == Word32BE(b0, b1, b2, b3) || v == Word32BE(b0, b1, b2, b3) - TWO_32
  {
    var w := Word32BE(b0, b1, b2, b3);
    if w < TWO_31 then w else w - TWO_32
  }

  /** The four big-endian bytes that `struct.pack(">i", v)` would produce. */
  function Int32ToBE(v: int): (bs: seq<Byte>)
    requires IsInt32(v)
    ensures |bs| == 4
    ensures (bs[0] >= 0x80) <==> v < 0
  {
    var u := if v < 0 then v + TWO_32 else v;
    [u / TWO_24, (u / TWO_16) % 256, (u / TWO_8) % 256, u % 256]
  }

  /** Splitting an unsigned word into bytes and reading them back gives the word. */
  lemma WordBytes(u: int)
    requires 0 <= u < TWO_32
    ensures var b0, b1, b2, b3 := u / TWO_24, (u / TWO_16) % 256, (u / TWO_8) % 256, u % 256;
      0 <= b0 < 256 && Word32BE(b0, b1, b2, b3) == u
  {
    var q1 := u / TWO_8;
    var q2 := q1 / 256;
    var q3 := q2 / 256;
    assert u == q1 * 256 + u % 256;
    assert q1 == q2 * 256 + q1 % 256;
    assert q2 == q3 * 256 + q2 % 256;
    assert q2 == u / TWO_16;
    assert q3 == u / TWO_24;
  }

  /** Decoding the encoding of a signed 32-bit value gives the value back. */
  lemma Int32RoundTrip(v: int)
    requires IsInt32(v)
    ensures var bs := Int32ToBE(v); Int32BE(bs[0], bs[1], bs[2], bs[3]) == v
  {
    WordBytes(if v < 0 then v + TWO_32 else v);
  }

  /** The bytes of an unsigned word are recovered by division and remainder. */
  lemma WordDigits(b0: Byte, b1: Byte, b2: Byte, b3: Byte)
    ensures var w := Word32BE(b0, b1, b2, b3);
      w / TWO_24 == b0 && (w / TWO_16) % 256 == b1 && (w / TWO_8) % 256 == b2 && w % 256 == b3
  {
    var w := Word32BE(b0, b1, b2, b3);
    var q1 := b0 * TWO_16 + b1 * TWO_8 + b2;
    var q2 := b0 * TWO_8 + b1;
    assert w == q1 * 256 + b3;
    assert w / TWO_8 == q1 && w % 256 == b3;
    assert q1 == q2 * 256 + b2;
    assert w / TWO_16 == q2 by {
      assert w == q2 * TWO_16 + (b2 * TWO_8 + b3);
    }
    assert q2 % 256 == b1 && q1 % 256 == b2;
    assert w / TWO_24 == b0 by {
      assert w == b0 * TWO_24 + (b1 * TWO_16 + b2 * TWO_8 + b3);
    }
  }

  /** Encoding the decoded value of four bytes gives the four bytes back. */
  lemma BytesRoundTrip(b0: Byte, b1: Byte, b2: Byte, b3: Byte)
    ensures Int32ToBE(Int32BE(b0, b1, b2, b3)) == [b0, b1, b2, b3]
  {
    var v := Int32BE(b0, b1, b2, b3);
    var u := if v < 0 then v + TWO_32 else v;
    assert u == Word32BE(b0, b1, b2, b3);
    WordDigits(b0, b1, b2, b3);
  }

  /** A decoded header; the payload is everything after the first 32 bytes. */
  datatype Header = Header(
    seqNum: int,
    memory: int,
    keyup: int,
    talkgroup: int,
    packetType: int,
    mpxId: int,
    reserved: int,
    payload: seq<Byte>)

  /** The seven integer fields in wire order. */
  function Fields(h: Header): (fs: seq<int>)
    ensures |fs| == 7
  {
    [h.seqNum, h.memory, h.keyup, h.talkgroup, h.packetType, h.mpxId, h.reserved]
  }

  /** Every integer field fits in a signed 32-bit word. */
  predicate WellFormed(h: Header) {
    forall i :: 0 <= i < |Fields(h)| ==> IsInt32(Fields(h)[i])
  }

  /** The signed big-endian integer in bytes [4k, 4k+4) of msg. */
  function WordAt(msg: seq<Byte>, k: nat): (v: int)
    requires 4 * k + 4 <= |msg|
    ensures IsInt32(v)
  {
    Int32BE(msg[4 * k], msg[4 * k + 1], msg[4 * k + 2], msg[4 * k + 3])
  }

  /**
    Decodes one datagram. Datagrams shorter than the header or without the
    "USRP" tag yield None; every other byte sequence decodes.
   */
  function ParseHeader(msg: seq<Byte>): (r: Option<Header>)
    ensures r.None? <==> |msg| < HeaderSize || msg[..4] != Magic
    ensures r.Some? ==> WellFormed(r.value)
    ensures r.Some? ==> HeaderSize + |r.value.payload| == |msg| && r.value.payload == msg[HeaderSize..]
  {
    if |msg| < HeaderSize || msg[..4] != Magic then
      None
    else
      Some(Header(
        WordAt(msg, 1), WordAt(msg, 2), WordAt(msg, 3), WordAt(msg, 4),
        WordAt(msg, 5), WordAt(msg, 6), WordAt(msg, 7),
        msg[HeaderSize..]))
  }

  /** Concatenated big-endian encodings of a list of 32-bit values. */
  function EncodeWords(ws: seq<int>): (bs: seq<Byte>)
    requires forall i :: 0 <= i < |ws| ==> IsInt32(ws[i])
    ensures |bs| == 4 * |ws|
  {
    if ws == [] then [] else Int32ToBE(ws[0]) + EncodeWords(ws[1..])
  }

  /** The wire form of a header: tag, seven words, payload. */
  function EncodeHeader(h: Header): (msg: seq<Byte>)
    requires WellFormed(h)
    ensures |msg| == HeaderSize + |h.payload|
  {
    Magic + EncodeWords(Fields(h)) + h.payload
  }

  /** A slice of a concatenation that lies within one part is a slice of that part. */
  lemma SliceOfAppend(a: seq<Byte>, b: seq<Byte>, i: nat, j: nat)
    requires i <= j <= |a| + |b|
    requires j <= |a| || |a| <= i
    ensures j <= |a| ==> (a + b)[i..j] == a[i..j]
    ensures |a| <= i ==> (a + b)[i..j] == b[i - |a|..j - |a|]
  {
  }

  /** The k-th four bytes of EncodeWords(ws) are the encoding of ws[k]. */
  lemma {:induction false} EncodeWordsAt(ws: seq<int>, k: nat)
    requires forall i :: 0 <= i < |ws| ==> IsInt32(ws[i])
    requires k < |ws|
    ensures EncodeWords(ws)[4 * k .. 4 * k + 4] == Int32ToBE(ws[k])
  {
    var head := Int32ToBE(ws[0]);
    var rest := EncodeWords(ws[1..]);
    assert EncodeWords(ws) == head + rest;
    if k == 0 {
      SliceOfAppend(head, rest, 0, 4);
    } else {
      EncodeWordsAt(ws[1..], k - 1);
      SliceOfAppend(head, rest, 4 * k, 4 * k + 4);
    }
  }

  /** Each field of a decoded header is the signed big-endian word at its offset. */
  lemma ParseHeaderFields(msg: seq<Byte>)
    requires ParseHeader(msg).Some?
    ensures forall k :: 1 <= k <= 7 ==> Fields(ParseHeader(msg).value)[k - 1] == WordAt(msg, k)
  {
  }

  /** Word k of an encoded header decodes to field k - 1. */
  lemma DecodedWordAt(h: Header, k: nat)
    requires WellFormed(h)
    requires 1 <= k <= 7
    ensures WordAt(EncodeHeader(h), k) == Fields(h)[k - 1]
  {
    var fs := Fields(h);
    var words := EncodeWords(fs);
    var msg := EncodeHeader(h);
    assert msg == Magic + (words + h.payload);
    SliceOfAppend(Magic, words + h.payload, 4 * k, 4 * k + 4);
    SliceOfAppend(words, h.payload, 4 * (k - 1), 4 * k);
    EncodeWordsAt(fs, k - 1);
    var bs := msg[4 * k .. 4 * k + 4];
    assert bs == Int32ToBE(fs[k - 1]);
    assert bs[0] == msg[4 * k] && bs[1] == msg[4 * k + 1] && bs[2] == msg[4 * k + 2] && bs[3] == msg[4 * k + 3];
    Int32RoundTrip(fs[k - 1]);
  }

  /** Round trip: decoding an encoded header gives the header back. */
  lemma ParseEncodeHeader(h: Header)
    requires WellFormed(h)
    ensures ParseHeader(EncodeHeader(h)) == Some(h)
  {
    var msg := EncodeHeader(h);
    var fs := Fields(h);
    assert msg[..4] == Magic;
    assert msg[HeaderSize..] == h.payload;
    forall k | 1 <= k <= 7
      ensures WordAt(msg, k) == fs[k - 1]
    {
      DecodedWordAt(h, k);
    }
    ParseHeaderFields(msg);
    assert Fields(ParseHeader(msg).value) == fs;
  }

  /** Re-encoding the signed word at offset 4k gives back the four bytes it was read from. */
  lemma WordRoundTrip(msg: seq<Byte>, k: nat)
    requires 4 * k + 4 <= |msg|
    ensures Int32ToBE(WordAt(msg, k)) == msg[4 * k .. 4 * k + 4]
  {
    var b0, b1, b2, b3 := msg[4 * k], msg[4 * k + 1], msg[4 * k + 2], msg[4 * k + 3];
    BytesRoundTrip(b0, b1, b2, b3);
    assert msg[4 * k .. 4 * k + 4] == [b0, b1, b2, b3];
  }

  /** The words of a decoded header re-encode to the bytes they came from. */
  lemma EncodedWordAt(msg: seq<Byte>, k: nat)
    requires ParseHeader(msg).Some?
    requires 1 <= k <= 7
    ensures EncodeWords(Fields(ParseHeader(msg).value))[4 * (k - 1) .. 4 * k] == msg[4 * k .. 4 * k + 4]
  {
    var fs := Fields(ParseHeader(msg).value);
    EncodeWordsAt(fs, k - 1);
    ParseHeaderFields(msg);
    WordRoundTrip(msg, k);
  }

  /** Round trip: re-encoding a decoded datagram gives the datagram back. */
  lemma EncodeParseHeader(msg: seq<Byte>)
    requires ParseHeader(msg).Some?
    ensures EncodeHeader(ParseHeader(msg).value) == msg
  {
    var h := ParseHeader(msg).value;
    var words := EncodeWords(Fields(h));
    forall j | 0 <= j < 28
      ensures words[j] == msg[4 + j]
    {
      var k := j / 4 + 1;
      EncodedWordAt(msg, k);
      assert words[j] == words[4 * (k - 1) .. 4 * k][j - 4 * (k - 1)];
    }
    assert words == msg[4..HeaderSize];
    assert msg == msg[..4] + msg[4..HeaderSize] + msg[HeaderSize..];
  }
}
