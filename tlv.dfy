/**
  The text-metadata TLV carried in the payload of a metadata packet
  (packet type 2): msgType at byte 0, a 24-bit big-endian talkgroup in
  bytes 9-11, the timeslot in byte 12 and a callsign from byte 14 on.
 */
module TlvMetadata {
  import opened Wrappers
  import opened UsrpHeader

  /** The only TLV message type the relay decodes: text metadata. */
  const TextMetadata: int := 8

  /** The shortest payload that is decoded. */
  const MinTlvSize: nat := 15

  datatype Meta = Meta(msgType: int, talkgroupTlv: int, slot: int, callsign: string)

  /** 2 to the power k. */
  function Pow2(k: nat): (p: nat)
    ensures p >= 1
  {
    if k == 0 then 1 else 2 * Pow2(k - 1)
  }

  /** Python's `<<` on a non-negative integer. */
  function ShiftLeft(a: nat, k: nat): nat {
    a * Pow2(k)
  }

  /** Python's `|` on non-negative integers, bit by bit from the least significant. */
  function BitOr(a: nat, b: nat): nat
    decreases a + b
  {
    if a == 0 && b == 0 then 0
    else 2 * BitOr(a / 2, b / 2) + (if a % 2 == 1 || b % 2 == 1 then 1 else 0)
  }

  /** Or-ing a value shifted left by k with one below 2^k adds them: no bit is shared. */
  lemma {:induction false} BitOrShifted(hi: nat, lo: nat, k: nat)
    requires lo < Pow2(k)
    ensures BitOr(ShiftLeft(hi, k), lo) == ShiftLeft(hi, k) + lo
    decreases k
  {
    if k == 0 {
      assert lo == 0;
      BitOrZero(hi);
    } else {
      var x := ShiftLeft(hi, k - 1);
      assert ShiftLeft(hi, k) == 2 * x;
      BitOrShifted(hi, lo / 2, k - 1);
      if 2 * x == 0 && lo == 0 {
      } else {
        assert (2 * x) / 2 == x && (2 * x) % 2 == 0;
        assert BitOr(2 * x, lo) == 2 * BitOr(x, lo / 2) + lo % 2;
      }
    }
  }

  /** Or-ing with zero changes nothing. */
  lemma {:induction false} BitOrZero(a: nat)
    ensures BitOr(a, 0) == a
    decreases a
  {
    if a != 0 {
      BitOrZero(a / 2);
    }
  }

  /**
    The talkgroup as the source computes it, `(b9 << 16) | (b10 << 8) | b11`:
    the 24-bit big-endian value of the three bytes.
   */
  function TlvTalkgroup(b9: Byte, b10: Byte, b11: Byte): (tg: int)
    ensures tg == b9 * 0x1_0000 + b10 * 0x100 + b11
    ensures 0 <= tg < TWO_24
  {
    var hi := BitOr(ShiftLeft(b9, 16), ShiftLeft(b10, 8));
    assert Pow2(8) == 0x100 && Pow2(16) == 0x1_0000;
    BitOrShifted(b9, ShiftLeft(b10, 8), 16);
    assert hi == ShiftLeft(b9 * 0x100 + b10, 8);
    BitOrShifted(b9 * 0x100 + b10, b11, 8);
    BitOr(hi, b11)
  }

  /**
    Python's `str.isspace` restricted to the characters this decoder can
    produce: tab, line feed, vertical tab, form feed, carriage return, the
    four information separators 0x1C-0x1F and space.
   */
  predicate IsSpace(c: char) {
    ('\t' <= c <= '\r') || ('\U{1C}' <= c <= '\U{1F}') || c == ' '
  }

  /** `errors="ignore"` decoding, restricted to single-byte characters. */
  function AsciiChars(bs: seq<Byte>): (s: string)
    ensures |s| <= |bs|
    ensures forall i :: 0 <= i < |s| ==> s[i] < '\U{80}'
    ensures (forall i :: 0 <= i < |bs| ==> bs[i] < 0x80) ==> |s| == |bs| && forall i :: 0 <= i < |s| ==> s[i] as int == bs[i]
  {
    if bs == [] then []
    else (if bs[0] < 0x80 then [bs[0] as char] else []) + AsciiChars(bs[1..])
  }

  /** Decoding a concatenation decodes each part: the kept bytes stay in order. */
  lemma {:induction false} AsciiCharsAppend(a: seq<Byte>, b: seq<Byte>)
    ensures AsciiChars(a + b) == AsciiChars(a) + AsciiChars(b)
    decreases |a|
  {
    if a == [] {
      assert a + b == b;
    } else {
      assert (a + b)[0] == a[0];
      assert (a + b)[1..] == a[1..] + b;
      AsciiCharsAppend(a[1..], b);
    }
  }

  /** A single byte decodes to its character when below 0x80 and is dropped otherwise. */
  lemma AsciiCharsByte(b: Byte)
    ensures b < 0x80 ==> AsciiChars([b]) == [b as char]
    ensures b >= 0x80 ==> AsciiChars([b]) == []
  {
    assert [b][1..] == [];
  }

  /** Drops leading whitespace: the result is the suffix of s that starts at its first non-space. */
  function TrimStart(s: string): (r: string)
    ensures |r| <= |s| && r == s[|s| - |r|..]
    ensures forall i :: 0 <= i < |s| - |r| ==> IsSpace(s[i])
    ensures r != [] ==> !IsSpace(r[0])
  {
    if s != [] && IsSpace(s[0]) then TrimStart(s[1..]) else s
  }

  /** Drops trailing whitespace: the result is the prefix of s that ends at its last non-space. */
  function TrimEnd(s: string): (r: string)
    ensures |r| <= |s| && r == s[..|r|]
    ensures forall i :: |r| <= i < |s| ==> IsSpace(s[i])
    ensures r != [] ==> !IsSpace(r[|r| - 1])
  {
    if s != [] && IsSpace(s[|s| - 1]) then TrimEnd(s[..|s| - 1]) else s
  }

  /** Every character of s before i and from j on is whitespace. */
  predicate SpaceMargins(s: string, i: int, j: int) {
    0 <= i <= j <= |s|
    && (forall k :: 0 <= k < i ==> IsSpace(s[k]))
    && (forall k :: j <= k < |s| ==> IsSpace(s[k]))
  }

  /**
    A prefix r of a suffix t of s, where s before t and t after r are
    whitespace, is the infix of s between two whitespace margins.
   */
  lemma InfixMargins(s: string, t: string, r: string)
    requires |t| <= |s| && t == s[|s| - |t|..]
    requires forall k :: 0 <= k < |s| - |t| ==> IsSpace(s[k])
    requires |r| <= |t| && r == t[..|r|]
    requires forall k :: |r| <= k < |t| ==> IsSpace(t[k])
    ensures var i := |s| - |t|; SpaceMargins(s, i, i + |r|) && r == s[i..i + |r|]
    ensures r != [] ==> r[0] == t[0]
  {
    var i := |s| - |t|;
    var j := i + |r|;
    forall k | j <= k < |s|
      ensures IsSpace(s[k])
    {
      assert s[k] == t[k - i];
    }
  }

  /** `str.strip()`: the longest infix of s that neither starts nor ends with whitespace. */
  function Strip(s: string): (r: string)
    ensures exists i, j :: SpaceMargins(s, i, j) && r == s[i..j]
    ensures r != [] ==> !IsSpace(r[0]) && !IsSpace(r[|r| - 1])
  {
    var t := TrimStart(s);
    var r := TrimEnd(t);
    InfixMargins(s, t, r);
    var i := |s| - |t|;
    assert SpaceMargins(s, i, i + |r|) && r == s[i..i + |r|];
    r
  }

  /** A string that neither starts nor ends with whitespace is its own strip. */
  lemma StripKeeps(s: string)
    requires s != [] && !IsSpace(s[0]) && !IsSpace(s[|s| - 1])
    ensures Strip(s) == s
  {
    assert TrimStart(s) == s;
    assert TrimEnd(s) == s;
  }

  /** The callsign: the bytes from offset 14, decoded and stripped. */
  function DecodeCallsign(bs: seq<Byte>): (callsign: string)
    ensures |callsign| <= |bs|
    ensures callsign != [] ==> !IsSpace(callsign[0]) && !IsSpace(callsign[|callsign| - 1])
  {
    Strip(AsciiChars(bs))
  }

  /**
    Decodes the metadata TLV. Payloads shorter than 15 bytes or whose
    msgType is not 8 yield None.
   */
  function ParseTlv(payload: seq<Byte>): (r: Option<Meta>)
    ensures r.None? <==> |payload| < MinTlvSize || payload[0] != TextMetadata
    ensures r.Some? ==> r.value.msgType == TextMetadata
    ensures r.Some? ==> (0 <= r.value.talkgroupTlv < TWO_24 &&
                         r.value.talkgroupTlv == payload[9] as int * 0x1_0000 + payload[10] as int * 0x100 + payload[11])
    ensures r.Some? ==> r.value.slot == payload[12] && 0 <= r.value.slot < 256
    ensures r.Some? ==> r.value.callsign == DecodeCallsign(payload[14..])
  {
    if payload == [] || |payload| < MinTlvSize then
      None
    else if payload[0] != TextMetadata then
      None
    else
      Some(Meta(
        payload[0],
        TlvTalkgroup(payload[9], payload[10], payload[11]),
        payload[12],
        DecodeCallsign(payload[14..])))
  }

  /** Bytes 1-8 and 13 of the TLV play no part in what is decoded. */
  lemma ParseTlvIgnoresUnusedBytes(p: seq<Byte>, q: seq<Byte>)
    requires |p| >= 14 && |q| >= 14
    requires p[0] == q[0] && p[9..13] == q[9..13] && p[14..] == q[14..]
    ensures ParseTlv(p) == ParseTlv(q)
  {
    assert |p| == |q|;
    assert p[9] == q[9] && p[10] == q[10] && p[11] == q[11] && p[12] == q[12] by {
      assert p[9..13][0] == q[9..13][0] && p[9..13][1] == q[9..13][1];
      assert p[9..13][2] == q[9..13][2] && p[9..13][3] == q[9..13][3];
    }
  }

  /** "W1AW" as bytes. */
  const W1AW: seq<Byte> := [0x57, 0x31, 0x41, 0x57]

  /** ASCII bytes whose first and last characters are not whitespace decode to exactly those characters. */
  lemma DecodesTo(bs: seq<Byte>, cs: string)
    requires |bs| == |cs| > 0
    requires forall i :: 0 <= i < |bs| ==> bs[i] < 0x80 && cs[i] as int == bs[i]
    requires !IsSpace(cs[0]) && !IsSpace(cs[|cs| - 1])
    ensures DecodeCallsign(bs) == cs
  {
    var a := AsciiChars(bs);
    assert forall i :: 0 <= i < |bs| ==> bs[i] < 0x80;
    assert a == cs;
    StripKeeps(cs);
  }

  /** The example callsign bytes decode to "W1AW", and a leading NUL is kept. */
  lemma W1AWDecodes()
    ensures DecodeCallsign(W1AW) == "W1AW"
    ensures DecodeCallsign([0] + W1AW) == "\0W1AW"
  {
    DecodesTo(W1AW, "W1AW");
    DecodesTo([0] + W1AW, "\0W1AW");
  }

  /**
    A text-metadata TLV laid out as the decoder reads it: msgType 8, eight
    unused bytes, talkgroup 0x123456, slot 2, one unused byte, "W1AW".
   */
  lemma TlvExample()
    ensures ParseTlv([8, 0, 0, 0, 0, 0, 0, 0, 0, 0x12, 0x34, 0x56, 2, 0] + W1AW)
         == Some(Meta(8, 0x123456, 2, "W1AW"))
  {
    var p: seq<Byte> := [8, 0, 0, 0, 0, 0, 0, 0, 0, 0x12, 0x34, 0x56, 2, 0] + W1AW;
    assert p[0] == 8 && p[9] == 0x12 && p[10] == 0x34 && p[11] == 0x56 && p[12] == 2;
    assert p[14..] == W1AW;
    W1AWDecodes();
    var r := ParseTlv(p);
    assert r.value.talkgroupTlv == 0x123456;
  }

  /**
    With nine zero bytes after msgType the fields shift by one: the decoder
    reads talkgroup 0x1234 from bytes 9-11, slot 0x56 from byte 12, and the
    callsign starts with the NUL byte, which strip() keeps.
   */
  lemma TlvNineFillerExample()
    ensures ParseTlv([8, 0, 0, 0, 0, 0, 0, 0, 0, 0, 0x12, 0x34, 0x56, 2, 0] + W1AW)
         == Some(Meta(8, 0x1234, 0x56, "\0W1AW"))
  {
    var p: seq<Byte> := [8, 0, 0, 0, 0, 0, 0, 0, 0, 0, 0x12, 0x34, 0x56, 2, 0] + W1AW;
    assert p[0] == 8 && p[9] == 0 && p[10] == 0x12 && p[11] == 0x34 && p[12] == 0x56;
    assert p[14..] == [0] + W1AW;
    W1AWDecodes();
    var r := ParseTlv(p);
    assert r.value.talkgroupTlv == 0x1234;
  }
}
