/**
  The per-datagram rule of the UDP listener, as a pure function: from the
  stored PTT state and one datagram, the new PTT state and the messages to
  broadcast, in order.
 */
module Dispatch {
  import opened Wrappers
  import opened UsrpHeader
  import opened TlvMetadata

  /** Packet type of a voice frame (16-bit PCM payload). */
  const Voice: int := 0

  /** Packet type of a metadata frame (TLV payload). */
  const Metadata: int := 2

  /**
    The two JSON objects the relay sends:
    {"event":"ptt","state":"keyup"|"unkey"} and
    {"event":"meta","talkgroup":..,"slot":..,"callsign":..}.
   */
  datatype Event =
    | Ptt(keyed: bool)
    | MetaEvent(talkgroup: int, slot: int, callsign: string)

  /** A WebSocket frame: JSON text or raw binary audio. */
  datatype Msg = Text(event: Event) | Binary(data: seq<Byte>)

  /** The stored PTT state (None until the first valid header) and the frames to send. */
  datatype Reaction = Reaction(state: Option<bool>, out: seq<Msg>)

  predicate IsPtt(m: Msg) {
    m.Text? && m.event.Ptt?
  }

  /** The keyup/unkey states of the PTT events among a list of frames, in order. */
  function PttEvents(out: seq<Msg>): (ks: seq<bool>)
    ensures |ks| <= |out|
    ensures (forall i :: 0 <= i < |out| ==> !IsPtt(out[i])) ==> ks == []
  {
    if out == [] then []
    else (if IsPtt(out[0]) then [out[0].event.keyed] else []) + PttEvents(out[1..])
  }

  lemma {:induction false} PttEventsAppend(a: seq<Msg>, b: seq<Msg>)
    ensures PttEvents(a + b) == PttEvents(a) + PttEvents(b)
  {
    if a != [] {
      assert (a + b)[1..] == a[1..] + b;
      PttEventsAppend(a[1..], b);
    } else {
      assert a + b == b;
    }
  }

  /**
    The PTT tracker: the header's keyup is normalised to a flag; an event is
    emitted exactly when the flag differs from the stored state (always on
    the first observation), and the flag becomes the stored state.
   */
  function PttStep(last: Option<bool>, keyup: int): (r: Reaction)
    ensures r.state == Some(keyup != 0)
    ensures r.out != [] <==> r.state != last
    ensures r.out == [] || r.out == [Text(Ptt(keyup != 0))]
  {
    var keyed := keyup != 0;
    if last.None? || keyed != last.value then
      Reaction(Some(keyed), [Text(Ptt(keyed))])
    else
      Reaction(Some(keyed), [])
  }

  /** `meta.get("talkgroup_tlv") or hdr["talkgroup"]`: a zero TLV talkgroup counts as absent. */
  function EffectiveTalkgroup(tlv: int, header: int): (tg: int)
    ensures tlv != 0 ==> tg == tlv
    ensures tlv == 0 ==> tg == header
  {
    if tlv != 0 then tlv else header
  }

  /** The frames a decoded header causes after any PTT event. */
  function PacketMessages(h: Header): (out: seq<Msg>)
    ensures |out| <= 1
    ensures forall i :: 0 <= i < |out| ==> !IsPtt(out[i])
    ensures out != [] ==> h.packetType == Voice || h.packetType == Metadata
  {
    if h.packetType == Voice then
      if h.payload != [] then [Binary(h.payload)] else []
    else if h.packetType == Metadata then
      match ParseTlv(h.payload)
      case None => []
      case Some(meta) =>
        [Text(MetaEvent(EffectiveTalkgroup(meta.talkgroupTlv, h.talkgroup), meta.slot, meta.callsign))]
    else
      []
  }

  /**
    One datagram: an undecodable one changes nothing and sends nothing;
    otherwise the PTT tracker runs first, then the packet-type branch.
   */
  function Respond(last: Option<bool>, msg: seq<Byte>): (r: Reaction)
    ensures ParseHeader(msg).None? ==> r == Reaction(last, [])
    ensures ParseHeader(msg).Some? ==> r.state == Some(ParseHeader(msg).value.keyup != 0)
    ensures |r.out| <= 2
  {
    match ParseHeader(msg)
    case None => Reaction(last, [])
    case Some(h) =>
      var ptt := PttStep(last, h.keyup);
      Reaction(ptt.state, ptt.out + PacketMessages(h))
  }

  /** A PTT event is sent exactly when the stored state changes, and it carries the new state. */
  lemma RespondPtt(last: Option<bool>, msg: seq<Byte>)
    requires ParseHeader(msg).Some?
    ensures var r := Respond(last, msg);
      PttEvents(r.out) == (if r.state != last then [r.state.value] else [])
  {
    var h := ParseHeader(msg).value;
    var ptt := PttStep(last, h.keyup);
    PttEventsAppend(ptt.out, PacketMessages(h));
  }

  /** Voice: the payload follows any PTT event as one binary frame, unless it is empty. */
  lemma RespondVoice(last: Option<bool>, msg: seq<Byte>)
    requires ParseHeader(msg).Some? && ParseHeader(msg).value.packetType == Voice
    ensures var h := ParseHeader(msg).value;
      Respond(last, msg).out
        == PttStep(last, h.keyup).out + (if |msg| > HeaderSize then [Binary(msg[HeaderSize..])] else [])
  {
  }

  /**
    Metadata: a decodable TLV adds one meta event whose talkgroup is the
    TLV's when non-zero and the header's otherwise; an undecodable one adds
    nothing.
   */
  lemma RespondMetadata(last: Option<bool>, msg: seq<Byte>)
    requires ParseHeader(msg).Some? && ParseHeader(msg).value.packetType == Metadata
    ensures var h := ParseHeader(msg).value;
      var tlv := ParseTlv(msg[HeaderSize..]);
      Respond(last, msg).out
        == PttStep(last, h.keyup).out
         + if tlv.None? then []
           else [Text(MetaEvent(if tlv.value.talkgroupTlv != 0 then tlv.value.talkgroupTlv else h.talkgroup,
                                tlv.value.slot, tlv.value.callsign))]
  {
  }

  /** Any other packet type sends nothing beyond the PTT event. */
  lemma RespondOtherType(last: Option<bool>, msg: seq<Byte>)
    requires ParseHeader(msg).Some?
    requires ParseHeader(msg).value.packetType != Voice && ParseHeader(msg).value.packetType != Metadata
    ensures Respond(last, msg).out == PttStep(last, ParseHeader(msg).value.keyup).out
  {
  }

  /**
    End to end: a header with keyup 1 and type 0 followed by four bytes of
    PCM sends a keyup event, then a four-byte binary frame.
   */
  lemma VoiceFrameExample(pcm: seq<Byte>)
    requires |pcm| == 4
    ensures Respond(None, EncodeHeader(Header(0, 0, 1, 0, Voice, 0, 0, pcm)))
         == Reaction(Some(true), [Text(Ptt(true)), Binary(pcm)])
  {
    ParseEncodeHeader(Header(0, 0, 1, 0, Voice, 0, 0, pcm));
  }

  /** The datagrams of a stream processed in arrival order, each against the state the previous ones left. */
  function RespondAll(last: Option<bool>, ds: seq<seq<Byte>>): (r: Reaction)
    ensures |r.out| <= 2 * |ds|
    ensures r.state == last || r.state.Some?
    decreases |ds|
  {
    if ds == [] then Reaction(last, [])
    else
      var before := RespondAll(last, ds[..|ds| - 1]);
      var step := Respond(before.state, ds[|ds| - 1]);
      Reaction(step.state, before.out + step.out)
  }

  /** A stream of undecodable datagrams changes nothing and sends nothing. */
  lemma {:induction false} RespondAllIgnoresJunk(last: Option<bool>, ds: seq<seq<Byte>>)
    requires forall i :: 0 <= i < |ds| ==> ParseHeader(ds[i]).None?
    ensures RespondAll(last, ds) == Reaction(last, [])
    decreases |ds|
  {
    if ds != [] {
      assert ParseHeader(ds[|ds| - 1]).None?;
      RespondAllIgnoresJunk(last, ds[..|ds| - 1]);
    }
  }

  /** Processing one more datagram extends the stream's result by that datagram's reaction. */
  lemma RespondAllSnoc(last: Option<bool>, ds: seq<seq<Byte>>, d: seq<Byte>)
    ensures var before := RespondAll(last, ds);
      var step := Respond(before.state, d);
      RespondAll(last, ds + [d]) == Reaction(step.state, before.out + step.out)
  {
    assert (ds + [d])[..|ds|] == ds;
  }

  /** The PTT tracker alone, fed a sequence of header keyup values in order. */
  function PttTrace(last: Option<bool>, keyups: seq<int>): (r: Reaction)
    ensures keyups != [] ==> r.state == Some(keyups[|keyups| - 1] != 0)
    ensures keyups == [] ==> r == Reaction(last, [])
    ensures forall i :: 0 <= i < |r.out| ==> IsPtt(r.out[i])
    decreases |keyups|
  {
    if keyups == [] then Reaction(last, [])
    else
      var before := PttTrace(last, keyups[..|keyups| - 1]);
      var step := PttStep(before.state, keyups[|keyups| - 1]);
      Reaction(step.state, before.out + step.out)
  }

  /** The keyup values of the decodable datagrams of a stream, in order. */
  function ValidKeyups(ds: seq<seq<Byte>>): (ks: seq<int>)
    ensures |ks| <= |ds|
    decreases |ds|
  {
    if ds == [] then []
    else
      ValidKeyups(ds[..|ds| - 1])
        + (match ParseHeader(ds[|ds| - 1]) case None => [] case Some(h) => [h.keyup])
  }

  /** The tracker's own step emits the new state exactly when it differs from the stored one. */
  lemma PttStepEvents(last: Option<bool>, keyup: int)
    ensures var r := PttStep(last, keyup);
      PttEvents(r.out) == (if r.state != last then [r.state.value] else [])
  {
    var r := PttStep(last, keyup);
    if r.out != [] {
      assert r.out[1..] == [];
    }
  }

  /**
    Over a stream, the PTT state and the PTT events are those of the tracker
    fed the keyup values of the decodable datagrams alone.
   */
  lemma {:induction false} StreamPtt(last: Option<bool>, ds: seq<seq<Byte>>)
    ensures RespondAll(last, ds).state == PttTrace(last, ValidKeyups(ds)).state
    ensures PttEvents(RespondAll(last, ds).out) == PttEvents(PttTrace(last, ValidKeyups(ds)).out)
    decreases |ds|
  {
    if ds != [] {
      var init := ds[..|ds| - 1];
      var d := ds[|ds| - 1];
      StreamPtt(last, init);
      var before := RespondAll(last, init);
      var step := Respond(before.state, d);
      var kb := ValidKeyups(init);
      var tb := PttTrace(last, kb);
      assert RespondAll(last, ds) == Reaction(step.state, before.out + step.out);
      PttEventsAppend(before.out, step.out);
      if ParseHeader(d).None? {
        assert ValidKeyups(ds) == kb;
      } else {
        var h := ParseHeader(d).value;
        var ks := ValidKeyups(ds);
        assert ks == kb + [h.keyup];
        assert ks[..|ks| - 1] == kb;
        var p := PttStep(tb.state, h.keyup);
        assert PttTrace(last, ks) == Reaction(p.state, tb.out + p.out);
        PttEventsAppend(tb.out, p.out);
        RespondPtt(before.state, d);
        PttStepEvents(tb.state, h.keyup);
      }
    }
  }

  /**
    Consecutive events differ, the first differs from the state s0 stored
    before them, and the state s stored after them is the last one, or s0
    when there are none.
   */
  ghost predicate Alternating(s0: Option<bool>, ev: seq<bool>, s: Option<bool>) {
    && (forall i :: 0 <= i < |ev| - 1 ==> ev[i] != ev[i + 1])
    && (s0.Some? && ev != [] ==> ev[0] != s0.value)
    && (ev != [] ==> s == Some(ev[|ev| - 1]))
    && (ev == [] ==> s == s0)
  }

  /** One more step that emits its new state exactly when it differs from the old keeps the events alternating. */
  lemma AlternatingStep(s0: Option<bool>, ev: seq<bool>, s: Option<bool>, k: bool)
    requires Alternating(s0, ev, s)
    ensures Alternating(s0, ev + (if Some(k) != s then [k] else []), Some(k))
  {
  }

  /**
    The tracker never repeats itself: consecutive events alternate, the
    first differs from the state stored before, and the last is the state
    stored after.
   */
  lemma {:induction false} PttTraceAlternates(last: Option<bool>, keyups: seq<int>)
    ensures var r := PttTrace(last, keyups); Alternating(last, PttEvents(r.out), r.state)
    decreases |keyups|
  {
    var r := PttTrace(last, keyups);
    if keyups != [] {
      var init := keyups[..|keyups| - 1];
      PttTraceAlternates(last, init);
      var before := PttTrace(last, init);
      var step := PttStep(before.state, keyups[|keyups| - 1]);
      assert r == Reaction(step.state, before.out + step.out);
      PttEventsAppend(before.out, step.out);
      PttStepEvents(before.state, keyups[|keyups| - 1]);
      AlternatingStep(last, PttEvents(before.out), before.state, keyups[|keyups| - 1] != 0);
    }
  }

  /** Keyup values 0, 0, 1, 1, 0 give exactly the events unkey, keyup, unkey. */
  lemma PttTraceExample()
    ensures PttTrace(None, [0, 0, 1, 1, 0]).out == [Text(Ptt(false)), Text(Ptt(true)), Text(Ptt(false))]
    ensures PttTrace(None, [0, 0, 1, 1, 0]).state == Some(false)
  {
    var ks: seq<int> := [0, 0, 1, 1, 0];
    var off, on := Text(Ptt(false)), Text(Ptt(true));
    assert ks[..1] == [0] && PttTrace(None, ks[..1]) == Reaction(Some(false), [off]);
    assert ks[..2][..1] == ks[..1] && PttTrace(None, ks[..2]) == Reaction(Some(false), [off]);
    assert ks[..3][..2] == ks[..2] && PttTrace(None, ks[..3]) == Reaction(Some(true), [off, on]);
    assert ks[..4][..3] == ks[..3] && PttTrace(None, ks[..4]) == Reaction(Some(true), [off, on]);
    assert ks[..4] == ks[..|ks| - 1];
  }

  /** The PTT events of three frames: unkey, keyup, unkey. */
  lemma UnkeyKeyupUnkey()
    ensures PttEvents([Text(Ptt(false)), Text(Ptt(true)), Text(Ptt(false))]) == [false, true, false]
  {
    var out := [Text(Ptt(false)), Text(Ptt(true)), Text(Ptt(false))];
    assert out[1..] == [Text(Ptt(true)), Text(Ptt(false))] && out[1..][1..] == [Text(Ptt(false))];
    assert out[1..][1..][1..] == [];
  }

  /**
    A stream whose decodable datagrams carry keyup 0, 0, 1, 1, 0 makes the
    relay send exactly the PTT events unkey, keyup, unkey.
   */
  lemma StreamPttExample(ds: seq<seq<Byte>>)
    requires ValidKeyups(ds) == [0, 0, 1, 1, 0]
    ensures PttEvents(RespondAll(None, ds).out) == [false, true, false]
  {
    StreamPtt(None, ds);
    PttTraceExample();
    UnkeyKeyupUnkey();
  }
}
