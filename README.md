# USRP to WebSocket relay — Dafny model

This project models the relay core of `install/usrp_ws.py`, the AllStarLink
bridge that receives USRP datagrams over UDP and fans them out to WebSocket
clients. It covers four parts.

- **Header decoding** (`UsrpHeader`, header.dfy). A datagram is accepted when it
  has at least 32 bytes and starts with the tag `"USRP"`. Seven signed 32-bit
  big-endian words follow: sequence number, memory, keyup, talkgroup, packet
  type, mpx id and reserved. The rest of the datagram is the payload. Decoding
  is proved to be a bijection between accepted datagrams and well-formed headers:
  `EncodeHeader` re-encodes the words with `Int32ToBE`, the inverse of Python's
  `struct.unpack(">i")`.
- **Metadata TLV decoding** (`TlvMetadata`, tlv.dfy). A payload is decoded when
  it has at least 15 bytes and msgType 8. The talkgroup is the 24-bit value
  `(p[9] << 16) | (p[10] << 8) | p[11]`. The shift and the bitwise or are
  written out on integers, and the or is proved to equal addition here. The slot
  is `p[12]`. The callsign is `p[14:]`, decoded and stripped.
- **Per-datagram dispatch** (`Dispatch`, dispatch.dfy). This is a pure function
  `Respond` from the stored PTT state and one datagram to the new state and the
  ordered frames to send. `RespondAll` folds it over a stream of datagrams.
- **The relay object** (`Bridge`, bridge.dfy). The class `Relay` holds the PTT
  cell `lastKeyup`, the client set `clients` and a log `sent` of every
  (connection, frame) delivery. `Register` and `Unregister` update the set.
  `Broadcast` snapshots the set and sends once to each connection that is not
  closed. `ObserveKeyup`, `DispatchPacket`, `ProcessDatagram` and `Listen` mirror
  the listener loop. `ObserveKeyup` is proved against `PttStep`, `DispatchPacket`
  against `PacketMessages`, `ProcessDatagram` against `Respond` and `Listen`
  against `RespondAll`: the log grows
  by one complete broadcast per frame, in order (`Extends`). So every open client
  receives exactly those frames in that order (`ExtendsDelivers`), and no other
  connection receives anything.

## Model

| member | source | states |
|---|---|---|
| `UsrpHeader.Int32BE` | install/usrp_ws.py:30-36 | the decoded word lies in [-2^31, 2^31), is negative exactly when the top bit of the first byte is set, and is congruent mod 2^32 to the unsigned big-endian word |
| `UsrpHeader.Int32RoundTrip` | install/usrp_ws.py:30-36 | decoding the big-endian encoding of any signed 32-bit value gives the value back |
| `UsrpHeader.WordDigits` | install/usrp_ws.py:30-36 | division and remainder by 2^24, 2^16, 2^8 recover each byte of the unsigned big-endian word |
| `UsrpHeader.BytesRoundTrip` | install/usrp_ws.py:30-36 | encoding the decoded value of any four bytes gives the same four bytes back |
| `UsrpHeader.ParseHeader` | install/usrp_ws.py:27-41 | None exactly when the datagram is shorter than 32 bytes or does not start with "USRP"; otherwise every field fits 32 bits and the payload is the bytes after offset 32, so the payload length plus 32 is the datagram length |
| `UsrpHeader.ParseHeaderFields` | install/usrp_ws.py:30-36 | field k (k = 1..7) of a decoded header is the signed big-endian word in bytes [4k, 4k+4) |
| `UsrpHeader.DecodedWordAt` | install/usrp_ws.py:30-36 | word k of an encoded well-formed header decodes to field k - 1 |
| `UsrpHeader.WordRoundTrip` | install/usrp_ws.py:30-36 | re-encoding the signed word read at offset 4k gives back the four bytes it was read from |
| `UsrpHeader.ParseEncodeHeader` | install/usrp_ws.py:27-41 | decoding "USRP" + the seven encoded words + payload gives back the header |
| `UsrpHeader.EncodeParseHeader` | install/usrp_ws.py:27-41 | re-encoding any accepted datagram's header gives back the datagram, byte for byte |
| `TlvMetadata.BitOrShifted` | install/usrp_ws.py:49 | or-ing a value shifted left by k with a value below 2^k is their sum |
| `TlvMetadata.TlvTalkgroup` | install/usrp_ws.py:49 | the bitwise or of b9 shifted left 16, b10 shifted left 8 and b11 equals the sum b9·2^16 + b10·2^8 + b11 and is below 2^24 |
| `TlvMetadata.AsciiChars` | install/usrp_ws.py:52 | decoding never lengthens the text and yields only characters below 0x80; an all-ASCII input decodes to the characters of its byte codes, in order |
| `TlvMetadata.AsciiCharsAppend` | install/usrp_ws.py:52 | decoding a concatenation is the concatenation of the decodings, so kept bytes stay in order for any input |
| `TlvMetadata.AsciiCharsByte` | install/usrp_ws.py:52 | a byte below 0x80 decodes to the character of that code and any other byte is dropped |
| `TlvMetadata.TrimStart` | install/usrp_ws.py:52 | the result is the suffix after a run of leading whitespace and starts with a non-space |
| `TlvMetadata.TrimEnd` | install/usrp_ws.py:52 | the result is the prefix before a run of trailing whitespace and ends with a non-space |
| `TlvMetadata.Strip` | install/usrp_ws.py:52 | the result is an infix s[i..j] with only whitespace outside it, and it neither starts nor ends with whitespace |
| `TlvMetadata.StripKeeps` | install/usrp_ws.py:52 | a non-empty string that neither starts nor ends with whitespace is its own strip |
| `TlvMetadata.DecodeCallsign` | install/usrp_ws.py:51-54 | the callsign is never longer than the bytes it comes from and carries no surrounding whitespace; decoding never fails |
| `TlvMetadata.DecodesTo` | install/usrp_ws.py:52 | ASCII bytes whose first and last characters are not whitespace decode to exactly the characters of their codes |
| `TlvMetadata.ParseTlv` | install/usrp_ws.py:43-55 | None exactly when the payload is shorter than 15 bytes or byte 0 is not 8; otherwise msgType is 8, the talkgroup is p[9]*65536 + p[10]*256 + p[11] in [0, 2^24), the slot is p[12] in [0, 256) and the callsign is the decoded p[14:] |
| `TlvMetadata.ParseTlvIgnoresUnusedBytes` | install/usrp_ws.py:46-52 | two payloads that agree on byte 0, bytes 9-12 and bytes 14 onwards decode identically, so bytes 1-8 and 13 never matter |
| `TlvMetadata.W1AWDecodes` | install/usrp_ws.py:52 | the bytes "W1AW" decode to "W1AW", and a leading NUL byte is kept because it is not whitespace |
| `TlvMetadata.TlvExample` | install/usrp_ws.py:49-52 | [8, eight zero bytes, 0x12, 0x34, 0x56, 2, 0, "W1AW"] decodes to talkgroup 0x123456, slot 2, callsign "W1AW" |
| `TlvMetadata.TlvNineFillerExample` | install/usrp_ws.py:49-52 | with nine zero bytes after msgType the decoder reads talkgroup 0x1234, slot 0x56 and callsign "\0W1AW" |
| `Dispatch.PttStep` | install/usrp_ws.py:109-112 | the stored state becomes keyup != 0; an event is produced exactly when that differs from the previous state (always when it was unset), and it carries the new state |
| `Dispatch.PttStepEvents` | install/usrp_ws.py:109-112 | the PTT events of one tracker step are the new state when it differs from the stored one, and nothing otherwise |
| `Dispatch.EffectiveTalkgroup` | install/usrp_ws.py:121 | the TLV talkgroup wins when non-zero; a zero TLV talkgroup falls back to the header's |
| `Dispatch.PacketMessages` | install/usrp_ws.py:114-127 | the packet-type branch sends at most one frame, never a PTT event, and sends nothing for types other than 0 and 2 |
| `Dispatch.Respond` | install/usrp_ws.py:105-127 | an undecodable datagram leaves the state and sends nothing; a decodable one sets the state to keyup != 0; at most two frames result |
| `Dispatch.RespondPtt` | install/usrp_ws.py:109-112 | one datagram yields a PTT event exactly when it changes the stored state, and the event carries the new state |
| `Dispatch.RespondVoice` | install/usrp_ws.py:114-117 | for type 0 the frames are any PTT event followed by one binary frame holding msg[32:], or nothing more when the payload is empty |
| `Dispatch.RespondMetadata` | install/usrp_ws.py:118-127 | for type 2 the frames are any PTT event followed by one meta event (TLV talkgroup if non-zero, else header talkgroup; TLV slot and callsign) when the TLV decodes, and nothing more otherwise |
| `Dispatch.RespondOtherType` | install/usrp_ws.py:114-127 | any other packet type yields nothing beyond the PTT event |
| `Dispatch.VoiceFrameExample` | install/usrp_ws.py:105-117 | a header with keyup 1 and type 0 plus four PCM bytes yields a keyup event, then a four-byte binary frame, and leaves the state keyed |
| `Dispatch.RespondAll` | install/usrp_ws.py:78-127 | the datagrams are processed in arrival order, each against the state the earlier ones left; a stream of n datagrams yields at most 2n frames and leaves the state either unchanged or set |
| `Dispatch.RespondAllIgnoresJunk` | install/usrp_ws.py:105-107 | a stream of undecodable datagrams changes neither the state nor the output |
| `Dispatch.RespondAllSnoc` | install/usrp_ws.py:78-127 | processing one more datagram appends exactly that datagram's reaction to the stream's result |
| `Dispatch.PttTrace` | install/usrp_ws.py:109-112 | fed keyup values, the tracker ends in the state of the last one and emits only PTT events |
| `Dispatch.StreamPtt` | install/usrp_ws.py:105-112 | over a stream, the state and the PTT events equal those of the tracker fed only the keyups of the decodable datagrams |
| `Dispatch.AlternatingStep` | install/usrp_ws.py:109-112 | a step that emits its new state exactly when it differs from the stored one keeps the event sequence alternating |
| `Dispatch.PttTraceAlternates` | install/usrp_ws.py:109-112 | consecutive PTT events always differ, the first differs from the state stored before, and the last is the state stored after |
| `Dispatch.PttTraceExample` | install/usrp_ws.py:109-112 | keyups 0, 0, 1, 1, 0 from the unset state emit exactly unkey, keyup, unkey |
| `Dispatch.StreamPttExample` | install/usrp_ws.py:105-112 | any stream whose decodable datagrams carry keyups 0, 0, 1, 1, 0 makes the relay send exactly the PTT events unkey, keyup, unkey |
| `Bridge.Open` | install/usrp_ws.py:62 | the recipients are exactly the snapshot's connections that are not closed |
| `Bridge.FannedDelivers` | install/usrp_ws.py:62 | in one broadcast to distinct recipients, each recipient receives the frame once and no one else receives it |
| `Bridge.FannedAllDelivers` | install/usrp_ws.py:57-68 | over successive broadcasts to the same targets, each target receives exactly the broadcast frames in order, and any other connection receives nothing |
| `Bridge.ExtendsDelivers` | install/usrp_ws.py:57-68 | after the log grows by broadcasts of some frames, each open client has received exactly those frames appended in order, and every other connection has received nothing new |
| `Bridge.ExtendsPrefix` | install/usrp_ws.py:78-127 | the broadcasts of the first i datagrams followed by those of datagram i are the broadcasts of the first i + 1, and the state is that of datagram i |
| `Bridge.FannedAllToNobody` | install/usrp_ws.py:58-59 | with no open client, broadcasting any frames sends nothing |
| `Bridge.Relay.constructor` | install/usrp_ws.py:23-24 | the relay starts with no clients, the PTT state unset and nothing sent |
| `Bridge.Relay.Register` | install/usrp_ws.py:130 | the client set gains the connection and is otherwise unchanged |
| `Bridge.Relay.Unregister` | install/usrp_ws.py:141 | the client set loses the connection and is otherwise unchanged; removing an absent connection changes nothing |
| `Bridge.UnregisterTwice` | install/usrp_ws.py:141 | discarding a connection twice has the same effect as discarding it once |
| `Bridge.Relay.Broadcast` | install/usrp_ws.py:57-68 | the log grows by the frame sent exactly once to each registered connection that is not closed and to no one else; with no clients nothing is sent; the client set and PTT state are unchanged |
| `Bridge.Relay.ObserveKeyup` | install/usrp_ws.py:109-112 | the PTT cell and the log change exactly as the tracker step prescribes: the state becomes keyup != 0, and a ptt event is broadcast only on a change |
| `Bridge.Relay.DispatchPacket` | install/usrp_ws.py:114-127 | the log grows by exactly the broadcasts of the packet-type branch's frames |
| `Bridge.Relay.ProcessDatagram` | install/usrp_ws.py:105-127 | the PTT cell becomes Respond's state, and the log grows by one complete broadcast per frame of Respond's output, in order; an undecodable datagram changes nothing |
| `Bridge.Relay.ListenStep` | install/usrp_ws.py:78-127 | processing datagram i after the first i of a stream leaves the PTT cell and the log as RespondAll prescribes for the first i + 1 |
| `Bridge.Relay.Listen` | install/usrp_ws.py:78-127 | after a stream of datagrams the PTT cell is RespondAll's state, and the log grows by one complete broadcast per frame of RespondAll's output, in arrival order |

## Notes on the code

- The header carries seven signed 32-bit words after the tag: seq, memory,
  keyup, talkgroup, type, mpxid and reserved (install/usrp_ws.py:30-36).
- The stored PTT state starts unset, so the first observation always emits
  (install/usrp_ws.py:24, 110). Keyups 0, 0, 1, 1, 0 therefore give three
  events: unkey, keyup, unkey (`Dispatch.PttTraceExample`).
- The TLV talkgroup is read from payload bytes 9-11 (install/usrp_ws.py:49).
  A payload with eight filler bytes after msgType decodes to talkgroup
  0x123456, slot 2 and callsign "W1AW" (`TlvMetadata.TlvExample`). With nine
  filler bytes the fields shift by one and decode to talkgroup 0x1234, slot
  0x56 and callsign "\0W1AW" (`TlvMetadata.TlvNineFillerExample`).
- The slot is always an integer in [0, 256): it is byte 12 of the payload
  (install/usrp_ws.py:50).

## Left out

- The wait for "datagram or stop event" (install/usrp_ws.py:78-103) is left out:
  the asyncio race, task cancellation, and the log-and-sleep retry on receive
  errors. `Listen` takes the received datagrams as a finite sequence. The end of
  that sequence stands for the stop signal.
- `sock_recvfrom(sock, 4096)` (install/usrp_ws.py:81) truncates longer
  datagrams. The model receives datagrams as already read.
- Socket creation and binding, `websockets.serve`, signal handlers, `main` and
  the event-loop bootstrap (install/usrp_ws.py:71-75, 144-166) are left out. They
  are I/O and library calls.
- The UDP and WebSocket port settings read from the environment
  (install/usrp_ws.py:20-21) are left out.
- JSON text serialisation by `json.dumps` (install/usrp_ws.py:60) is left out.
  Text frames are the `Event` datatype.
- `asyncio.gather` sends concurrently with `return_exceptions=True`
  (install/usrp_ws.py:62, 68). The model records the sends one after another, in
  an unspecified order. A send to an open connection is recorded as delivered.
  Per-client send failures are not modelled.
- Each `await broadcast_*` can yield to the event loop. Between two broadcasts
  of one datagram, connections may then join, leave or close. The model keeps
  the client set and the closed flags fixed while one datagram, or one stream in
  `Listen`, is processed.
- A connection's closed flag is set by the WebSocket library. The model reads it
  and never changes it.
- The per-connection receive loop and the log messages in `ws_handler`
  (install/usrp_ws.py:131-139, 142), and every `print`, are left out.
- TlvMetadata.DecodeCallsign: weaker than `payload[14:].decode(errors="ignore").strip()`.
  Bytes below 0x80 become characters. Bytes of 0x80 and above are dropped, so
  valid multi-byte UTF-8 sequences are dropped instead of being decoded to
  non-ASCII characters. Whitespace is Python's `str.isspace` set restricted to
  ASCII. The `except` branch (install/usrp_ws.py:53-54) cannot be reached with
  `errors="ignore"` and has no counterpart.
- install-other/asl-monitor.js is not part of this model. It is browser UI:
  DOM updates, Web Audio playback and floating-point scheduling.
