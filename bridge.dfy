/**
  The stateful side of the relay: the set of connected WebSocket clients,
  the stored PTT state, and the frames sent so far. Broadcasting snapshots
  the client set and sends the frame once to every client in it whose
  transport is not closed.
 */
module Bridge {
  import opened Wrappers
  import opened UsrpHeader
  import opened TlvMetadata
  import opened Dispatch

  /** A WebSocket connection; `closed` is the transport's closed flag. */
  class Connection {
    var closed: bool

    constructor ()
      ensures !closed
    {
      closed := false;
    }
  }

  /** One frame handed to one connection. */
  datatype Delivery = Delivery(to: Connection, msg: Msg)

  /** The connections among cs whose transport is open. */
  function Open(cs: set<Connection>): (open: set<Connection>)
    reads cs
    ensures open <= cs
    ensures forall c :: c in cs && !c.closed ==> c in open
    ensures forall c :: c in open ==> !c.closed
  {
    set c | c in cs && !c.closed
  }

  function Recipients(batch: seq<Delivery>): set<Connection> {
    set i | 0 <= i < |batch| :: batch[i].to
  }

  /** One broadcast: m, sent exactly once to each connection in targets and to no one else. */
  ghost predicate Fanned(batch: seq<Delivery>, m: Msg, targets: set<Connection>) {
    && |batch| == |targets|
    && Recipients(batch) == targets
    && (forall i, j :: 0 <= i < j < |batch| ==> batch[i].to != batch[j].to)
    && (forall i :: 0 <= i < |batch| ==> batch[i].msg == m)
  }

  /** Consecutive broadcasts of msgs, in order, each to targets. */
  ghost predicate FannedAll(log: seq<Delivery>, msgs: seq<Msg>, targets: set<Connection>)
    decreases |msgs|
  {
    if msgs == [] then log == []
    else
      && |targets| <= |log|
      && Fanned(log[..|targets|], msgs[0], targets)
      && FannedAll(log[|targets|..], msgs[1..], targets)
  }

  /** The frames a connection receives, in the order they were sent. */
  function DeliveredTo(log: seq<Delivery>, c: Connection): (ms: seq<Msg>)
    ensures |ms| <= |log|
  {
    if log == [] then []
    else (if log[0].to == c then [log[0].msg] else []) + DeliveredTo(log[1..], c)
  }

  lemma {:induction false} DeliveredToAppend(a: seq<Delivery>, b: seq<Delivery>, c: Connection)
    ensures DeliveredTo(a + b, c) == DeliveredTo(a, c) + DeliveredTo(b, c)
  {
    if a == [] {
      assert a + b == b;
    } else {
      var ab := a + b;
      assert ab[0] == a[0];
      assert ab[1..] == a[1..] + b;
      DeliveredToAppend(a[1..], b, c);
      assert DeliveredTo(ab, c) == (if a[0].to == c then [a[0].msg] else []) + DeliveredTo(a[1..] + b, c);
    }
  }

  /** In one broadcast, every target receives the frame once and nobody else receives anything. */
  lemma {:induction false} FannedDelivers(batch: seq<Delivery>, m: Msg, c: Connection)
    requires forall i, j :: 0 <= i < j < |batch| ==> batch[i].to != batch[j].to
    requires forall i :: 0 <= i < |batch| ==> batch[i].msg == m
    ensures DeliveredTo(batch, c) == if c in Recipients(batch) then [m] else []
  {
    if batch != [] {
      var tail := batch[1..];
      FannedDelivers(tail, m, c);
      assert Recipients(batch) == {batch[0].to} + Recipients(tail) by {
        forall x | x in Recipients(batch) ensures x in {batch[0].to} + Recipients(tail) {
          var i :| 0 <= i < |batch| && batch[i].to == x;
          if i > 0 { assert tail[i - 1].to == x; }
        }
        forall x | x in Recipients(tail) ensures x in Recipients(batch) {
          var i :| 0 <= i < |tail| && tail[i].to == x;
          assert batch[i + 1].to == x;
        }
      }
      forall i | 0 <= i < |tail|
        ensures tail[i].to != batch[0].to
      {
        assert tail[i] == batch[i + 1];
      }
    }
  }

  /**
    Over a sequence of broadcasts to the same targets, each target receives
    exactly the broadcast frames in order; any other connection receives
    nothing.
   */
  lemma {:induction false} FannedAllDelivers(log: seq<Delivery>, msgs: seq<Msg>, targets: set<Connection>, c: Connection)
    requires FannedAll(log, msgs, targets)
    ensures DeliveredTo(log, c) == if c in targets then msgs else []
    decreases |msgs|
  {
    if msgs != [] {
      var n := |targets|;
      assert log == log[..n] + log[n..];
      DeliveredToAppend(log[..n], log[n..], c);
      FannedDelivers(log[..n], msgs[0], c);
      FannedAllDelivers(log[n..], msgs[1..], targets, c);
    }
  }

  /** Broadcasts logged one after the other make one longer run of broadcasts. */
  lemma {:induction false} FannedAllAppend(a: seq<Delivery>, ma: seq<Msg>, b: seq<Delivery>, mb: seq<Msg>, targets: set<Connection>)
    requires FannedAll(a, ma, targets) && FannedAll(b, mb, targets)
    ensures FannedAll(a + b, ma + mb, targets)
    decreases |ma|
  {
    var n := |targets|;
    if ma == [] {
      assert a + b == b && ma + mb == mb;
    } else {
      FannedAllAppend(a[n..], ma[1..], b, mb, targets);
      assert (a + b)[..n] == a[..n];
      assert (a + b)[n..] == a[n..] + b;
      assert (ma + mb)[0] == ma[0];
      assert (ma + mb)[1..] == ma[1..] + mb;
    }
  }

  lemma FannedAllSingle(batch: seq<Delivery>, m: Msg, targets: set<Connection>)
    requires Fanned(batch, m, targets)
    ensures FannedAll(batch, [m], targets)
  {
    assert batch[..|targets|] == batch;
    assert [m][1..] == [];
  }

  lemma RecipientsSnoc(batch: seq<Delivery>, d: Delivery)
    ensures Recipients(batch + [d]) == Recipients(batch) + {d.to}
  {
    var ext := batch + [d];
    forall x | x in Recipients(ext) ensures x in Recipients(batch) + {d.to} {
      var i :| 0 <= i < |ext| && ext[i].to == x;
      if i < |batch| { assert batch[i].to == x; }
    }
    forall x | x in Recipients(batch) ensures x in Recipients(ext) {
      var i :| 0 <= i < |batch| && batch[i].to == x;
      assert ext[i].to == x;
    }
    assert ext[|batch|].to == d.to;
  }

  /** Sending m to one more connection, not yet a recipient, extends the broadcast to it. */
  lemma FannedSnoc(batch: seq<Delivery>, m: Msg, targets: set<Connection>, c: Connection)
    requires Fanned(batch, m, targets) && c !in targets
    ensures Fanned(batch + [Delivery(c, m)], m, targets + {c})
  {
    RecipientsSnoc(batch, Delivery(c, m));
  }

  /** A further broadcast to the same targets extends a run of broadcasts. */
  lemma FannedAllSnoc(log: seq<Delivery>, msgs: seq<Msg>, batch: seq<Delivery>, m: Msg, targets: set<Connection>)
    requires FannedAll(log, msgs, targets) && Fanned(batch, m, targets)
    ensures FannedAll(log + batch, msgs + [m], targets)
  {
    FannedAllSingle(batch, m, targets);
    FannedAllAppend(log, msgs, batch, [m], targets);
  }

  /** The open connections of a set grown by one connection. */
  lemma OpenAdd(cs: set<Connection>, c: Connection)
    ensures Open(cs + {c}) == if c.closed then Open(cs) else Open(cs) + {c}
  {
  }

  /** The fan-out step: considering one more target, which is sent m only if it is open. */
  lemma FanOutStep(batch: seq<Delivery>, m: Msg, done: set<Connection>, c: Connection)
    requires Fanned(batch, m, Open(done)) && c !in done
    ensures Fanned(batch + (if c.closed then [] else [Delivery(c, m)]), m, Open(done + {c}))
  {
    OpenAdd(done, c);
    if !c.closed {
      FannedSnoc(batch, m, Open(done), c);
    } else {
      assert batch + [] == batch;
    }
  }

  /** The log grew from before to after by broadcasts of msgs, in order, to targets. */
  ghost predicate Extends(before: seq<Delivery>, after: seq<Delivery>, msgs: seq<Msg>, targets: set<Connection>) {
    && |before| <= |after|
    && after[..|before|] == before
    && FannedAll(after[|before|..], msgs, targets)
  }

  lemma ExtendsNothing(log: seq<Delivery>, targets: set<Connection>)
    ensures Extends(log, log, [], targets)
  {
    assert log[|log|..] == [];
  }

  lemma ExtendsByOne(before: seq<Delivery>, after: seq<Delivery>, m: Msg, targets: set<Connection>)
    requires |before| <= |after| && after[..|before|] == before
    requires Fanned(after[|before|..], m, targets)
    ensures Extends(before, after, [m], targets)
  {
    FannedAllSingle(after[|before|..], m, targets);
  }

  /** Two growths of the log, one after the other, make one. */
  lemma ExtendsTrans(a: seq<Delivery>, b: seq<Delivery>, c: seq<Delivery>, ma: seq<Msg>, mb: seq<Msg>, targets: set<Connection>)
    requires Extends(a, b, ma, targets) && Extends(b, c, mb, targets)
    ensures Extends(a, c, ma + mb, targets)
  {
    assert c[..|a|] == a by {
      assert c[..|a|] == c[..|b|][..|a|] == b[..|a|];
    }
    assert c[|a|..] == b[|a|..] + c[|b|..] by {
      assert b == c[..|b|];
    }
    FannedAllAppend(b[|a|..], ma, c[|b|..], mb, targets);
  }

  /** One more datagram processed after a stream extends the stream's broadcasts by its own. */
  lemma ExtendsStream(a: seq<Delivery>, b: seq<Delivery>, c: seq<Delivery>,
                      last: Option<bool>, ds: seq<seq<Byte>>, d: seq<Byte>, targets: set<Connection>)
    requires Extends(a, b, RespondAll(last, ds).out, targets)
    requires Extends(b, c, Respond(RespondAll(last, ds).state, d).out, targets)
    ensures Extends(a, c, RespondAll(last, ds + [d]).out, targets)
    ensures RespondAll(last, ds + [d]).state == Respond(RespondAll(last, ds).state, d).state
  {
    RespondAllSnoc(last, ds, d);
    ExtendsTrans(a, b, c, RespondAll(last, ds).out, Respond(RespondAll(last, ds).state, d).out, targets);
  }

  /** The same, for the prefixes of one stream that a loop walks through. */
  lemma ExtendsPrefix(a: seq<Delivery>, b: seq<Delivery>, c: seq<Delivery>,
                      last: Option<bool>, ds: seq<seq<Byte>>, i: nat, targets: set<Connection>)
    requires i < |ds|
    requires Extends(a, b, RespondAll(last, ds[..i]).out, targets)
    requires Extends(b, c, Respond(RespondAll(last, ds[..i]).state, ds[i]).out, targets)
    ensures Extends(a, c, RespondAll(last, ds[..i + 1]).out, targets)
    ensures RespondAll(last, ds[..i + 1]).state == Respond(RespondAll(last, ds[..i]).state, ds[i]).state
  {
    assert ds[..i + 1] == ds[..i] + [ds[i]];
    ExtendsStream(a, b, c, last, ds[..i], ds[i], targets);
  }

  /**
    Whatever a run of broadcasts appended to the log, each target received
    exactly the broadcast frames, in order, and every other connection
    received nothing new.
   */
  lemma ExtendsDelivers(before: seq<Delivery>, after: seq<Delivery>, msgs: seq<Msg>, targets: set<Connection>, c: Connection)
    requires Extends(before, after, msgs, targets)
    ensures DeliveredTo(after, c) == DeliveredTo(before, c) + (if c in targets then msgs else [])
  {
    assert after == before + after[|before|..];
    DeliveredToAppend(before, after[|before|..], c);
    FannedAllDelivers(after[|before|..], msgs, targets, c);
  }

  /** With no open connection, broadcasting any number of frames sends nothing. */
  lemma {:induction false} FannedAllToNobody(log: seq<Delivery>, msgs: seq<Msg>)
    requires FannedAll(log, msgs, {})
    ensures log == []
    decreases |msgs|
  {
    if msgs != [] {
      FannedAllToNobody(log[0..], msgs[1..]);
    }
  }

  class Relay {
    /** The stored PTT state: None until the first decodable header. */
    var lastKeyup: Option<bool>
    /** The registered WebSocket connections. */
    var clients: set<Connection>
    /** Every frame sent so far, with its recipient, in sending order. */
    var sent: seq<Delivery>

    constructor ()
      ensures lastKeyup == None && clients == {} && sent == []
    {
      lastKeyup := None;
      clients := {};
      sent := [];
    }

    /** A connection completes its handshake and joins the set. */
    method Register(c: Connection)
      modifies this`clients
      ensures clients == old(clients) + {c}
    {
      clients := clients + {c};
    }

    /** A connection ends; removing one that is absent changes nothing. */
    method Unregister(c: Connection)
      modifies this`clients
      ensures clients == old(clients) - {c}
      ensures c !in old(clients) ==> clients == old(clients)
    {
      clients := clients - {c};
    }

    /**
      Sends m once to every registered connection that is not closed, in
      some order, and to no one else. The client set is not changed.
     */
    method Broadcast(m: Msg)
      modifies this`sent
      ensures |sent| >= |old(sent)| && sent[..|old(sent)|] == old(sent)
      ensures Fanned(sent[|old(sent)|..], m, Open(clients))
      ensures clients == {} ==> sent == old(sent)
    {
      if clients == {} {
        assert sent[|sent|..] == [];
        return;
      }
      var targets := clients;
      var pending := targets;
      ghost var batch: seq<Delivery> := [];
      while pending != {}
        invariant pending <= targets
        invariant sent == old(sent) + batch
        invariant Fanned(batch, m, Open(targets - pending))
        decreases pending
      {
        var c :| c in pending;
        ghost var done := targets - pending;
        assert targets - (pending - {c}) == done + {c};
        FanOutStep(batch, m, done, c);
        if !c.closed {
          sent := sent + [Delivery(c, m)];
          batch := batch + [Delivery(c, m)];
        }
        pending := pending - {c};
      }
      assert targets - pending == clients;
      assert sent[|old(sent)|..] == batch;
    }

    /**
      The PTT tracker: normalise the header's keyup; when it differs from
      the stored state (or none is stored yet), store it and broadcast a
      ptt event.
     */
    method ObserveKeyup(keyup: int)
      modifies this`lastKeyup, this`sent
      ensures lastKeyup == PttStep(old(lastKeyup), keyup).state
      ensures Extends(old(sent), sent, PttStep(old(lastKeyup), keyup).out, Open(clients))
    {
      var keyed := keyup != 0;
      if lastKeyup.None? || keyed != lastKeyup.value {
        lastKeyup := Some(keyed);
        Broadcast(Text(Ptt(keyed)));
        ExtendsByOne(old(sent), sent, Text(Ptt(keyed)), Open(clients));
      } else {
        ExtendsNothing(sent, Open(clients));
      }
    }

    /**
      The packet-type branch: voice payloads go out as binary frames, empty
      ones not at all; a decodable metadata TLV goes out as a meta event;
      other types send nothing.
     */
    method DispatchPacket(h: Header)
      modifies this`sent
      ensures Extends(old(sent), sent, PacketMessages(h), Open(clients))
    {
      ExtendsNothing(sent, Open(clients));
      if h.packetType == Voice {
        if h.payload != [] {
          Broadcast(Binary(h.payload));
          ExtendsByOne(old(sent), sent, Binary(h.payload), Open(clients));
        }
      } else if h.packetType == Metadata {
        var meta := ParseTlv(h.payload);
        if meta.Some? {
          var tg := EffectiveTalkgroup(meta.value.talkgroupTlv, h.talkgroup);
          Broadcast(Text(MetaEvent(tg, meta.value.slot, meta.value.callsign)));
          ExtendsByOne(old(sent), sent, Text(MetaEvent(tg, meta.value.slot, meta.value.callsign)), Open(clients));
        }
      }
    }

    /**
      One iteration of the UDP listener: decode the datagram, update the PTT
      state and broadcast the frames the dispatch rule yields, in order.
      An undecodable datagram changes nothing.
     */
    method ProcessDatagram(msg: seq<Byte>)
      modifies this`lastKeyup, this`sent
      ensures lastKeyup == Respond(old(lastKeyup), msg).state
      ensures Extends(old(sent), sent, Respond(old(lastKeyup), msg).out, Open(clients))
    {
      var hdr := ParseHeader(msg);
      if hdr.None? {
        ExtendsNothing(sent, Open(clients));
        return;
      }
      var h := hdr.value;
      ObserveKeyup(h.keyup);
      ghost var mid := sent;
      DispatchPacket(h);
      ExtendsTrans(old(sent), mid, sent, PttStep(old(lastKeyup), h.keyup).out, PacketMessages(h), Open(clients));
    }

    /**
      The relay is where processing the datagrams ds from PTT state s0 and
      log log0 leaves it: RespondAll's state, and one complete broadcast per
      frame of RespondAll's output appended to log0.
     */
    ghost predicate Processed(s0: Option<bool>, log0: seq<Delivery>, ds: seq<seq<Byte>>)
      reads this, clients
    {
      && lastKeyup == RespondAll(s0, ds).state
      && Extends(log0, sent, RespondAll(s0, ds).out, Open(clients))
    }

    /**
      One turn of the listener loop: after the first i datagrams of a stream
      have been processed, processing datagram i leaves the relay as if the
      first i + 1 had been.
     */
    method ListenStep(ghost s0: Option<bool>, ghost log0: seq<Delivery>, datagrams: seq<seq<Byte>>, i: nat)
      requires i < |datagrams|
      requires Processed(s0, log0, datagrams[..i])
      modifies this`lastKeyup, this`sent
      ensures Processed(s0, log0, datagrams[..i + 1])
    {
      ghost var before := sent;
      ProcessDatagram(datagrams[i]);
      ExtendsPrefix(log0, before, sent, s0, datagrams, i, Open(clients));
    }

    /**
      The listener loop over a finite stream of datagrams, processed in
      arrival order.
     */
    method Listen(datagrams: seq<seq<Byte>>)
      modifies this`lastKeyup, this`sent
      ensures lastKeyup == RespondAll(old(lastKeyup), datagrams).state
      ensures Extends(old(sent), sent, RespondAll(old(lastKeyup), datagrams).out, Open(clients))
    {
      ExtendsNothing(sent, Open(clients));
      assert datagrams[..0] == [];
      var i := 0;
      while i < |datagrams|
        invariant 0 <= i <= |datagrams|
        invariant Processed(old(lastKeyup), old(sent), datagrams[..i])
      {
        ListenStep(old(lastKeyup), old(sent), datagrams, i);
        i := i + 1;
      }
      assert datagrams[..i] == datagrams;
    }
  }

  /** Unregistering the same connection twice is the same as once. */
  method UnregisterTwice(relay: Relay, c: Connection)
    modifies relay`clients
    ensures relay.clients == old(relay.clients) - {c}
  {
    relay.Unregister(c);
    relay.Unregister(c);
  }
}
