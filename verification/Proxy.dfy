/**
 * The socket-mode sidecar as it runs: one object per side, whose sender and receiver work in
 * place on buffers that every iteration overwrites. Every method is one step of a goroutine
 * and has the effect of the same step of the module Datapath.
 */
module ProxyLoops {
  import opened Frame
  import opened Datapath

  function Bytes(ws: seq<Record>): (r: seq<seq<Byte>>)
    ensures |r| == |ws|
    ensures forall k :: 0 <= k < |r| ==> r[k] == ws[k].bytes
  {
    seq(|ws|, k requires 0 <= k < |ws| => ws[k].bytes)
  }

  /** Copies what the kernel hands over to the front of a buffer. */
  method Fill(buf: array<Byte>, data: seq<Byte>)
    requires |data| <= buf.Length
    modifies buf
    ensures buf[..|data|] == data
    ensures buf[|data|..] == old(buf[|data|..])
  {
    for k := 0 to |data|
      invariant buf[..k] == data[..k]
      invariant buf[|data|..] == old(buf[|data|..])
    {
      buf[k] := data[k];
      assert buf[..k + 1] == buf[..k] + [data[k]];
    }
  }

  /** `proxySender`: its two buffers, and the datagram it has captured into the first. */
  class ProxySender {
    const peerN4: Endpoint
    const buf: array<Byte>
    const frame: array<Byte>
    var pc: SenderPc
    var src: Endpoint
    var dst: Endpoint
    var n: nat
    var crashed: bool
    var nCaptured: nat
    var nSent: nat
    var nDropped: nat
    var written: seq<seq<Byte>>       // records handed to the session, oldest first
    ghost var o: Out

    /** The variables and the buffer hold what the datapath says has been captured. */
    ghost predicate Valid()
      reads this, buf
    {
      && buf.Length == READ_BUFFER && frame.Length == FRAME_CAPACITY && buf != frame
      && o.peerN4 == peerN4 && o.pc == pc && o.crashed == crashed
      && o.nCaptured == nCaptured && o.nSent == nSent && o.nDropped == nDropped
      && written == Bytes(o.writes)
      && (pc.Captured? ==> o.captures != [] && n <= buf.Length
                           && o.captures[|o.captures| - 1].d == Datagram(src, dst, buf[..n]))
    }

    constructor (peerN4: Endpoint)
      ensures Valid() && o == Start(peerN4).o && fresh(buf) && fresh(frame)
    {
      this.peerN4 := peerN4;
      src, dst := NOWHERE, NOWHERE;
      buf := new Byte[READ_BUFFER](_ => 0);
      frame := new Byte[FRAME_CAPACITY](_ => 0);
      pc, n, crashed, nCaptured, nSent, nDropped := Waiting, 0, false, 0, 0, 0;
      written := [];
      o := Start(peerN4).o;
    }

    /** `capture` of a datagram from `source`, with `lastFrom` as the receiver has left it. */
    method Capture(source: Endpoint, data: seq<Byte>, lastFrom: Endpoint, ghost i: In)
      requires Valid() && SenderEnabled(o, Take(source, data)) && i.lastFrom == lastFrom
      modifies this, buf
      ensures Valid() && o == CaptureOne(old(o), i, source, data)
    {
      Fill(buf, data);
      var dest := if !peerN4.addr.NoAddr? then peerN4 else lastFrom;
      if !dest.addr.NoAddr? {
        pc, src, dst, n := Captured, source, dest, |data|;
        nCaptured := nCaptured + 1;
      }
      o := CaptureOne(o, i, source, data);
    }

    /** The session, the encoding and the write. Encoding an address without IPv4 form panics. */
    method Write(outcome: Outcome)
      requires Valid() && SenderEnabled(o, SenderStep.Write(outcome))
      modifies this, frame
      ensures Valid() && o == WriteOne(old(o), outcome)
      ensures var d := old(o).captures[|old(o).captures| - 1].d;
              Encodable(d) && outcome.Ok? ==> written == old(written) + [Encode(d)]
    {
      ghost var before := o;
      o := WriteOne(o, outcome);
      if outcome.NoSession? {
        pc, nDropped := Waiting, nDropped + 1;
        return;
      }
      if !HasAs4(src.addr) || !HasAs4(dst.addr) {
        crashed := true;
        return;
      }
      var out, len := EncodeFrame(frame, src, dst, buf, n);
      if outcome.Failed? {
        pc, nDropped := Waiting, nDropped + 1;
        return;
      }
      written := written + [out[..len]];
      pc := Written;
      assert written == Bytes(o.writes);
    }

    /** The write succeeded and is counted. */
    method CountSent()
      requires Valid() && SenderEnabled(o, Count)
      modifies this
      ensures Valid() && o == old(o).(pc := Waiting, nSent := old(o).nSent + 1)
    {
      pc, nSent := Waiting, nSent + 1;
      o := o.(pc := Waiting, nSent := o.nSent + 1);
    }

    /** One step of the loop. */
    method Fire(x: SenderStep, lastFrom: Endpoint, ghost i: In)
      requires Valid() && SenderEnabled(o, x) && i.lastFrom == lastFrom
      modifies this, buf, frame
      ensures Valid() && o == ApplySender(old(o), i, x)
    {
      match x
      case Take(source, data) => Capture(source, data, lastFrom, i);
      case Write(outcome) => Write(outcome);
      case Count => CountSent();
    }
  }

  lemma HeardSource(i: In, bytes: seq<Byte>)
    ensures forall d :: Encodable(d) && Encode(d) == bytes ==> Heard(i, bytes).lastFrom == Unmap(d.src)
  {
    forall d | Encodable(d) && Encode(d) == bytes ensures Heard(i, bytes).lastFrom == Unmap(d.src) {
      DecodeEncode(d);
    }
  }

  /** `proxyReceiver` and `deliver`: one buffer, and the addresses decoded from it. */
  class ProxyReceiver {
    const buf: array<Byte>
    var lastFrom: Endpoint
    var decoded: bool                 // the header of the record in the buffer is decoded
    var from: Endpoint
    var to: Endpoint
    var n: nat
    var nRecv: nat
    var nInjected: nat
    var delivered: seq<Datagram>      // datagrams handed to the local function
    ghost var i: In

    /** The variables and the buffer hold the record read, or what was decoded from it. */
    ghost predicate Valid()
      reads this, buf
    {
      && buf.Length == READ_BUFFER && n <= buf.Length
      && i.lastFrom == lastFrom && i.nRecv == nRecv && i.nInjected == nInjected
      && delivered == Datagrams(i.deliveries)
      && (match i.pc
          case Reading => !decoded
          case Got(bytes) => !decoded && buf[..n] == bytes
          case Sending(d) =>
            decoded && HEADER <= n && d == Datagram(from, to, buf[HEADER..n]) && i.decodes != [])
    }

    constructor ()
      ensures Valid() && i == Start(NOWHERE).i && fresh(buf)
    {
      lastFrom, from, to := NOWHERE, NOWHERE, NOWHERE;
      buf := new Byte[READ_BUFFER](_ => 0);
      decoded, n, nRecv, nInjected := false, 0, 0, 0;
      delivered := [];
      i := Start(NOWHERE).i;
    }

    /** A record is read over whatever the buffer held. */
    method Read(bytes: seq<Byte>, ghost k: nat)
      requires Valid() && i.pc.Reading? && |bytes| <= READ_BUFFER
      modifies this, buf
      ensures Valid() && i == old(i).(pc := Got(bytes), arrived := old(i).arrived + [k])
    {
      Fill(buf, bytes);
      n := |bytes|;
      i := i.(pc := Got(bytes), arrived := i.arrived + [k]);
    }

    /** The two endpoints at the front of the record in the buffer. */
    method Header(ghost bytes: seq<Byte>) returns (a: Endpoint, b: Endpoint)
      requires HEADER <= n <= buf.Length && buf[..n] == bytes
      ensures a == EndpointAt(bytes[0..6]) && b == EndpointAt(bytes[6..12])
      ensures buf[HEADER..n] == bytes[HEADER..]
    {
      assert buf[0..6] == bytes[0..6] && buf[6..12] == bytes[6..12];
      a, b := EndpointAt(buf[0..6]), EndpointAt(buf[6..12]);
    }

    /** `decodeFrame` on the buffer, and remembering whom the frame came from. */
    method Decode()
      requires Valid() && i.pc.Got?
      modifies this
      ensures Valid() && i == Heard(old(i), old(i).pc.bytes)
      ensures forall d :: Encodable(d) && Encode(d) == old(i).pc.bytes ==> lastFrom == Unmap(d.src)
      ensures |old(i).pc.bytes| < HEADER ==> !decoded && nRecv == old(nRecv) && lastFrom == old(lastFrom)
    {
      ghost var bytes := i.pc.bytes;
      i := Heard(i, bytes);
      if n >= HEADER {
        from, to := Header(bytes);
        decoded, nRecv, lastFrom := true, nRecv + 1, from;
      }
      HeardSource(old(i), bytes);
    }

    /** The rest of `deliver`: the payload goes out of the buffer it was read into. */
    method Deliver(ok: bool)
      requires Valid() && i.pc.Sending?
      modifies this
      ensures Valid() && i == Delivered(old(i), ok)
      ensures delivered == old(delivered) + (if ok then [old(i).pc.d] else []) && lastFrom == old(lastFrom)
    {
      i := Delivered(i, ok);
      if ok {
        delivered := delivered + [Datagram(from, to, buf[HEADER..n])];
        nInjected := nInjected + 1;
        assert delivered == Datagrams(i.deliveries);
      }
      decoded := false;
    }

    /** One step of the loop; records come off the wire as the peer wrote them. */
    method Fire(x: ReceiverStep, wire: seq<seq<Byte>>, ghost peer: Out, ghost link: Link)
      requires Valid() && ReceiverEnabled(i, peer, link, x) && wire == Bytes(peer.writes)
      requires forall k :: 0 <= k < |wire| ==> |wire[k]| <= READ_BUFFER
      modifies this, buf
      ensures Valid() && i == ApplyReceiver(old(i), peer, link, x)
    {
      match x
      case Read(k) => Read(wire[k], k);
      case Decode => Decode();
      case Send(ok) => Deliver(ok);
    }
  }

  /** Every record a side has written fits the buffer it is read into. */
  ghost predicate Fits(o: Out) {
    forall k :: 0 <= k < |o.writes| ==> |o.writes[k].bytes| <= READ_BUFFER
  }

  lemma FitsAlong(run: seq<System>, ev: seq<Event>, n: nat)
    requires IsRun(run, ev) && n < |run|
    ensures Fits(run[n].cp.o) && Fits(run[n].up.o)
  {
    SoundAlong(run, ev, n);
    SoundSideFits(run[n].cp.o, run[n].cp.i);
    SoundSideFits(run[n].up.o, run[n].up.i);
  }

  lemma SoundSideFits(o: Out, i: In)
    requires OutOk(o) && AllAddressed(o, i)
    ensures Fits(o)
  {
    forall k | 0 <= k < |o.writes| ensures |o.writes[k].bytes| <= READ_BUFFER {
      var c := o.captures[o.writes[k].origin];
      assert Addressed(o.peerN4, c, i.decodes);
      FrameFits(c.d);
    }
  }

  /** One sidecar: its sender and its receiver. */
  class Sidecar {
    const snd: ProxySender
    const rcv: ProxyReceiver
    ghost const repr: set<object>

    ghost predicate Valid()
      reads this, repr
    {
      && {this, snd, rcv, snd.buf, snd.frame, rcv.buf} <= repr
      && rcv.buf != snd.buf && rcv.buf != snd.frame
      && snd.Valid() && rcv.Valid()
    }

    ghost predicate Represents(o: Out, i: In)
      reads this, repr
    {
      Valid() && snd.o == o && rcv.i == i
    }

    constructor (peerN4: Endpoint)
      ensures Represents(Start(peerN4).o, Start(peerN4).i) && fresh(repr)
    {
      var s := new ProxySender(peerN4);
      var r := new ProxyReceiver();
      snd, rcv := s, r;
      repr := {this, s, r, s.buf, s.frame, r.buf};
    }

    method FireSender(x: SenderStep, ghost o: Out, ghost i: In)
      requires Represents(o, i) && SenderEnabled(o, x)
      modifies repr
      ensures Represents(ApplySender(o, i, x), i)
    {
      snd.Fire(x, rcv.lastFrom, i);
    }

    method FireReceiver(x: ReceiverStep, wire: seq<seq<Byte>>, ghost o: Out, ghost i: In, ghost peer: Side)
      requires Represents(o, i) && ReceiverEnabled(i, peer.o, peer.link, x)
      requires wire == Bytes(peer.o.writes) && Fits(peer.o)
      modifies repr
      ensures Represents(o, ApplyReceiver(i, peer.o, peer.link, x))
    {
      rcv.Fire(x, wire, peer.o, peer.link);
    }
  }

  /** What a step leaves of the moving side and of its peer, the network aside. */
  lemma StepSides(sys: System, e: Event)
    requires Enabled(sys, e)
    ensures var s, t := Get(sys, e.who), Peer(sys, e.who);
            var s', t' := Get(Apply(sys, e), e.who), Peer(Apply(sys, e), e.who);
            && t'.o == t.o && t'.i == t.i
            && s'.o == (if e.Sender? then ApplySender(s.o, s.i, e.s) else s.o)
            && s'.i == (if e.Receiver? then ApplyReceiver(s.i, t.o, t.link, e.r) else s.i)
  {
  }

  /** One step of the system on the buffers of the side that moves. */
  method FireOne(px: Sidecar, wire: seq<seq<Byte>>, e: Event, ghost sys: System)
    requires Enabled(sys, e) && Fits(Peer(sys, e.who).o) && wire == Bytes(Peer(sys, e.who).o.writes)
    requires px.Represents(Get(sys, e.who).o, Get(sys, e.who).i)
    modifies px.repr
    ensures px.Represents(Get(Apply(sys, e), e.who).o, Get(Apply(sys, e), e.who).i)
  {
    ghost var s, t := Get(sys, e.who), Peer(sys, e.who);
    StepSides(sys, e);
    match e
    case Sender(_, x) => px.FireSender(x, s.o, s.i);
    case Receiver(_, x) => px.FireReceiver(x, wire, s.o, s.i, t);
    case Lose(_, _) =>
  }

  /** Two sidecars that share no buffer stand where the system does. */
  ghost predicate Stand(cp: Sidecar, up: Sidecar, sys: System)
    reads cp, cp.repr, up, up.repr
  {
    && cp.repr !! up.repr
    && cp.Represents(sys.cp.o, sys.cp.i) && up.Represents(sys.up.o, sys.up.i)
  }

  /** The same with both sides at hand. */
  method FireBoth(cp: Sidecar, up: Sidecar, e: Event, ghost sys: System, ghost sys': System)
    requires Datapath.Step(sys, e, sys') && Fits(sys.cp.o) && Fits(sys.up.o) && Stand(cp, up, sys)
    modifies cp.repr, up.repr
    ensures Stand(cp, up, sys')
  {
    StepSides(sys, e);
    if e.who.Cp? {
      FireOne(cp, up.snd.written, e, sys);
    } else {
      FireOne(up, cp.snd.written, e, sys);
    }
  }

  /** One step of a run. */
  method Advance(cp: Sidecar, up: Sidecar, e: Event, ghost ev: seq<Event>, ghost n: nat, ghost run: seq<System>)
    requires IsRun(run, ev) && n < |ev| && e == ev[n] && Stand(cp, up, run[n])
    modifies cp.repr, up.repr
    ensures Stand(cp, up, run[n + 1])
  {
    ghost var sys, sys' := run[n], run[n + 1];
    assert Datapath.Step(sys, ev[n], sys');
    FitsAlong(run, ev, n);
    FireBoth(cp, up, e, sys, sys');
  }

  /**
   * Both sidecars over a whole run, whatever its schedule and whatever the network does: on
   * their reused buffers they write, byte for byte, the records of the run and deliver its
   * datagrams.
   */
  method Drive(ev: seq<Event>, cpPeer: Endpoint, upPeer: Endpoint, ghost run: seq<System>)
    returns (cpWritten: seq<seq<Byte>>, upWritten: seq<seq<Byte>>,
             cpDelivered: seq<Datagram>, upDelivered: seq<Datagram>)
    requires IsRun(run, ev) && run[0] == System(Start(cpPeer), Start(upPeer))
    ensures cpWritten == Bytes(run[|ev|].cp.o.writes) && upWritten == Bytes(run[|ev|].up.o.writes)
    ensures cpDelivered == Datagrams(run[|ev|].cp.i.deliveries)
    ensures upDelivered == Datagrams(run[|ev|].up.i.deliveries)
  {
    var cp := new Sidecar(cpPeer);
    var up := new Sidecar(upPeer);
    for n := 0 to |ev|
      invariant fresh(cp.repr) && fresh(up.repr) && Stand(cp, up, run[n])
    {
      Advance(cp, up, ev[n], ev, n, run);
    }
    cpWritten, upWritten := cp.snd.written, up.snd.written;
    cpDelivered, upDelivered := cp.rcv.delivered, up.rcv.delivered;
  }

  /**
   * End to end on the buffers: each datagram that the driven sidecars deliver is one that the
   * socket of the other side handed over, from the same endpoint and with the same bytes, and
   * addressed as it was captured there; and none comes out twice.
   */
  method DriveEndToEnd(ev: seq<Event>, cpPeer: Endpoint, upPeer: Endpoint, ghost run: seq<System>)
    returns (cpDelivered: seq<Datagram>, upDelivered: seq<Datagram>,
             ghost toCp: seq<nat>, ghost toUp: seq<nat>, ghost atUp: seq<nat>, ghost atCp: seq<nat>)
    requires IsRun(run, ev) && run[0] == System(Start(cpPeer), Start(upPeer))
    ensures Traced(upDelivered, toUp, run[|ev|].cp.o.captures)
    ensures Traced(cpDelivered, toCp, run[|ev|].up.o.captures)
    ensures Handed(upDelivered, ev, |ev|, Cp, atCp) && Handed(cpDelivered, ev, |ev|, Up, atUp)
  {
    var cpWritten, upWritten;
    cpWritten, upWritten, cpDelivered, upDelivered := Drive(ev, cpPeer, upPeer, run);
    toCp := DeliveredWasCaptured(run, ev, |ev|, Cp);
    toUp := DeliveredWasCaptured(run, ev, |ev|, Up);
    atUp := DeliveredWasTaken(run, ev, |ev|, Cp);
    atCp := DeliveredWasTaken(run, ev, |ev|, Up);
  }
}
