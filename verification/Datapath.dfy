/**
 * Two socket-mode sidecars and the network between them.
 *
 * Each side runs a sender (capture, then write) and a receiver (read, decode, deliver); the
 * network keeps record boundaries, loses and reorders records, and never repeats one, as a
 * DTLS session does. Records of one side are numbered by the order in which they were
 * written, so that a run shows where every delivery came from.
 */
module Datapath {
  import opened Common
  import opened Frame
  import Runs

  /** A datagram taken from the local function, and how many frames had been decoded then. */
  datatype Capture = Capture(d: Datagram, heard: nat)

  /** A record written to the session, and the capture it carries. */
  datatype Record = Record(origin: nat, bytes: seq<Byte>)

  /** A datagram handed to the local function, and the decoded frame it came from. */
  datatype Delivery = Delivery(at: nat, d: Datagram)

  datatype SenderPc = Waiting | Captured | Written

  datatype ReceiverPc = Reading | Got(bytes: seq<Byte>) | Sending(d: Datagram)

  /** What the sender owns. The sequences are histories. */
  datatype Out = Out(
    peerN4: Endpoint,            // NOWHERE on the side that replies
    pc: SenderPc,
    crashed: bool,               // encodeFrame panicked
    captures: seq<Capture>,
    writes: seq<Record>,
    nCaptured: nat, nSent: nat, nDropped: nat
  )

  /** One side's records in the network, and how many of them were lost there. */
  datatype Link = Link(flight: set<nat>, lost: nat)

  /** What the receiver owns. The sequences are histories. */
  datatype In = In(
    lastFrom: Endpoint,
    pc: ReceiverPc,
    arrived: seq<nat>,           // numbers of the peer's records read, in order
    decodes: seq<Datagram>,
    deliveries: seq<Delivery>,
    nRecv: nat, nInjected: nat
  )

  datatype Side = Side(o: Out, link: Link, i: In)

  datatype Outcome = NoSession | Failed | Ok

  datatype SenderStep =
    | Take(src: Endpoint, payload: seq<Byte>)   // capture
    | Write(outcome: Outcome)
    | Count

  datatype ReceiverStep =
    | Read(k: nat)        // the peer's k-th record arrives
    | Decode              // decodeFrame, and deliver's update of lastFrom
    | Send(ok: bool)      // the rest of deliver

  datatype Who = Cp | Up

  datatype Event = Sender(who: Who, s: SenderStep) | Receiver(who: Who, r: ReceiverStep) | Lose(who: Who, k: nat)

  datatype System = System(cp: Side, up: Side)

  function Start(peerN4: Endpoint): Side {
    Side(Out(peerN4, Waiting, false, [], [], 0, 0, 0), Link({}, 0), In(NOWHERE, Reading, [], [], [], 0, 0))
  }

  /** Where a captured datagram was going: the configured peer, or whoever was heard last. */
  function Destination(o: Out, i: In): Endpoint {
    if o.peerN4.addr.NoAddr? then i.lastFrom else o.peerN4
  }

  /** A UDP socket hands over IPv4 sources and bounded payloads. */
  predicate SenderEnabled(o: Out, x: SenderStep) {
    && !o.crashed
    && match x
       case Take(src, payload) => o.pc.Waiting? && HasAs4(src.addr) && |payload| <= MAX_UDP_PAYLOAD
       case Write(_) => o.pc.Captured? && o.captures != []
       case Count => o.pc.Written?
  }

  /** `capture`; a reply with nowhere to go is dropped. */
  function CaptureOne(o: Out, i: In, src: Endpoint, payload: seq<Byte>): Out {
    if Destination(o, i).addr.NoAddr? then o
    else o.(pc := Captured, nCaptured := o.nCaptured + 1,
            captures := o.captures + [Capture(Datagram(src, Destination(o, i), payload), |i.decodes|)])
  }

  /** The session, the encoding and the write. */
  function WriteOne(o: Out, outcome: Outcome): Out
    requires o.captures != []
  {
    var d := o.captures[|o.captures| - 1].d;
    if outcome.NoSession? then o.(pc := Waiting, nDropped := o.nDropped + 1)
    else if !Encodable(d) then o.(crashed := true)
    else if outcome.Failed? then o.(pc := Waiting, nDropped := o.nDropped + 1)
    else o.(pc := Written, writes := o.writes + [Record(|o.captures| - 1, Encode(d))])
  }

  function ApplySender(o: Out, i: In, x: SenderStep): Out
    requires SenderEnabled(o, x)
  {
    match x
    case Take(src, payload) => CaptureOne(o, i, src, payload)
    case Write(outcome) => WriteOne(o, outcome)
    case Count => o.(pc := Waiting, nSent := o.nSent + 1)
  }

  /** A record just written enters the network. */
  function Carry(link: Link, o: Out, o': Out): Link {
    if |o'.writes| > |o.writes| then link.(flight := link.flight + {|o.writes|}) else link
  }

  predicate ReceiverEnabled(i: In, peer: Out, link: Link, x: ReceiverStep) {
    match x
    case Read(k) => i.pc.Reading? && k in link.flight && k < |peer.writes|
    case Decode => i.pc.Got?
    case Send(_) => i.pc.Sending? && i.decodes != []
  }

  /** Decoding a record and remembering whom it came from. */
  function Heard(i: In, bytes: seq<Byte>): In {
    match Frame.Decode(bytes)
    case Short => i.(pc := Reading)
    case Frame(d) =>
      i.(pc := Sending(d), nRecv := i.nRecv + 1, lastFrom := d.src, decodes := i.decodes + [d])
  }

  /** Handing the decoded datagram to the local function. */
  function Delivered(i: In, ok: bool): In
    requires i.pc.Sending? && i.decodes != []
  {
    if !ok then i.(pc := Reading)
    else i.(pc := Reading, nInjected := i.nInjected + 1,
            deliveries := i.deliveries + [Delivery(|i.decodes| - 1, i.pc.d)])
  }

  function ApplyReceiver(i: In, peer: Out, link: Link, x: ReceiverStep): In
    requires ReceiverEnabled(i, peer, link, x)
  {
    match x
    case Read(k) => i.(pc := Got(peer.writes[k].bytes), arrived := i.arrived + [k])
    case Decode => Heard(i, i.pc.bytes)
    case Send(ok) => Delivered(i, ok)
  }

  /** Reading takes the record off the network. */
  function Arrive(link: Link, x: ReceiverStep): Link {
    if x.Read? then link.(flight := link.flight - {x.k}) else link
  }

  function Drop(link: Link, k: nat): Link {
    Link(link.flight - {k}, link.lost + 1)
  }

  function Get(sys: System, w: Who): Side {
    if w.Cp? then sys.cp else sys.up
  }

  function Peer(sys: System, w: Who): Side {
    if w.Cp? then sys.up else sys.cp
  }

  /** The system with side `w` and its peer put back. */
  function Both(w: Who, s: Side, peer: Side): System {
    if w.Cp? then System(s, peer) else System(peer, s)
  }

  predicate Enabled(sys: System, e: Event) {
    var s, peer := Get(sys, e.who), Peer(sys, e.who);
    match e
    case Sender(_, x) => SenderEnabled(s.o, x)
    case Receiver(_, x) => !s.o.crashed && ReceiverEnabled(s.i, peer.o, peer.link, x)
    case Lose(_, k) => k in s.link.flight
  }

  function Apply(sys: System, e: Event): System
    requires Enabled(sys, e)
  {
    var s, peer := Get(sys, e.who), Peer(sys, e.who);
    match e
    case Sender(w, x) =>
      var o := ApplySender(s.o, s.i, x);
      Both(w, s.(o := o, link := Carry(s.link, s.o, o)), peer)
    case Receiver(w, x) =>
      Both(w, s.(i := ApplyReceiver(s.i, peer.o, peer.link, x)), peer.(link := Arrive(peer.link, x)))
    case Lose(w, k) => Both(w, s.(link := Drop(s.link, k)), peer)
  }

  ghost predicate Step(sys: System, e: Event, sys': System) {
    Enabled(sys, e) && sys' == Apply(sys, e)
  }

  ghost predicate Initial(sys: System) {
    sys == System(Start(sys.cp.o.peerN4), Start(sys.up.o.peerN4))
  }

  ghost predicate IsRun(run: seq<System>, ev: seq<Event>) {
    Runs.IsRun(Initial, Step, run, ev)
  }

  // ---------------------------------------------------------------- the sender's own facts

  function Pending(pc: SenderPc): nat {
    if pc.Waiting? then 0 else 1
  }

  /** Every record written is the frame of a capture, later records of later captures. */
  predicate WritesOf(o: Out) {
    && (forall k {:trigger o.writes[k]} :: 0 <= k < |o.writes| ==>
          && o.writes[k].origin < |o.captures| - (if o.pc.Captured? then 1 else 0)
          && Encodable(o.captures[o.writes[k].origin].d)
          && o.writes[k].bytes == Encode(o.captures[o.writes[k].origin].d))
    && (forall k, l {:trigger o.writes[k], o.writes[l]} :: 0 <= k < l < |o.writes| ==>
          o.writes[k].origin < o.writes[l].origin)
  }

  predicate OutOk(o: Out) {
    && WritesOf(o)
    && (!o.pc.Waiting? ==> o.captures != [])
    && o.nCaptured == |o.captures|
    && o.nCaptured == o.nSent + o.nDropped + Pending(o.pc)
    && |o.writes| == o.nSent + (if o.pc.Written? then 1 else 0)
  }

  lemma OutOkWrite(o: Out, outcome: Outcome)
    requires OutOk(o) && o.pc.Captured?
    ensures OutOk(WriteOne(o, outcome))
  {
  }

  lemma OutOkStep(o: Out, i: In, x: SenderStep)
    requires OutOk(o) && SenderEnabled(o, x)
    ensures OutOk(ApplySender(o, i, x))
  {
    if x.Write? {
      OutOkWrite(o, x.outcome);
    }
  }

  predicate InOk(i: In) {
    && i.lastFrom == (if i.decodes == [] then NOWHERE else i.decodes[|i.decodes| - 1].src)
    && (forall j {:trigger i.decodes[j]} :: 0 <= j < |i.decodes| ==> i.decodes[j].src.addr.V4?)
    && i.nRecv == |i.decodes| && i.nInjected == |i.deliveries|
  }

  /** A capture goes to the configured peer, or to the source of the frame decoded last. */
  predicate Addressed(peerN4: Endpoint, c: Capture, decodes: seq<Datagram>) {
    && HasAs4(c.d.src.addr) && |c.d.payload| <= MAX_UDP_PAYLOAD
    && (if peerN4.addr.NoAddr? then 0 < c.heard <= |decodes| && c.d.dst == decodes[c.heard - 1].src
        else c.d.dst == peerN4)
  }

  predicate AllAddressed(o: Out, i: In) {
    && (forall c {:trigger o.captures[c]} :: 0 <= c < |o.captures| ==>
          Addressed(o.peerN4, o.captures[c], i.decodes))
    && (o.crashed ==> o.peerN4.addr.V6?)
  }

  lemma AllAddressedSender(o: Out, i: In, x: SenderStep)
    requires AllAddressed(o, i) && InOk(i) && SenderEnabled(o, x)
    ensures AllAddressed(ApplySender(o, i, x), i)
  {
    if x.Write? {
      assert Addressed(o.peerN4, o.captures[|o.captures| - 1], i.decodes);
    }
  }

  lemma AllAddressedReceiver(o: Out, i: In, peer: Out, link: Link, x: ReceiverStep)
    requires AllAddressed(o, i) && ReceiverEnabled(i, peer, link, x)
    ensures AllAddressed(o, ApplyReceiver(i, peer, link, x))
  {
    var i' := ApplyReceiver(i, peer, link, x);
    forall c | 0 <= c < |o.captures| ensures Addressed(o.peerN4, o.captures[c], i'.decodes) {
      assert Addressed(o.peerN4, o.captures[c], i.decodes);
    }
  }

  // ---------------------------------------------------------------- one direction

  /** What the receiving side must make of record `k`. */
  function Carried(o: Out, k: nat): Datagram
    requires k < |o.writes| && o.writes[k].origin < |o.captures|
  {
    Unmapped(o.captures[o.writes[k].origin].d)
  }

  /** Records read are distinct, were written, and are off the network. */
  predicate ReadsOf(o: Out, link: Link, i: In) {
    && (forall k :: k in link.flight ==> k < |o.writes|)
    && (forall j {:trigger i.arrived[j]} :: 0 <= j < |i.arrived| ==>
          i.arrived[j] < |o.writes| && i.arrived[j] !in link.flight)
    && (forall j, l {:trigger i.arrived[j], i.arrived[l]} :: 0 <= j < l < |i.arrived| ==>
          i.arrived[j] != i.arrived[l])
    && |link.flight| + |i.arrived| + link.lost == |o.writes|
  }

  /** Every record read is decoded to what its sender captured, in the order of reading. */
  predicate DecodesOf(o: Out, i: In) {
    && |i.decodes| + (if i.pc.Got? then 1 else 0) == |i.arrived|
    && (forall j {:trigger i.arrived[j]} :: 0 <= j < |i.arrived| ==>
          i.arrived[j] < |o.writes| && o.writes[i.arrived[j]].origin < |o.captures|)
    && (i.pc.Got? ==> i.pc.bytes == o.writes[i.arrived[|i.arrived| - 1]].bytes)
    && (forall j {:trigger i.decodes[j]} :: 0 <= j < |i.decodes| ==> i.decodes[j] == Carried(o, i.arrived[j]))
  }

  /** Deliveries repeat decoded frames, later ones for later frames. */
  predicate DeliveriesOf(i: In) {
    && (i.pc.Sending? ==> i.decodes != [] && i.pc.d == i.decodes[|i.decodes| - 1])
    && (forall j {:trigger i.deliveries[j]} :: 0 <= j < |i.deliveries| ==>
          && i.deliveries[j].at < |i.decodes| - (if i.pc.Sending? then 1 else 0)
          && i.deliveries[j].d == i.decodes[i.deliveries[j].at])
    && (forall j, l {:trigger i.deliveries[j], i.deliveries[l]} :: 0 <= j < l < |i.deliveries| ==>
          i.deliveries[j].at < i.deliveries[l].at)
  }

  predicate Direction(o: Out, link: Link, i: In) {
    ReadsOf(o, link, i) && DecodesOf(o, i) && DeliveriesOf(i)
  }

  lemma ReadsOfOneMore(o: Out, link: Link, i: In, r: Record)
    requires ReadsOf(o, link, i)
    ensures ReadsOf(o.(writes := o.writes + [r]), link.(flight := link.flight + {|o.writes|}), i)
  {
    assert |o.writes| !in link.flight;
  }

  lemma DecodesOfOneMore(o: Out, i: In, r: Record)
    requires DecodesOf(o, i)
    ensures DecodesOf(o.(writes := o.writes + [r]), i)
  {
    var o' := o.(writes := o.writes + [r]);
    forall j | 0 <= j < |i.decodes| ensures i.decodes[j] == Carried(o', i.arrived[j]) {
      assert o'.writes[i.arrived[j]] == o.writes[i.arrived[j]];
    }
  }

  lemma DirectionWrite(o: Out, link: Link, i: In, outcome: Outcome)
    requires Direction(o, link, i) && o.captures != []
    ensures var o' := WriteOne(o, outcome);
            Direction(o', Carry(link, o, o'), i)
  {
    var d := o.captures[|o.captures| - 1].d;
    if outcome.Ok? && Encodable(d) {
      ReadsOfOneMore(o, link, i, Record(|o.captures| - 1, Encode(d)));
      DecodesOfOneMore(o, i, Record(|o.captures| - 1, Encode(d)));
    }
  }

  lemma DirectionSender(o: Out, own: In, link: Link, i: In, x: SenderStep)
    requires OutOk(o) && Direction(o, link, i) && SenderEnabled(o, x)
    ensures var o' := ApplySender(o, own, x);
            Direction(o', Carry(link, o, o'), i)
  {
    match x
    case Take(src, payload) => assert o.captures <= CaptureOne(o, own, src, payload).captures;
    case Write(outcome) => DirectionWrite(o, link, i, outcome);
    case Count =>
  }

  lemma DirectionRead(o: Out, link: Link, i: In, k: nat)
    requires OutOk(o) && Direction(o, link, i) && ReceiverEnabled(i, o, link, Read(k))
    ensures Direction(o, Arrive(link, Read(k)), ApplyReceiver(i, o, link, Read(k)))
  {
    assert link.flight - {k} + {k} == link.flight;
  }

  lemma DirectionDecode(o: Out, link: Link, i: In)
    requires OutOk(o) && Direction(o, link, i) && i.pc.Got?
    ensures Direction(o, link, ApplyReceiver(i, o, link, ReceiverStep.Decode))
    ensures ApplyReceiver(i, o, link, ReceiverStep.Decode).pc.Sending?
    ensures InOk(i) ==> InOk(ApplyReceiver(i, o, link, ReceiverStep.Decode))
  {
    DecodeEncode(o.captures[o.writes[i.arrived[|i.arrived| - 1]].origin].d);
  }

  lemma DirectionSend(o: Out, link: Link, i: In, ok: bool)
    requires Direction(o, link, i) && ReceiverEnabled(i, o, link, Send(ok))
    ensures Direction(o, link, ApplyReceiver(i, o, link, Send(ok)))
  {
  }

  lemma DirectionReceiver(o: Out, link: Link, i: In, x: ReceiverStep)
    requires OutOk(o) && Direction(o, link, i) && ReceiverEnabled(i, o, link, x) && InOk(i)
    ensures Direction(o, Arrive(link, x), ApplyReceiver(i, o, link, x))
    ensures InOk(ApplyReceiver(i, o, link, x))
  {
    match x
    case Read(k) => DirectionRead(o, link, i, k);
    case Decode => DirectionDecode(o, link, i);
    case Send(ok) => DirectionSend(o, link, i, ok);
  }

  // ---------------------------------------------------------------- the whole system

  /** What holds of a side and its peer. */
  predicate SoundPair(s: Side, t: Side) {
    && OutOk(s.o) && OutOk(t.o) && InOk(s.i) && InOk(t.i)
    && AllAddressed(s.o, s.i) && AllAddressed(t.o, t.i)
    && Direction(s.o, s.link, t.i) && Direction(t.o, t.link, s.i)
  }

  predicate Sound(sys: System) {
    SoundPair(sys.cp, sys.up)
  }

  lemma SoundSender(s: Side, t: Side, x: SenderStep)
    requires SoundPair(s, t) && SenderEnabled(s.o, x)
    ensures var o := ApplySender(s.o, s.i, x);
            SoundPair(s.(o := o, link := Carry(s.link, s.o, o)), t)
  {
    OutOkStep(s.o, s.i, x);
    AllAddressedSender(s.o, s.i, x);
    DirectionSender(s.o, s.i, s.link, t.i, x);
  }

  lemma SoundReceiver(s: Side, t: Side, x: ReceiverStep)
    requires SoundPair(s, t) && ReceiverEnabled(t.i, s.o, s.link, x)
    ensures SoundPair(s.(link := Arrive(s.link, x)), t.(i := ApplyReceiver(t.i, s.o, s.link, x)))
  {
    AllAddressedReceiver(t.o, t.i, s.o, s.link, x);
    DirectionReceiver(s.o, s.link, t.i, x);
  }

  lemma SoundLose(s: Side, t: Side, k: nat)
    requires SoundPair(s, t) && k in s.link.flight
    ensures SoundPair(s.(link := Drop(s.link, k)), t)
  {
    assert s.link.flight - {k} + {k} == s.link.flight;
  }

  lemma SoundStep(sys: System, e: Event, sys': System)
    requires Sound(sys) && Step(sys, e, sys')
    ensures Sound(sys')
  {
    var s, t := Get(sys, e.who), Peer(sys, e.who);
    match e
    case Sender(_, x) => SoundSender(s, t, x);
    case Receiver(_, x) => SoundReceiver(t, s, x);
    case Lose(_, k) => SoundLose(s, t, k);
  }

  lemma SoundStart(p: Endpoint, q: Endpoint)
    ensures OutOk(Start(p).o) && InOk(Start(p).i) && AllAddressed(Start(p).o, Start(p).i)
    ensures Direction(Start(p).o, Start(p).link, Start(q).i)
  {
  }

  lemma SoundInit(sys: System)
    requires Initial(sys)
    ensures Sound(sys)
  {
    var p, q := sys.cp.o.peerN4, sys.up.o.peerN4;
    SoundStart(p, q);
    SoundStart(q, p);
  }

  lemma SoundAlong(run: seq<System>, ev: seq<Event>, n: nat)
    requires IsRun(run, ev) && n < |run|
    ensures Sound(run[n])
  {
    SoundInit(run[0]);
    forall sys: System, e: Event, sys': System | Sound(sys) && Step(sys, e, sys') ensures Sound(sys') {
      SoundStep(sys, e, sys');
    }
    Runs.Along(Initial, Step, Sound, run, ev, 0, n);
  }

  function Datagrams(ds: seq<Delivery>): (r: seq<Datagram>)
    ensures |r| == |ds|
    ensures forall k :: 0 <= k < |r| ==> r[k] == ds[k].d
  {
    seq(|ds|, k requires 0 <= k < |ds| => ds[k].d)
  }

  /** Delivery `j` is capture `trace[j]`, and no two deliveries are the same capture. */
  ghost predicate Traced(delivered: seq<Datagram>, trace: seq<nat>, captures: seq<Capture>) {
    && |trace| == |delivered|
    && (forall j :: 0 <= j < |trace| ==> trace[j] < |captures| && delivered[j] == Unmapped(captures[trace[j]].d))
    && (forall j, l :: 0 <= j < l < |trace| ==> trace[j] != trace[l])
  }

  /** The capture that delivery `j` came from. */
  function Origin(o: Out, link: Link, i: In, j: nat): (r: nat)
    requires WritesOf(o) && Direction(o, link, i) && j < |i.deliveries|
    ensures r < |o.captures|
    ensures i.deliveries[j].d == Unmapped(o.captures[r].d)
  {
    assert i.decodes[i.deliveries[j].at] == Carried(o, i.arrived[i.deliveries[j].at]);
    o.writes[i.arrived[i.deliveries[j].at]].origin
  }

  lemma OriginInjective(o: Out, link: Link, i: In, j: nat, l: nat)
    requires WritesOf(o) && Direction(o, link, i) && j < l < |i.deliveries|
    ensures Origin(o, link, i, j) != Origin(o, link, i, l)
  {
    var a, b := i.arrived[i.deliveries[j].at], i.arrived[i.deliveries[l].at];
    assert i.deliveries[j].at < i.deliveries[l].at;
    assert a != b;
    if a < b {
      assert o.writes[a].origin < o.writes[b].origin;
    } else {
      assert o.writes[b].origin < o.writes[a].origin;
    }
  }

  lemma TraceBack(o: Out, link: Link, i: In) returns (trace: seq<nat>)
    requires WritesOf(o) && Direction(o, link, i)
    ensures Traced(Datagrams(i.deliveries), trace, o.captures)
  {
    trace := seq(|i.deliveries|, j requires 0 <= j < |i.deliveries| => Origin(o, link, i, j));
    forall j, l | 0 <= j < l < |trace| ensures trace[j] != trace[l] {
      OriginInjective(o, link, i, j, l);
    }
  }

  /**
   * End-to-end integrity, for every run over a lossy and reordering network: what a side
   * delivers was captured on the other side before, with the same bytes and endpoints, and
   * no capture is delivered twice.
   */
  lemma DeliveredWasCaptured(run: seq<System>, ev: seq<Event>, n: nat, w: Who) returns (trace: seq<nat>)
    requires IsRun(run, ev) && n < |run|
    ensures Traced(Datagrams(Get(run[n], w).i.deliveries), trace, Peer(run[n], w).o.captures)
  {
    SoundAlong(run, ev, n);
    trace := TraceBack(Peer(run[n], w).o, Peer(run[n], w).link, Get(run[n], w).i);
  }

  // ---------------------------------------------------------------- what the sockets see

  /** A destination is known: the peer is configured, or something was heard. */
  predicate Known(s: Side) {
    !s.o.peerN4.addr.NoAddr? || s.i.decodes != []
  }

  /**
   * What `capture` does with a datagram from the socket: with a destination known it is
   * captured, its source and bytes as the socket gave them, and otherwise it is dropped.
   */
  lemma CapturedExactly(run: seq<System>, ev: seq<Event>, n: nat, w: Who, src: Endpoint, payload: seq<Byte>)
    requires IsRun(run, ev) && n < |ev| && ev[n] == Sender(w, Take(src, payload))
    ensures var s, s' := Get(run[n], w), Get(run[n + 1], w);
            if Known(s) then
              var to := if s.o.peerN4.addr.NoAddr? then s.i.decodes[|s.i.decodes| - 1].src else s.o.peerN4;
              && |s'.o.captures| == |s.o.captures| + 1 && s.o.captures <= s'.o.captures
              && s'.o.captures[|s.o.captures|].d == Datagram(src, to, payload)
            else s'.o.captures == s.o.captures
  {
    SoundAlong(run, ev, n);
    assert Step(run[n], ev[n], run[n + 1]);
  }

  /** Capture `c` of side `w` was taken from its socket at step `at[c]`. */
  ghost predicate TakenAt(ev: seq<Event>, n: nat, w: Who, captures: seq<Capture>, at: seq<nat>)
    requires n <= |ev|
  {
    && |at| == |captures|
    && (forall c {:trigger at[c]} :: 0 <= c < |at| ==>
          at[c] < n && ev[at[c]] == Sender(w, Take(captures[c].d.src, captures[c].d.payload)))
    && (forall c, d {:trigger at[c], at[d]} :: 0 <= c < d < |at| ==> at[c] < at[d])
  }

  lemma CapturesStep(sys: System, e: Event, sys': System, w: Who)
    requires Step(sys, e, sys')
    ensures var o, o' := Get(sys, w).o, Get(sys', w).o;
            || o'.captures == o.captures
            || (e.Sender? && e.who == w && e.s.Take? && |o'.captures| == |o.captures| + 1
                && o.captures <= o'.captures && o'.captures[|o.captures|].d.src == e.s.src
                && o'.captures[|o.captures|].d.payload == e.s.payload)
  {
  }

  lemma {:induction false} CaptureSteps(run: seq<System>, ev: seq<Event>, n: nat, w: Who) returns (at: seq<nat>)
    requires IsRun(run, ev) && n < |run|
    ensures TakenAt(ev, n, w, Get(run[n], w).o.captures, at)
    decreases n
  {
    at := [];
    if n > 0 {
      at := CaptureSteps(run, ev, n - 1, w);
      var sys, e, sys' := run[n - 1], ev[n - 1], run[n];
      assert Step(sys, e, sys');
      CapturesStep(sys, e, sys', w);
      if Get(sys', w).o.captures != Get(sys, w).o.captures {
        at := at + [n - 1];
      }
    }
  }

  function Other(w: Who): Who {
    if w.Cp? then Up else Cp
  }

  /** Delivery `j` was taken from the socket of side `w` at step `at[j]`, and none twice. */
  ghost predicate Handed(delivered: seq<Datagram>, ev: seq<Event>, n: nat, w: Who, at: seq<nat>)
    requires n <= |ev|
  {
    && |at| == |delivered|
    && (forall j {:trigger at[j]} :: 0 <= j < |at| ==>
          && at[j] < n && ev[at[j]].Sender? && ev[at[j]].who == w && ev[at[j]].s.Take?
          && delivered[j].src == Unmap(ev[at[j]].s.src) && delivered[j].payload == ev[at[j]].s.payload)
    && (forall j, l {:trigger at[j], at[l]} :: 0 <= j < l < |at| ==> at[j] != at[l])
  }

  lemma HandedOver(delivered: seq<Datagram>, trace: seq<nat>, captures: seq<Capture>,
                   ev: seq<Event>, n: nat, w: Who, at: seq<nat>) returns (from: seq<nat>)
    requires n <= |ev| && Traced(delivered, trace, captures) && TakenAt(ev, n, w, captures, at)
    ensures Handed(delivered, ev, n, w, from)
  {
    from := seq(|trace|, j requires 0 <= j < |trace| => at[trace[j]]);
    forall j, l | 0 <= j < l < |from| ensures from[j] != from[l] {
      assert trace[j] != trace[l];
      if trace[j] < trace[l] {
        assert at[trace[j]] < at[trace[l]];
      } else {
        assert at[trace[l]] < at[trace[j]];
      }
    }
  }

  /**
   * From socket to socket: each datagram a side delivers was handed to the other side by its
   * socket, from the same endpoint and with the same bytes, and no datagram comes out twice.
   */
  lemma DeliveredWasTaken(run: seq<System>, ev: seq<Event>, n: nat, w: Who) returns (at: seq<nat>)
    requires IsRun(run, ev) && n < |run|
    ensures Handed(Datagrams(Get(run[n], w).i.deliveries), ev, n, Other(w), at)
  {
    var trace := DeliveredWasCaptured(run, ev, n, w);
    var taken := CaptureSteps(run, ev, n, Other(w));
    at := HandedOver(Datagrams(Get(run[n], w).i.deliveries), trace, Peer(run[n], w).o.captures, ev, n, Other(w), taken);
  }

  /** How many of the events so far are this one. */
  function Times(ev: seq<Event>, e: Event): nat {
    Runs.Steps((x: Event) => x == e, ev)
  }

  /** The counters and histories of a side say what has happened to it. */
  ghost predicate Tallied(s: Side, ev: seq<Event>, w: Who) {
    && (!s.o.crashed ==> |s.o.writes| == Times(ev, Sender(w, Write(Ok))))
    && (!s.o.crashed ==> s.o.nDropped == Times(ev, Sender(w, Write(NoSession))) + Times(ev, Sender(w, Write(Failed))))
    && s.o.nSent == Times(ev, Sender(w, Count))
    && s.i.nInjected == |s.i.deliveries| == Times(ev, Receiver(w, Send(true)))
    && s.i.nRecv == |s.i.decodes| == Times(ev, Receiver(w, ReceiverStep.Decode))
  }

  /** What one step adds. */
  predicate Adds(s: Side, e: Event, s': Side, w: Who) {
    && (!s'.o.crashed ==> !s.o.crashed)
    && (!s'.o.crashed ==> |s'.o.writes| == |s.o.writes| + Bit(e == Sender(w, Write(Ok))))
    && (!s'.o.crashed ==> s'.o.nDropped == s.o.nDropped + Bit(e == Sender(w, Write(NoSession)))
                                           + Bit(e == Sender(w, Write(Failed))))
    && s'.o.nSent == s.o.nSent + Bit(e == Sender(w, Count))
    && |s'.i.deliveries| == |s.i.deliveries| + Bit(e == Receiver(w, Send(true)))
    && s'.i.nInjected == s.i.nInjected + Bit(e == Receiver(w, Send(true)))
    && |s'.i.decodes| == |s.i.decodes| + Bit(e == Receiver(w, ReceiverStep.Decode))
    && s'.i.nRecv == s.i.nRecv + Bit(e == Receiver(w, ReceiverStep.Decode))
  }

  lemma AddsOut(s: Side, s': Side, e: Event, w: Who)
    requires e.Sender? && e.who == w && SenderEnabled(s.o, e.s) && s'.o == ApplySender(s.o, s.i, e.s) && s'.i == s.i
    ensures Adds(s, e, s', w)
  {
  }

  lemma AddsIn(s: Side, s': Side, t: Side, e: Event, w: Who)
    requires e.Receiver? && e.who == w && ReceiverEnabled(s.i, t.o, t.link, e.r)
    requires s'.o == s.o && s'.i == ApplyReceiver(s.i, t.o, t.link, e.r)
    requires e.r.Decode? ==> s'.i.pc.Sending?
    ensures Adds(s, e, s', w)
  {
  }

  lemma TimesOneMore(ev: seq<Event>, n: nat, e: Event)
    requires n < |ev|
    ensures Times(ev[..n + 1], e) == Times(ev[..n], e) + Bit(ev[n] == e)
  {
    Runs.StepsTake((x: Event) => x == e, ev, n);
  }

  lemma AddsStep(sys: System, e: Event, sys': System, w: Who)
    requires Sound(sys) && Step(sys, e, sys')
    ensures Adds(Get(sys, w), e, Get(sys', w), w)
  {
    var s, t, s' := Get(sys, w), Peer(sys, w), Get(sys', w);
    if e.who == w {
      match e
      case Sender(_, _) => AddsOut(s, s', e, w);
      case Receiver(_, x) =>
        if x.Decode? {
          DirectionDecode(t.o, t.link, s.i);
        }
        AddsIn(s, s', t, e, w);
      case Lose(_, _) =>
    }
  }

  lemma AddsAt(run: seq<System>, ev: seq<Event>, n: nat, w: Who)
    requires IsRun(run, ev) && n < |ev|
    ensures Adds(Get(run[n], w), ev[n], Get(run[n + 1], w), w)
  {
    SoundAlong(run, ev, n);
    var sys, e, sys' := run[n], ev[n], run[n + 1];
    assert Step(sys, e, sys');
    AddsStep(sys, e, sys', w);
  }

  lemma TalliedNext(s: Side, s': Side, ev: seq<Event>, n: nat, w: Who)
    requires n < |ev| && Tallied(s, ev[..n], w) && Adds(s, ev[n], s', w)
    ensures Tallied(s', ev[..n + 1], w)
  {
    TimesOneMore(ev, n, Sender(w, Write(Ok)));
    TimesOneMore(ev, n, Sender(w, Write(NoSession)));
    TimesOneMore(ev, n, Sender(w, Write(Failed)));
    TimesOneMore(ev, n, Sender(w, Count));
    TimesOneMore(ev, n, Receiver(w, Send(true)));
    TimesOneMore(ev, n, Receiver(w, ReceiverStep.Decode));
  }

  /**
   * Nothing happens unseen: in every run a side has written as many records as its session
   * took, dropped as many datagrams as found no session or failed, and delivered as many as
   * its socket accepted; every record read was decoded.
   */
  lemma {:induction false} TalliedAlong(run: seq<System>, ev: seq<Event>, n: nat, w: Who)
    requires IsRun(run, ev) && n < |run|
    ensures Tallied(Get(run[n], w), ev[..n], w)
    decreases n
  {
    if n == 0 {
      assert ev[..0] == [];
    } else {
      TalliedAlong(run, ev, n - 1, w);
      AddsAt(run, ev, n - 1, w);
      TalliedNext(Get(run[n - 1], w), Get(run[n], w), ev, n - 1, w);
    }
  }

  /**
   * Conservation: at a sender's loop head everything captured was sent or dropped, records
   * written are in the network, lost or read, and what is injected never exceeds what was
   * received, which never exceeds what the peer wrote.
   */
  lemma CountersConserved(run: seq<System>, ev: seq<Event>, n: nat, w: Who)
    requires IsRun(run, ev) && n < |run|
    ensures var t, s := Get(run[n], w), Peer(run[n], w);
            && t.o.nCaptured == t.o.nSent + t.o.nDropped + Pending(t.o.pc)
            && |s.link.flight| + s.link.lost + |t.i.arrived| == |s.o.writes|
            && t.i.nInjected <= t.i.nRecv <= |t.i.arrived| <= |s.o.writes|
            && s.o.nSent <= |s.o.writes| <= s.o.nSent + 1
  {
    SoundAlong(run, ev, n);
    IncreasingBound(Get(run[n], w).i.deliveries, |Get(run[n], w).i.decodes|);
  }

  lemma {:induction false} IncreasingBound(ds: seq<Delivery>, n: nat)
    requires forall i, j {:trigger ds[i], ds[j]} :: 0 <= i < j < |ds| ==> ds[i].at < ds[j].at
    requires forall i {:trigger ds[i]} :: 0 <= i < |ds| ==> ds[i].at < n
    ensures |ds| <= n
    decreases |ds|
  {
    if ds != [] {
      IncreasingBound(ds[..|ds| - 1], ds[|ds| - 1].at);
    }
  }

  /**
   * When the encoder panics: a write attempted on a live session kills the process exactly
   * when the configured peer is an IPv6 address that has no IPv4 form.
   */
  lemma CrashExactly(run: seq<System>, ev: seq<Event>, n: nat, w: Who, outcome: Outcome)
    requires IsRun(run, ev) && n < |run|
    requires Enabled(run[n], Sender(w, Write(outcome))) && !outcome.NoSession?
    ensures Get(Apply(run[n], Sender(w, Write(outcome))), w).o.crashed <==> Get(run[n], w).o.peerN4.addr.V6?
  {
    SoundAlong(run, ev, n);
    var s := Get(run[n], w);
    assert Addressed(s.o.peerN4, s.o.captures[|s.o.captures| - 1], s.i.decodes);
  }

  /** Such a configuration does crash: at the first datagram captured with a session up. */
  lemma CrashReachable(bits: nat, src: Endpoint) returns (run: seq<System>, ev: seq<Event>)
    requires HasAs4(src.addr)
    ensures IsRun(run, ev) && run[0].cp.o.peerN4 == Endpoint(V6(bits), src.port)
    ensures run[|ev|].cp.o.crashed
  {
    var s0 := System(Start(Endpoint(V6(bits), src.port)), Start(NOWHERE));
    var s1 := Apply(s0, Sender(Cp, Take(src, [])));
    var s2 := Apply(s1, Sender(Cp, Write(Ok)));
    run, ev := [s0, s1, s2], [Sender(Cp, Take(src, [])), Sender(Cp, Write(Ok))];
  }

  // ---------------------------------------------------------------- reply addressing

  /**
   * In general a side without a configured peer answers whoever it decoded a frame from
   * most recently, and captures nothing before it has decoded one.
   */
  lemma RepliesGoToTheLastHeard(run: seq<System>, ev: seq<Event>, n: nat, w: Who, c: nat)
    requires IsRun(run, ev) && n < |run| && Get(run[n], w).o.peerN4.addr.NoAddr?
    requires c < |Get(run[n], w).o.captures|
    ensures var s := Get(run[n], w);
            && 0 < s.o.captures[c].heard <= |s.i.decodes|
            && s.o.captures[c].d.dst == s.i.decodes[s.o.captures[c].heard - 1].src
  {
    SoundAlong(run, ev, n);
    var s := Get(run[n], w);
    assert Addressed(s.o.peerN4, s.o.captures[c], s.i.decodes);
  }

  lemma ReplyTo(s: Side, t: Side, e: Endpoint, c: nat)
    requires SoundPair(s, t) && t.o.peerN4.addr.NoAddr? && c < |t.o.captures|
    requires forall c :: 0 <= c < |s.o.captures| ==> s.o.captures[c].d.src == e
    ensures t.o.captures[c].d.dst == Unmap(e)
  {
    assert Addressed(t.o.peerN4, t.o.captures[c], t.i.decodes);
    var h := t.o.captures[c].heard - 1;
    assert t.i.decodes[h] == Carried(s.o, t.i.arrived[h]);
  }

  lemma DeliveryFrom(s: Side, t: Side, j: nat)
    requires SoundPair(s, t) && j < |t.i.deliveries|
    ensures exists c :: 0 <= c < |s.o.captures| && t.i.deliveries[j].d == Unmapped(s.o.captures[c].d)
  {
    var a := t.i.deliveries[j].at;
    assert t.i.decodes[a] == Carried(s.o, t.i.arrived[a]);
  }

  /**
   * With one endpoint `e` on the control-plane side every reply finds its way back: each
   * datagram the user-plane side captures is addressed to `e`, and so is each delivery on
   * the control-plane side.
   */
  lemma RepliesComeBack(run: seq<System>, ev: seq<Event>, n: nat, e: Endpoint)
    requires IsRun(run, ev) && n < |run| && run[n].up.o.peerN4.addr.NoAddr?
    requires forall c :: 0 <= c < |run[n].cp.o.captures| ==> run[n].cp.o.captures[c].d.src == e
    ensures forall c :: 0 <= c < |run[n].up.o.captures| ==> run[n].up.o.captures[c].d.dst == Unmap(e)
    ensures forall j :: 0 <= j < |run[n].cp.i.deliveries| ==> run[n].cp.i.deliveries[j].d.dst == Unmap(e)
  {
    SoundAlong(run, ev, n);
    var cp, up := run[n].cp, run[n].up;
    forall c | 0 <= c < |up.o.captures| ensures up.o.captures[c].d.dst == Unmap(e) {
      ReplyTo(cp, up, e, c);
    }
    forall j | 0 <= j < |cp.i.deliveries| ensures cp.i.deliveries[j].d.dst == Unmap(e) {
      DeliveryFrom(up, cp, j);
      assert Unmap(Unmap(e)) == Unmap(e);
    }
  }
}
