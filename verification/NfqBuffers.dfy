/**
 * The NFQUEUE datapath on real, recycled buffers. Every method is one step of a goroutine
 * and refines the same step of the module Nfq, where packets are plain values: recycling
 * is invisible because every buffer has one owner at a time.
 */
module NfqBuffers {
  import opened Frame
  import opened Nfq

  /** `nfqPacket`: `buf` is the pooled buffer behind `data`, nil for a packet too large to pool. */
  datatype Pkt = Pkt(id: nat, data: array<Byte>, n: nat, buf: array?<Byte>)

  /** The callback; `kernel` is C memory, valid until the callback returns. */
  datatype CallPc = Outside | Filling(pk: Pkt, kernel: seq<Byte>) | Filled(pk: Pkt)

  datatype HandPc = Free | Held(pk: Pkt) | Wrote(id: nat, ok: bool)

  ghost predicate Shape(pk: Pkt, id: nat, n: nat) {
    && pk.id == id && pk.n == n <= pk.data.Length
    && (if n > POOLED_SIZE then pk.buf == null else pk.buf == pk.data && pk.data.Length == POOLED_SIZE)
  }

  ghost predicate Holds(pk: Pkt, p: Packet)
    reads pk.data
  {
    Shape(pk, p.id, |p.bytes|) && pk.data[..pk.n] == p.bytes
  }

  class Capture {
    const depth: nat
    var pool: seq<array?<Byte>>
    var queue: seq<Pkt>
    var call: CallPc
    var hand: HandPc
    var drops: seq<nat>       // ids given a DROP verdict, in order
    var accepts: seq<nat>     // ids given an ACCEPT verdict, in order
    var nCaptured: nat
    var nSent: nat
    var nDropped: nat
    ghost var spec: State
    ghost var repr: set<array<Byte>>

    /** Pool entries are as the specification says; the usable ones have the pooled size. */
    ghost predicate PoolOk()
      reads this
    {
      && |pool| == |spec.pool|
      && (forall k :: 0 <= k < |pool| ==> (pool[k] != null <==> spec.pool[k]))
      && (forall k :: 0 <= k < |pool| && pool[k] != null ==> pool[k] in repr && pool[k].Length == POOLED_SIZE)
      && (forall j, k :: 0 <= j < k < |pool| && pool[j] != null ==> pool[j] != pool[k])
    }

    ghost predicate QueueOk()
      reads this, repr
    {
      && |queue| == |spec.flow.queue|
      && (forall k :: 0 <= k < |queue| ==> queue[k].data in repr && Holds(queue[k], spec.flow.queue[k]))
      && (forall j, k :: 0 <= j < k < |queue| ==> queue[j].data != queue[k].data)
      && (forall j, k :: 0 <= j < |pool| && 0 <= k < |queue| ==> pool[j] != queue[k].data)
    }

    /** A buffer outside the pool and the queue is in neither of them. */
    ghost predicate Apart(pk: Pkt)
      reads this
    {
      && pk.data in repr
      && (forall k :: 0 <= k < |pool| ==> pool[k] != pk.data)
      && (forall k :: 0 <= k < |queue| ==> queue[k].data != pk.data)
    }

    ghost predicate CallOk()
      reads this, repr
    {
      match call
      case Outside => spec.flow.call.NoCall?
      case Filling(pk, kernel) =>
        spec.flow.call == Callback.Filling(Packet(pk.id, kernel)) && Shape(pk, pk.id, |kernel|) && Apart(pk)
      case Filled(pk) => spec.flow.call.Filled? && Apart(pk) && Holds(pk, spec.flow.call.p)
    }

    ghost predicate HandOk()
      reads this, repr
    {
      match hand
      case Free => spec.flow.hand.Free?
      case Held(pk) =>
        && spec.flow.hand.Held? && Apart(pk) && Holds(pk, spec.flow.hand.p)
        && (call.Outside? || call.pk.data != pk.data)
      case Wrote(id, ok) => spec.flow.hand.Wrote? && spec.flow.hand.p.id == id && spec.flow.hand.ok == ok
    }

    ghost predicate LogOk()
      reads this
    {
      && |drops| == |spec.flow.drops|
      && (forall k :: 0 <= k < |drops| ==> drops[k] == spec.flow.drops[k].id)
      && accepts == spec.flow.accepts
      && nCaptured == spec.flow.nCaptured && nSent == spec.flow.nSent && nDropped == spec.flow.nDropped
    }

    /** Every buffer has exactly one owner, and holds the bytes its packet is specified to have. */
    ghost predicate Valid()
      reads this, repr
    {
      && spec.flow.depth == depth
      && (spec.crashed || (PoolOk() && QueueOk() && CallOk() && HandOk() && LogOk()))
    }

    constructor (depth: nat)
      ensures Valid() && spec == Init(depth) && fresh(repr)
    {
      this.depth := depth;
      pool, queue, call, hand := [], [], Outside, HandPc.Free;
      drops, accepts, nCaptured, nSent, nDropped := [], [], 0, 0, 0;
      spec, repr := Init(depth), {};
    }

    /** The callback on a packet without payload: accepted at once. */
    method OnEmpty(id: nat)
      requires Valid() && !spec.crashed && call.Outside?
      modifies this
      ensures Valid() && spec == Apply(old(spec), Call(Empty(id))) && repr == old(repr)
    {
      accepts := accepts + [id];
      spec := Apply(spec, Call(Empty(id)));
    }

    /** `getPktBuf` with a new buffer: the packet is too large, or the pool has none to give. */
    method BeginNew(id: nat, kernel: seq<Byte>, pick: nat)
      requires Valid() && !spec.crashed && call.Outside? && kernel != []
      requires |kernel| > POOLED_SIZE || pick >= |pool|
      modifies this
      ensures Valid() && spec == Apply(old(spec), Call(Nfq.Begin(Packet(id, kernel), pick)))
      ensures !spec.crashed && fresh(repr - old(repr))
    {
      var n := |kernel|;
      var data := new Byte[if n > POOLED_SIZE then n else POOLED_SIZE](_ => 0);
      repr := repr + {data};
      call := CallPc.Filling(Pkt(id, data, n, if n > POOLED_SIZE then null else data), kernel);
      spec := Apply(spec, Call(Nfq.Begin(Packet(id, kernel), pick)));
    }

    /** `getPktBuf` with entry `pick` of the pool. False is the nil dereference. */
    method BeginRecycled(id: nat, kernel: seq<Byte>, pick: nat) returns (ok: bool)
      requires Valid() && !spec.crashed && call.Outside? && kernel != []
      requires |kernel| <= POOLED_SIZE && pick < |pool|
      modifies this
      ensures Valid() && spec == Apply(old(spec), Call(Nfq.Begin(Packet(id, kernel), pick)))
      ensures (ok <==> !spec.crashed) && repr == old(repr)
    {
      var p := pool[pick];
      pool := Without(pool, pick);
      ok := p != null;
      if ok {
        call := CallPc.Filling(Pkt(id, p, |kernel|, p), kernel);
      }
      spec := Apply(spec, Call(Nfq.Begin(Packet(id, kernel), pick)));
    }

    /**
     * The start of the callback. `pick` is the pool's choice: one of its entries, or none,
     * and then a new buffer is made. False is the nil dereference.
     */
    method Begin(id: nat, kernel: seq<Byte>, pick: nat) returns (ok: bool)
      requires Valid() && !spec.crashed && call.Outside? && kernel != []
      modifies this
      ensures Valid() && spec == Apply(old(spec), Call(Nfq.Begin(Packet(id, kernel), pick)))
      ensures ok <==> !spec.crashed
      ensures fresh(repr - old(repr))
    {
      if |kernel| > POOLED_SIZE || pick >= |pool| {
        BeginNew(id, kernel, pick);
        ok := true;
      } else {
        ok := BeginRecycled(id, kernel, pick);
      }
    }

    /** The copy out of C memory. It overwrites whatever the recycled buffer held. */
    method Copy()
      requires Valid() && !spec.crashed && call.Filling?
      modifies this, call.pk.data
      ensures Valid() && spec == Apply(old(spec), Call(CallStep.Copy)) && repr == old(repr)
    {
      var pk, kernel := call.pk, call.kernel;
      for i := 0 to pk.n
        modifies pk.data
        invariant pk.data[..i] == kernel[..i]
      {
        pk.data[i] := kernel[i];
        assert pk.data[..i + 1] == pk.data[..i] + [kernel[i]];
      }
      assert pk.data[..pk.n] == kernel;
      call := CallPc.Filled(pk);
      spec := Apply(spec, Call(CallStep.Copy));
    }

    /** The non-blocking send into the queue; when it is full, the packet is dropped here. */
    method Enqueue()
      requires Valid() && !spec.crashed && call.Filled?
      modifies this
      ensures Valid() && spec == Apply(old(spec), Call(CallStep.Enqueue)) && repr == old(repr)
      ensures pool == old(pool) || pool == old(pool) + [old(call).pk.buf]
    {
      var pk := call.pk;
      if |queue| < depth {
        queue := queue + [pk];
      } else {
        pool := pool + [pk.buf];
        drops := drops + [pk.id];
      }
      call := Outside;
      spec := Apply(spec, Call(CallStep.Enqueue));
    }

    /** The sender receives the next packet. */
    method Take()
      requires Valid() && !spec.crashed && hand.Free? && queue != []
      modifies this
      ensures Valid() && spec == Apply(old(spec), Send(SendStep.Take)) && repr == old(repr)
    {
      hand := HandPc.Held(queue[0]);
      queue := queue[1..];
      nCaptured := nCaptured + 1;
      spec := Apply(spec, Send(SendStep.Take));
    }

    /** There is no session: fail closed. */
    method DropUnsent()
      requires Valid() && !spec.crashed && hand.Held?
      modifies this
      ensures Valid() && spec == Apply(old(spec), Send(NoSession)) && repr == old(repr)
      ensures pool == old(pool) + (if old(hand).pk.buf != null then [old(hand).pk.buf] else [])
    {
      var pk := hand.pk;
      drops := drops + [pk.id];
      nDropped := nDropped + 1;
      if pk.buf != null {
        pool := pool + [pk.buf];
      }
      hand := HandPc.Free;
      spec := Apply(spec, Send(NoSession));
    }

    /**
     * The write. The record is exactly what the kernel handed over for this packet, however
     * often its buffer has been recycled before.
     */
    method WriteOut(ok: bool) returns (record: seq<Byte>)
      requires Valid() && !spec.crashed && hand.Held?
      modifies this
      ensures Valid() && spec == Apply(old(spec), Send(SendStep.Write(ok))) && repr == old(repr)
      ensures record == old(spec).flow.hand.p.bytes
      ensures pool == old(pool) + (if old(hand).pk.buf != null then [old(hand).pk.buf] else [])
      ensures ok ==> spec.flow.written == old(spec).flow.written + [Packet(old(hand.pk.id), record)]
    {
      var pk := hand.pk;
      record := pk.data[..pk.n];
      if pk.buf != null {
        pool := pool + [pk.buf];
      }
      hand := HandPc.Wrote(pk.id, ok);
      spec := Apply(spec, Send(SendStep.Write(ok)));
    }

    /** The original is dropped, whether or not the record could be written. */
    method Verdict()
      requires Valid() && !spec.crashed && hand.Wrote?
      modifies this
      ensures Valid() && spec == Apply(old(spec), Send(GiveVerdict)) && repr == old(repr)
    {
      if hand.ok {
        nSent := nSent + 1;
      }
      drops := drops + [hand.id];
      nDropped := nDropped + 1;
      hand := HandPc.Free;
      spec := Apply(spec, Send(GiveVerdict));
    }

    /** The pool may forget an entry at any time. */
    method Forget(k: nat)
      requires Valid() && !spec.crashed && k < |pool|
      modifies this
      ensures Valid() && spec == Apply(old(spec), Collect(k)) && repr == old(repr)
    {
      pool := Without(pool, k);
      spec := Apply(spec, Collect(k));
    }
  }

  /** One step of a schedule on the buffers; what it writes to the session, if anything. */
  method Fire(c: Capture, e: Event) returns (record: seq<Byte>)
    requires c.Valid() && Enabled(c.spec, e)
    modifies c, c.repr
    ensures c.Valid() && c.spec == Apply(old(c.spec), e)
    ensures fresh(c.repr - old(c.repr))
    ensures e.Send? && e.s.Write? && e.s.ok ==> record == old(c.spec).flow.hand.p.bytes
  {
    record := [];
    match e
    case Call(Empty(id)) => c.OnEmpty(id);
    case Call(Begin(p, pick)) =>
      var ok := c.Begin(p.id, p.bytes, pick);
      assert Packet(p.id, p.bytes) == p;
    case Call(Copy) => c.Copy();
    case Call(Enqueue) => c.Enqueue();
    case Send(Take) => c.Take();
    case Send(NoSession) => c.DropUnsent();
    case Send(Write(ok)) => record := c.WriteOut(ok);
    case Send(GiveVerdict) => c.Verdict();
    case Collect(k) => c.Forget(k);
  }

  function Ids(ps: seq<Packet>): (r: seq<nat>)
    ensures |r| == |ps| && forall k :: 0 <= k < |r| ==> r[k] == ps[k].id
  {
    seq(|ps|, k requires 0 <= k < |ps| => ps[k].id)
  }

  /**
   * Whole runs on recycled buffers: whatever the schedule of callback, sender and pool, the
   * records written are, byte for byte and in order, the packets the value model writes, and
   * the verdicts given are its verdicts.
   */
  method Drive(depth: nat, ev: seq<Event>, ghost run: seq<State>)
    returns (records: seq<seq<Byte>>, drops: seq<nat>, accepts: seq<nat>)
    requires IsRun(run, ev) && run[0] == Init(depth)
    ensures |records| == |run[|ev|].flow.written|
    ensures forall k :: 0 <= k < |records| ==> records[k] == run[|ev|].flow.written[k].bytes
    ensures !run[|ev|].crashed ==> drops == Ids(run[|ev|].flow.drops) && accepts == EmptyOnes(ev)
  {
    var c := new Capture(depth);
    records := [];
    for n := 0 to |ev|
      invariant fresh(c) && fresh(c.repr) && c.Valid() && c.spec == run[n]
      invariant |records| == |run[n].flow.written|
      invariant forall k :: 0 <= k < |records| ==> records[k] == run[n].flow.written[k].bytes
    {
      assert Nfq.Step(run[n], ev[n], run[n + 1]);
      var record := Fire(c, ev[n]);
      if ev[n].Send? && ev[n].s.Write? && ev[n].s.ok {
        records := records + [record];
      }
    }
    drops, accepts := c.drops, c.accepts;
    ArrivedAlong(run, ev, |ev|);
    KeptAlong(run, ev, |ev|);
    assert ev[..|ev|] == ev;
  }
}
