/**
 * The NFQUEUE datapath with packets as values: the callback that takes packets from the
 * kernel, the bounded queue, and the sender that writes them and gives the verdicts. The
 * buffers themselves are in NfqBuffers, which refines this module.
 */
module Nfq {
  import opened Common
  import opened Frame
  import Runs

  datatype Packet = Packet(id: nat, bytes: seq<Byte>)

  const POOLED_SIZE: nat := 2048

  /** The callback: not running, before or after copying the packet out of C memory. */
  datatype Callback = NoCall | Filling(p: Packet) | Filled(p: Packet)

  /** The sender: idle, holding a packet, or past the write and before the verdict. */
  datatype Hand = Free | Held(p: Packet) | Wrote(p: Packet, ok: bool)

  /** Where packets are, and what has become of them. */
  datatype Flow = Flow(
    depth: nat,              // capacity of the queue
    queue: seq<Packet>,
    call: Callback,
    hand: Hand,
    arrived: seq<Packet>,    // history: non-empty packets the kernel handed over
    queued: seq<Packet>,     // history: packets accepted by the queue
    handled: seq<Packet>,    // history: packets the sender has finished with
    written: seq<Packet>,    // history: packets written to the session, as written
    drops: seq<Packet>,      // history: DROP verdicts
    empties: seq<nat>,       // history: empty packets the kernel handed over
    accepts: seq<nat>,       // history: ACCEPT verdicts
    nCaptured: nat, nSent: nat, nDropped: nat
  )

  datatype State = State(
    flow: Flow,
    pool: seq<bool>,         // the recycled buffers; false is a nil pointer
    crashed: bool            // a nil buffer was taken from the pool
  )

  datatype CallStep =
    | Empty(id: nat)                   // a packet with no payload
    | Begin(p: Packet, pick: nat)      // getPktBuf; the pool hands out entry `pick`, or a new buffer
    | Copy
    | Enqueue                          // the non-blocking send, or the backpressure branch

  datatype SendStep =
    | Take                             // the next packet of the queue
    | NoSession                        // there is no session: verdict and release
    | Write(ok: bool)                  // write and release
    | GiveVerdict

  datatype Event = Call(c: CallStep) | Send(s: SendStep) | Collect(k: nat)   // Collect: the pool forgets an entry

  function Init(depth: nat): State {
    State(Flow(depth, [], NoCall, Free, [], [], [], [], [], [], [], 0, 0, 0), [], false)
  }

  predicate Oversized(p: Packet) {
    |p.bytes| > POOLED_SIZE
  }

  function Without<T>(s: seq<T>, k: nat): (r: seq<T>)
    requires k < |s|
    ensures |r| == |s| - 1
    ensures forall i :: 0 <= i < k ==> r[i] == s[i]
    ensures forall i :: k <= i < |r| ==> r[i] == s[i + 1]
  {
    s[..k] + s[k + 1..]
  }

  predicate CallEnabled(f: Flow, x: CallStep) {
    match x
    case Empty(_) => f.call.NoCall?
    case Begin(p, _) => f.call.NoCall? && p.bytes != []
    case Copy => f.call.Filling?
    case Enqueue => f.call.Filled?
  }

  function CallFlow(f: Flow, x: CallStep): Flow
    requires CallEnabled(f, x)
  {
    match x
    case Empty(id) => f.(empties := f.empties + [id], accepts := f.accepts + [id])
    case Begin(p, _) => f.(arrived := f.arrived + [p], call := Filling(p))
    case Copy => f.(call := Filled(f.call.p))
    case Enqueue =>
      if |f.queue| < f.depth then
        f.(call := NoCall, queue := f.queue + [f.call.p], queued := f.queued + [f.call.p])
      else
        f.(call := NoCall, drops := f.drops + [f.call.p])
  }

  /** getPktBuf takes an entry for a small packet; backpressure puts back any buffer, even nil. */
  function CallPool(f: Flow, pool: seq<bool>, x: CallStep): seq<bool>
    requires CallEnabled(f, x)
  {
    match x
    case Begin(p, pick) => if Oversized(p) || pick >= |pool| then pool else Without(pool, pick)
    case Enqueue => if |f.queue| < f.depth then pool else pool + [!Oversized(f.call.p)]
    case _ => pool
  }

  predicate TakesNil(pool: seq<bool>, x: CallStep) {
    x.Begin? && !Oversized(x.p) && x.pick < |pool| && !pool[x.pick]
  }

  predicate SendEnabled(f: Flow, x: SendStep) {
    match x
    case Take => f.hand.Free? && f.queue != []
    case NoSession => f.hand.Held?
    case Write(_) => f.hand.Held?
    case GiveVerdict => f.hand.Wrote?
  }

  function SendFlow(f: Flow, x: SendStep): Flow
    requires SendEnabled(f, x)
  {
    match x
    case Take => f.(queue := f.queue[1..], hand := Held(f.queue[0]), nCaptured := f.nCaptured + 1)
    case NoSession =>
      f.(hand := Free, drops := f.drops + [f.hand.p], handled := f.handled + [f.hand.p],
         nDropped := f.nDropped + 1)
    case Write(ok) =>
      f.(hand := Wrote(f.hand.p, ok), written := if ok then f.written + [f.hand.p] else f.written)
    case GiveVerdict =>
      f.(hand := Free, drops := f.drops + [f.hand.p], handled := f.handled + [f.hand.p],
         nDropped := f.nDropped + 1, nSent := f.nSent + (if f.hand.ok then 1 else 0))
  }

  /** releasePkt: only pooled buffers go back. */
  function SendPool(f: Flow, pool: seq<bool>, x: SendStep): seq<bool>
    requires SendEnabled(f, x)
  {
    if (x.NoSession? || x.Write?) && !Oversized(f.hand.p) then pool + [true] else pool
  }

  predicate Enabled(st: State, e: Event) {
    && !st.crashed
    && match e
       case Call(x) => CallEnabled(st.flow, x)
       case Send(x) => SendEnabled(st.flow, x)
       case Collect(k) => k < |st.pool|
  }

  function Apply(st: State, e: Event): State
    requires Enabled(st, e)
  {
    match e
    case Call(x) =>
      State(CallFlow(st.flow, x), CallPool(st.flow, st.pool, x), TakesNil(st.pool, x))
    case Send(x) => State(SendFlow(st.flow, x), SendPool(st.flow, st.pool, x), false)
    case Collect(k) => st.(pool := Without(st.pool, k))
  }

  ghost predicate Step(st: State, e: Event, st': State) {
    Enabled(st, e) && st' == Apply(st, e)
  }

  ghost predicate Initial(st: State) {
    st == Init(st.flow.depth)
  }

  ghost predicate IsRun(run: seq<State>, ev: seq<Event>) {
    Runs.IsRun(Initial, Step, run, ev)
  }

  // ---------------------------------------------------------------- verdicts

  function InCall(c: Callback): multiset<Packet> {
    if c.NoCall? then multiset{} else multiset{c.p}
  }

  function InHand(h: Hand): multiset<Packet> {
    if h.Free? then multiset{} else multiset{h.p}
  }

  /** Packets the kernel is still waiting on. */
  function Undecided(f: Flow): multiset<Packet> {
    multiset(f.queue) + InCall(f.call) + InHand(f.hand)
  }

  /** Every non-empty packet is undecided or has its one DROP; every empty one its ACCEPT. */
  ghost predicate VerdictsKept(f: Flow) {
    && multiset(f.arrived) == multiset(f.drops) + Undecided(f)
    && f.accepts == f.empties
  }

  lemma VerdictsEnqueue(f: Flow)
    requires VerdictsKept(f) && f.call.Filled?
    ensures VerdictsKept(CallFlow(f, Enqueue))
  {
    var p := f.call.p;
    assert multiset(f.queue + [p]) == multiset(f.queue) + multiset{p};
    assert multiset(f.drops + [p]) == multiset(f.drops) + multiset{p};
  }

  lemma VerdictsCall(f: Flow, x: CallStep)
    requires VerdictsKept(f) && CallEnabled(f, x)
    ensures VerdictsKept(CallFlow(f, x))
  {
    match x
    case Empty(_) =>
    case Begin(p, _) => assert multiset(f.arrived + [p]) == multiset(f.arrived) + multiset{p};
    case Copy =>
    case Enqueue => VerdictsEnqueue(f);
  }

  lemma VerdictsTake(f: Flow)
    requires VerdictsKept(f) && SendEnabled(f, Take)
    ensures VerdictsKept(SendFlow(f, Take))
  {
    assert f.queue == [f.queue[0]] + f.queue[1..];
    assert multiset(f.queue) == multiset{f.queue[0]} + multiset(f.queue[1..]);
  }

  lemma VerdictsSend(f: Flow, x: SendStep)
    requires VerdictsKept(f) && SendEnabled(f, x)
    ensures VerdictsKept(SendFlow(f, x))
  {
    match x
    case Take => VerdictsTake(f);
    case NoSession => assert multiset(f.drops + [f.hand.p]) == multiset(f.drops) + multiset{f.hand.p};
    case Write(_) =>
    case GiveVerdict => assert multiset(f.drops + [f.hand.p]) == multiset(f.drops) + multiset{f.hand.p};
  }

  // ---------------------------------------------------------------- order

  function HandSeq(h: Hand): seq<Packet> {
    if h.Free? then [] else [h.p]
  }

  /** The packets whose write is over. */
  function WriteOver(f: Flow): seq<Packet> {
    f.handled + (if f.hand.Wrote? then [f.hand.p] else [])
  }

  /** The queue is first in, first out, and nothing overtakes anything. */
  ghost predicate OrderKept(f: Flow) {
    && f.queued == f.handled + HandSeq(f.hand) + f.queue
    && Subsequence(f.written, WriteOver(f))
    && (f.call.NoCall? ==> Subsequence(f.queued, f.arrived))
    && (!f.call.NoCall? ==>
          f.arrived != [] && f.arrived[|f.arrived| - 1] == f.call.p
          && Subsequence(f.queued, f.arrived[..|f.arrived| - 1]))
  }

  lemma OrderEnqueue(f: Flow)
    requires OrderKept(f) && f.call.Filled?
    ensures OrderKept(CallFlow(f, Enqueue))
  {
    var init := f.arrived[..|f.arrived| - 1];
    assert f.arrived == init + [f.call.p];
    if |f.queue| < f.depth {
      SubsequenceSnoc(f.queued, init, f.call.p);
    } else {
      SubsequenceExtend(f.queued, init, [f.call.p]);
    }
    assert WriteOver(CallFlow(f, Enqueue)) == WriteOver(f);
  }

  lemma OrderCall(f: Flow, x: CallStep)
    requires OrderKept(f) && CallEnabled(f, x)
    ensures OrderKept(CallFlow(f, x))
  {
    match x
    case Empty(_) => assert WriteOver(CallFlow(f, x)) == WriteOver(f);
    case Begin(p, _) =>
      assert (f.arrived + [p])[..|f.arrived|] == f.arrived;
      assert WriteOver(CallFlow(f, x)) == WriteOver(f);
    case Copy => assert WriteOver(CallFlow(f, x)) == WriteOver(f);
    case Enqueue => OrderEnqueue(f);
  }

  lemma OrderSend(f: Flow, x: SendStep)
    requires OrderKept(f) && SendEnabled(f, x)
    ensures OrderKept(SendFlow(f, x))
  {
    match x
    case Take => assert f.queue == [f.queue[0]] + f.queue[1..];
    case NoSession =>
      assert WriteOver(f) == f.handled;
      SubsequenceExtend(f.written, f.handled, [f.hand.p]);
      assert WriteOver(SendFlow(f, x)) == f.handled + [f.hand.p];
    case Write(ok) =>
      assert WriteOver(f) == f.handled;
      if ok {
        SubsequenceSnoc(f.written, f.handled, f.hand.p);
      } else {
        SubsequenceExtend(f.written, f.handled, [f.hand.p]);
      }
    case GiveVerdict => assert WriteOver(SendFlow(f, x)) == WriteOver(f);
  }

  // ---------------------------------------------------------------- counters

  /** At the sender's loop head, captured equals dropped: even what was sent is dropped. */
  predicate CountersKept(f: Flow) {
    && f.nCaptured == f.nDropped + (if f.hand.Free? then 0 else 1)
    && f.nDropped == |f.handled|
    && |f.written| == f.nSent + (if f.hand.Wrote? && f.hand.ok then 1 else 0)
    && f.nSent <= f.nDropped
  }

  lemma CountersCall(f: Flow, x: CallStep)
    requires CountersKept(f) && CallEnabled(f, x)
    ensures CountersKept(CallFlow(f, x))
  {
  }

  lemma CountersSend(f: Flow, x: SendStep)
    requires CountersKept(f) && SendEnabled(f, x)
    ensures CountersKept(SendFlow(f, x))
  {
  }

  // ---------------------------------------------------------------- over whole runs

  ghost predicate Kept(f: Flow) {
    VerdictsKept(f) && OrderKept(f) && CountersKept(f)
  }

  lemma KeptCall(f: Flow, x: CallStep)
    requires Kept(f) && CallEnabled(f, x)
    ensures Kept(CallFlow(f, x))
  {
    VerdictsCall(f, x);
    OrderCall(f, x);
    CountersCall(f, x);
  }

  lemma KeptSend(f: Flow, x: SendStep)
    requires Kept(f) && SendEnabled(f, x)
    ensures Kept(SendFlow(f, x))
  {
    VerdictsSend(f, x);
    OrderSend(f, x);
    CountersSend(f, x);
  }

  lemma KeptStep(st: State, e: Event, st': State)
    requires Kept(st.flow) && Step(st, e, st')
    ensures Kept(st'.flow)
  {
    match e
    case Call(x) => KeptCall(st.flow, x);
    case Send(x) => KeptSend(st.flow, x);
    case Collect(_) =>
  }

  lemma KeptInit(st: State)
    requires Initial(st)
    ensures Kept(st.flow)
  {
  }

  lemma KeptAlong(run: seq<State>, ev: seq<Event>, n: nat)
    requires IsRun(run, ev) && n < |run|
    ensures Kept(run[n].flow)
  {
    KeptInit(run[0]);
    forall st: State, e: Event, st': State | Kept(st.flow) && Step(st, e, st') ensures Kept(st'.flow) {
      KeptStep(st, e, st');
    }
    Runs.Along(Initial, Step, (st: State) => Kept(st.flow), run, ev, 0, n);
  }

  /**
   * Exactly one verdict per packet handed over, counting packets that are handed over more
   * than once: as often as a packet has arrived, it is undecided or has been dropped, and it
   * is never accepted; the only accepts are for packets without payload. This does not
   * depend on whether the write succeeded, failed, found no session, or the queue was full.
   */
  lemma ExactlyOneVerdict(run: seq<State>, ev: seq<Event>, n: nat, p: Packet)
    requires IsRun(run, ev) && n < |run|
    ensures multiset(run[n].flow.drops)[p] + Undecided(run[n].flow)[p] == multiset(run[n].flow.arrived)[p]
    ensures run[n].flow.accepts == run[n].flow.empties
  {
    KeptAlong(run, ev, n);
  }

  // ---------------------------------------------------------------- what becomes of a packet

  /** How a packet's way through the sidecar ends. */
  datatype Fate = Overflow | Sessionless | Unwritable | Sent

  datatype Ending = Ending(p: Packet, fate: Fate)

  /** The packet whose way ends at this step: it meets a full queue, or its turn has come. */
  function Ends(f: Flow, e: Event): Option<Ending> {
    match e
    case Call(Enqueue) =>
      if f.call.Filled? && |f.queue| >= f.depth then Some(Ending(f.call.p, Overflow)) else None
    case Send(NoSession) => if f.hand.Held? then Some(Ending(f.hand.p, Sessionless)) else None
    case Send(Write(ok)) =>
      if f.hand.Held? then Some(Ending(f.hand.p, if ok then Sent else Unwritable)) else None
    case _ => None
  }

  predicate Meets(st: State, e: Event, p: Packet, fate: Fate) {
    Ends(st.flow, e) == Some(Ending(p, fate))
  }

  /** Copies of `p` on their way: in the queue, in the callback, or in the hand before the write. */
  function Pending(f: Flow, p: Packet): nat {
    multiset(f.queue)[p] + Bit(!f.call.NoCall? && f.call.p == p) + Bit(f.hand == Held(p))
  }

  /** How often `p` has met the fate in the first `n` steps. */
  ghost function Times(run: seq<State>, ev: seq<Event>, n: nat, p: Packet, fate: Fate): nat
    requires |run| == |ev| + 1 && n <= |ev|
  {
    Runs.Count((st: State, e: Event) => Meets(st, e, p, fate), run, ev, n)
  }

  /** All copies of `p` that are over, one way or another. */
  function Over(f: Flow, p: Packet): int {
    (multiset(f.arrived)[p] as int) - Pending(f, p)
  }

  predicate EndsNow(f: Flow, e: Event, p: Packet) {
    Ends(f, e).Some? && Ends(f, e).value.p == p
  }

  lemma FateBegin(f: Flow, q: Packet, pick: nat, p: Packet)
    requires CallEnabled(f, Begin(q, pick))
    ensures Over(CallFlow(f, Begin(q, pick)), p) == Over(f, p)
  {
    CountSnoc(f.arrived, q, p);
  }

  lemma FateEnqueue(f: Flow, p: Packet)
    requires CallEnabled(f, Enqueue)
    ensures Over(CallFlow(f, Enqueue), p) == Over(f, p) + Bit(EndsNow(f, Call(Enqueue), p))
  {
    CountSnoc(f.queue, f.call.p, p);
  }

  lemma FateCall(f: Flow, x: CallStep, p: Packet)
    requires CallEnabled(f, x)
    ensures Over(CallFlow(f, x), p) == Over(f, p) + Bit(EndsNow(f, Call(x), p))
  {
    match x
    case Empty(_) =>
    case Begin(q, pick) => FateBegin(f, q, pick, p);
    case Copy =>
    case Enqueue => FateEnqueue(f, p);
  }

  lemma FateSend(f: Flow, x: SendStep, p: Packet)
    requires SendEnabled(f, x)
    ensures Over(SendFlow(f, x), p) == Over(f, p) + Bit(EndsNow(f, Send(x), p))
  {
    match x
    case Take => CountHead(f.queue, p);
    case NoSession =>
    case Write(_) =>
    case GiveVerdict =>
  }

  lemma FateStep(st: State, e: Event, st': State, p: Packet)
    requires Step(st, e, st')
    ensures Over(st'.flow, p) == Over(st.flow, p) + Bit(EndsNow(st.flow, e, p))
  {
    match e
    case Call(x) => FateCall(st.flow, x, p);
    case Send(x) => FateSend(st.flow, x, p);
    case Collect(_) =>
  }

  lemma WrittenStep(st: State, e: Event, st': State, p: Packet)
    requires Step(st, e, st')
    ensures multiset(st'.flow.written)[p] == multiset(st.flow.written)[p] + Bit(Meets(st, e, p, Sent))
  {
    if e == Send(Write(true)) {
      CountSnoc(st.flow.written, st.flow.hand.p, p);
    }
  }

  /** The ways of `p` that are over, by fate. */
  ghost function TimesAny(run: seq<State>, ev: seq<Event>, n: nat, p: Packet): nat
    requires |run| == |ev| + 1 && n <= |ev|
  {
    Times(run, ev, n, p, Overflow) + Times(run, ev, n, p, Sessionless)
    + Times(run, ev, n, p, Unwritable) + Times(run, ev, n, p, Sent)
  }

  lemma TimesOneMore(run: seq<State>, ev: seq<Event>, n: nat, p: Packet)
    requires |run| == |ev| + 1 && 0 < n <= |ev|
    ensures TimesAny(run, ev, n, p) == TimesAny(run, ev, n - 1, p) + Bit(EndsNow(run[n - 1].flow, ev[n - 1], p))
    ensures Times(run, ev, n, p, Sent) == Times(run, ev, n - 1, p, Sent) + Bit(Meets(run[n - 1], ev[n - 1], p, Sent))
  {
  }

  /**
   * Every packet has its fate, and one only: as often as it was handed over it is still on
   * its way, has met a full queue, has come to its turn without a session, has failed to be
   * written, or has been sent.
   */
  lemma {:induction false} EveryPacketHasItsFate(run: seq<State>, ev: seq<Event>, n: nat, p: Packet)
    requires IsRun(run, ev) && n < |run|
    ensures multiset(run[n].flow.arrived)[p] == Pending(run[n].flow, p) + TimesAny(run, ev, n, p)
    ensures multiset(run[n].flow.written)[p] == Times(run, ev, n, p, Sent)
    decreases n
  {
    if n > 0 {
      EveryPacketHasItsFate(run, ev, n - 1, p);
      var st, e, st' := run[n - 1], ev[n - 1], run[n];
      assert Step(st, e, st');
      FateStep(st, e, st', p);
      WrittenStep(st, e, st', p);
      TimesOneMore(run, ev, n, p);
    }
  }

  /** At some step before `n` a copy of `p` is lost. */
  ghost predicate Loses(run: seq<State>, ev: seq<Event>, n: nat, p: Packet)
    requires |run| == |ev| + 1 && n <= |ev|
  {
    exists k, fate {:trigger Meets(run[k], ev[k], p, fate)} ::
      0 <= k < n && fate != Sent && Meets(run[k], ev[k], p, fate)
  }

  lemma TimesPositive(run: seq<State>, ev: seq<Event>, n: nat, p: Packet, fate: Fate)
    requires |run| == |ev| + 1 && n <= |ev|
    ensures Times(run, ev, n, p, fate) > 0 <==> exists k :: 0 <= k < n && Meets(run[k], ev[k], p, fate)
  {
    Runs.CountPositive((st: State, e: Event) => Meets(st, e, p, fate), run, ev, n);
  }

  /**
   * Exactly when a packet that is no longer on its way was not sent, or not as often as it
   * was handed over: when one of the three obstacles was met. For a packet handed over once
   * this says whether it was sent at all.
   */
  lemma NotSentExactly(run: seq<State>, ev: seq<Event>, n: nat, p: Packet)
    requires IsRun(run, ev) && n < |run| && Pending(run[n].flow, p) == 0
    ensures multiset(run[n].flow.written)[p] < multiset(run[n].flow.arrived)[p] <==> Loses(run, ev, n, p)
    ensures multiset(run[n].flow.arrived)[p] == 1 ==> (p !in run[n].flow.written <==> Loses(run, ev, n, p))
  {
    EveryPacketHasItsFate(run, ev, n, p);
    TimesPositive(run, ev, n, p, Overflow);
    TimesPositive(run, ev, n, p, Sessionless);
    TimesPositive(run, ev, n, p, Unwritable);
    assert p in run[n].flow.written <==> multiset(run[n].flow.written)[p] > 0;
  }

  /**
   * Packets do not wait for a session. One that the sender takes while there is none is
   * dropped there and then, and from then on has been sent less often than handed over, in
   * any continuation of the run.
   */
  lemma UnsentIsNeverSent(run: seq<State>, ev: seq<Event>, i: nat, n: nat, p: Packet)
    requires IsRun(run, ev) && i < n < |run| && Meets(run[i], ev[i], p, Sessionless)
    ensures run[i + 1].flow.drops == run[i].flow.drops + [p]
    ensures multiset(run[n].flow.written)[p] < multiset(run[n].flow.arrived)[p]
  {
    assert Step(run[i], ev[i], run[i + 1]);
    EveryPacketHasItsFate(run, ev, n, p);
    TimesPositive(run, ev, n, p, Sessionless);
  }

  /** What is written to the session is an in-order selection of what the kernel handed over. */
  lemma WrittenInOrder(run: seq<State>, ev: seq<Event>, n: nat)
    requires IsRun(run, ev) && n < |run|
    ensures Subsequence(run[n].flow.written, run[n].flow.arrived)
  {
    KeptAlong(run, ev, n);
    var f := run[n].flow;
    var over := WriteOver(f);
    var rest := if f.hand.Held? then [f.hand.p] + f.queue else f.queue;
    assert f.queued == over + rest;
    SubsequenceExtend(f.written, over, rest);
    if f.call.NoCall? {
      SubsequenceTrans(f.written, f.queued, f.arrived);
    } else {
      var init := f.arrived[..|f.arrived| - 1];
      SubsequenceTrans(f.written, f.queued, init);
      SubsequenceExtend(f.written, init, [f.call.p]);
      assert f.arrived == init + [f.call.p];
    }
  }

  /** Counters at every state; when the sender is idle, captured equals dropped. */
  lemma CountersAlong(run: seq<State>, ev: seq<Event>, n: nat)
    requires IsRun(run, ev) && n < |run|
    ensures CountersKept(run[n].flow)
  {
    KeptAlong(run, ev, n);
  }

  // ---------------------------------------------------------------- the pool

  predicate NoNil(pool: seq<bool>) {
    forall k :: 0 <= k < |pool| ==> pool[k]
  }

  /** A packet too large for the pool meets a full queue. */
  predicate Poisons(st: State, e: Event) {
    e == Call(Enqueue) && st.flow.call.Filled? && Oversized(st.flow.call.p) && |st.flow.queue| >= st.flow.depth
  }

  lemma PoolStep(st: State, e: Event, st': State)
    requires Step(st, e, st') && NoNil(st.pool)
    ensures NoNil(st'.pool) <==> !Poisons(st, e)
    ensures !st'.crashed
  {
    if Poisons(st, e) {
      assert !st'.pool[|st'.pool| - 1];
    }
  }

  lemma {:induction false} PoolAlong(run: seq<State>, ev: seq<Event>, n: nat)
    requires IsRun(run, ev) && n < |run|
    requires forall k {:trigger Poisons(run[k], ev[k])} :: 0 <= k < n ==> !Poisons(run[k], ev[k])
    ensures NoNil(run[n].pool) && !run[n].crashed
    decreases n
  {
    if n > 0 {
      PoolAlong(run, ev, n - 1);
      assert Step(run[n - 1], ev[n - 1], run[n]);
      assert !Poisons(run[n - 1], ev[n - 1]);
      PoolStep(run[n - 1], ev[n - 1], run[n]);
    }
  }

  /**
   * The exact boundary of the pool invariant: in a run the pool never holds a nil buffer if
   * and only if no packet above the pooled size ever meets a full queue.
   */
  lemma PoolCleanExactly(run: seq<State>, ev: seq<Event>)
    requires IsRun(run, ev)
    ensures (forall n {:trigger run[n]} :: 0 <= n < |run| ==> NoNil(run[n].pool))
            <==> (forall k {:trigger Poisons(run[k], ev[k])} :: 0 <= k < |ev| ==> !Poisons(run[k], ev[k]))
  {
    if forall k {:trigger Poisons(run[k], ev[k])} :: 0 <= k < |ev| ==> !Poisons(run[k], ev[k]) {
      forall n | 0 <= n < |run| ensures NoNil(run[n].pool) {
        PoolAlong(run, ev, n);
      }
    }
    if forall n {:trigger run[n]} :: 0 <= n < |run| ==> NoNil(run[n].pool) {
      forall k | 0 <= k < |ev| ensures !Poisons(run[k], ev[k]) {
        assert Step(run[k], ev[k], run[k + 1]);
        assert NoNil(run[k].pool) && NoNil(run[k + 1].pool);
        PoolStep(run[k], ev[k], run[k + 1]);
      }
    }
  }

  /** So the callback dereferences a nil buffer only after such a meeting. */
  lemma CrashNeedsPoison(run: seq<State>, ev: seq<Event>, n: nat)
    requires IsRun(run, ev) && n < |run| && run[n].crashed
    ensures exists k :: 0 <= k < n && Poisons(run[k], ev[k])
  {
    if forall k {:trigger Poisons(run[k], ev[k])} :: 0 <= k < n ==> !Poisons(run[k], ev[k]) {
      PoolAlong(run, ev, n);
      assert false;
    }
  }

  /** And after one, the next small packet that is given that entry crashes the sidecar. */
  lemma PoisonCrashes(st: State, st': State, small: Packet)
    requires Step(st, Call(Enqueue), st') && Poisons(st, Call(Enqueue))
    requires small.bytes != [] && !Oversized(small)
    ensures Enabled(st', Call(Begin(small, |st'.pool| - 1)))
    ensures Apply(st', Call(Begin(small, |st'.pool| - 1))).crashed
  {
  }

  // ---------------------------------------------------------------- buffers

  /** Packets of a sequence whose bytes are in a pooled buffer. */
  function PooledIn(ps: seq<Packet>): nat {
    if ps == [] then 0 else PooledIn(ps[..|ps| - 1]) + Bit(!Oversized(ps[|ps| - 1]))
  }

  lemma PooledSnoc(ps: seq<Packet>, p: Packet)
    ensures PooledIn(ps + [p]) == PooledIn(ps) + Bit(!Oversized(p))
  {
    assert (ps + [p])[..|ps|] == ps;
  }

  lemma {:induction false} PooledHead(ps: seq<Packet>)
    requires ps != []
    ensures PooledIn(ps) == Bit(!Oversized(ps[0])) + PooledIn(ps[1..])
    decreases |ps|
  {
    if |ps| > 1 {
      PooledHead(ps[..|ps| - 1]);
      assert ps[..|ps| - 1][1..] == ps[1..][..|ps| - 2];
    }
  }

  /** Pooled buffers in use: by the callback, the queue, or the sender before its write. */
  function InUse(f: Flow): nat {
    Bit(!f.call.NoCall? && !Oversized(f.call.p)) + PooledIn(f.queue) + Bit(f.hand.Held? && !Oversized(f.hand.p))
  }

  /** All pooled buffers there are. */
  function Buffers(st: State): nat {
    multiset(st.pool)[true] + InUse(st.flow)
  }

  /** The pool has none to give, and a new buffer is made. */
  predicate Makes(st: State, e: Event) {
    e.Call? && e.c.Begin? && !Oversized(e.c.p) && e.c.pick >= |st.pool|
  }

  /** The pool forgets a buffer, or a nil entry. */
  predicate Forgets(st: State, e: Event, what: bool) {
    e.Collect? && e.k < |st.pool| && st.pool[e.k] == what
  }

  lemma CountWithout(pool: seq<bool>, k: nat, b: bool)
    requires k < |pool|
    ensures multiset(Without(pool, k))[b] == multiset(pool)[b] - Bit(pool[k] == b)
  {
    assert pool == pool[..k] + ([pool[k]] + pool[k + 1..]);
    assert multiset(pool) == multiset(pool[..k]) + (multiset{pool[k]} + multiset(pool[k + 1..]));
    assert multiset(Without(pool, k)) == multiset(pool[..k]) + multiset(pool[k + 1..]);
  }

  lemma BuffersCall(st: State, x: CallStep, st': State)
    requires Step(st, Call(x), st') && !st'.crashed
    ensures Buffers(st') == Buffers(st) + Bit(Makes(st, Call(x)))
    ensures multiset(st'.pool)[false] == multiset(st.pool)[false] + Bit(Poisons(st, Call(x)))
  {
    match x
    case Empty(_) =>
    case Begin(p, pick) =>
      if !Oversized(p) && pick < |st.pool| {
        CountWithout(st.pool, pick, true);
        CountWithout(st.pool, pick, false);
      }
    case Copy =>
    case Enqueue => BuffersEnqueue(st, st');
  }

  lemma BuffersEnqueue(st: State, st': State)
    requires Step(st, Call(Enqueue), st')
    ensures Buffers(st') == Buffers(st)
    ensures multiset(st'.pool)[false] == multiset(st.pool)[false] + Bit(Poisons(st, Call(Enqueue)))
  {
    if |st.flow.queue| < st.flow.depth {
      BuffersRoom(st, st');
    } else {
      BuffersFull(st, st');
    }
  }

  lemma BuffersRoom(st: State, st': State)
    requires Step(st, Call(Enqueue), st') && |st.flow.queue| < st.flow.depth
    ensures Buffers(st') == Buffers(st) && st'.pool == st.pool
  {
    PooledSnoc(st.flow.queue, st.flow.call.p);
  }

  lemma BuffersFull(st: State, st': State)
    requires Step(st, Call(Enqueue), st') && |st.flow.queue| >= st.flow.depth
    ensures Buffers(st') == Buffers(st)
    ensures multiset(st'.pool)[false] == multiset(st.pool)[false] + Bit(Oversized(st.flow.call.p))
  {
    var pooled := !Oversized(st.flow.call.p);
    CountSnoc(st.pool, pooled, true);
    CountSnoc(st.pool, pooled, false);
  }

  lemma BuffersSend(st: State, x: SendStep, st': State)
    requires Step(st, Send(x), st')
    ensures Buffers(st') == Buffers(st) && multiset(st'.pool)[false] == multiset(st.pool)[false]
  {
    CountSnoc(st.pool, true, true);
    CountSnoc(st.pool, true, false);
    if x.Take? {
      PooledHead(st.flow.queue);
    }
  }

  lemma BuffersStep(st: State, e: Event, st': State)
    requires Step(st, e, st') && !st'.crashed
    ensures Buffers(st') + Bit(Forgets(st, e, true)) == Buffers(st) + Bit(Makes(st, e))
    ensures multiset(st'.pool)[false] + Bit(Forgets(st, e, false)) == multiset(st.pool)[false] + Bit(Poisons(st, e))
  {
    match e
    case Call(x) => BuffersCall(st, x, st');
    case Send(x) => BuffersSend(st, x, st');
    case Collect(k) =>
      CountWithout(st.pool, k, true);
      CountWithout(st.pool, k, false);
  }

  /**
   * No buffer is lost: in every run up to a crash, the pooled buffers in the pool and in use
   * are those made, less those the pool itself has forgotten. And the nil entries are those
   * put there by oversized packets meeting a full queue, less the forgotten ones.
   */
  lemma {:induction false} BuffersConserved(run: seq<State>, ev: seq<Event>, n: nat)
    requires IsRun(run, ev) && n < |run| && !run[n].crashed
    ensures Buffers(run[n]) + Runs.Count((st: State, e: Event) => Forgets(st, e, true), run, ev, n)
            == Runs.Count(Makes, run, ev, n)
    ensures multiset(run[n].pool)[false] + Runs.Count((st: State, e: Event) => Forgets(st, e, false), run, ev, n)
            == Runs.Count(Poisons, run, ev, n)
    decreases n
  {
    if n > 0 {
      var st, e, st' := run[n - 1], ev[n - 1], run[n];
      assert Step(st, e, st');
      BuffersConserved(run, ev, n - 1);
      BuffersStep(st, e, st');
    }
  }

  // ---------------------------------------------------------------- what the kernel sees

  /** The packets handed over by the kernel, and the empty ones among them. */
  function HandedOver(ev: seq<Event>): seq<Packet> {
    if ev == [] then []
    else
      var e := ev[|ev| - 1];
      HandedOver(ev[..|ev| - 1]) + if e.Call? && e.c.Begin? then [e.c.p] else []
  }

  function EmptyOnes(ev: seq<Event>): seq<nat> {
    if ev == [] then []
    else
      var e := ev[|ev| - 1];
      EmptyOnes(ev[..|ev| - 1]) + if e.Call? && e.c.Empty? then [e.c.id] else []
  }

  lemma {:induction false} ArrivedAlong(run: seq<State>, ev: seq<Event>, n: nat)
    requires IsRun(run, ev) && n < |run|
    ensures run[n].flow.arrived == HandedOver(ev[..n]) && run[n].flow.empties == EmptyOnes(ev[..n])
    decreases n
  {
    if n > 0 {
      ArrivedAlong(run, ev, n - 1);
      assert ev[..n][..n - 1] == ev[..n - 1];
      var st, e, st' := run[n - 1], ev[n - 1], run[n];
      assert Step(st, e, st');
    } else {
      assert ev[..0] == [];
    }
  }

  // ---------------------------------------------------------------- a run that crashes

  /** Some run of the datapath ends in `st`. */
  ghost predicate Reachable(st: State) {
    Runs.Reachable(Initial, Step, st)
  }

  lemma Next(st: State, e: Event) returns (st': State)
    requires Reachable(st) && Enabled(st, e)
    ensures st' == Apply(st, e) && Reachable(st')
  {
    st' := Apply(st, e);
    Runs.ReachableStep(Initial, Step, st, e, st');
  }

  /** With the sender stalled, a queue of any depth fills up. */
  lemma {:induction false} Fills(depth: nat, n: nat, p: Packet) returns (st: State)
    requires n <= depth && p.bytes != [] && !Oversized(p)
    ensures Reachable(st) && !st.crashed && st.flow.depth == depth && |st.flow.queue| == n
    ensures st.flow.call.NoCall? && st.pool == []
    decreases n
  {
    if n == 0 {
      st := Init(depth);
      Runs.ReachableStart(Initial, Step, st);
    } else {
      st := Fills(depth, n - 1, p);
      st := Next(st, Call(Begin(p, 0)));
      st := Next(st, Call(Copy));
      st := Next(st, Call(Enqueue));
    }
  }

  /**
   * Whatever the depth of the queue, one packet above the pooled size that meets it full,
   * followed by one ordinary packet, can crash the sidecar.
   */
  lemma CrashReachable(depth: nat, big: Packet, small: Packet) returns (st: State)
    requires Oversized(big) && small.bytes != [] && !Oversized(small)
    ensures Reachable(st) && st.crashed && st.flow.depth == depth
  {
    st := Fills(depth, depth, small);
    st := Next(st, Call(Begin(big, 0)));
    st := Next(st, Call(Copy));
    st := Next(st, Call(Enqueue));
    st := Next(st, Call(Begin(small, 0)));
  }
}
