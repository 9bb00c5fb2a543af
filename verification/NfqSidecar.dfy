/**
 * The whole sidecar in NFQUEUE mode: the session protocol, the packets and the receiver's
 * clock in one transition system. What the parts leave to chance is decided here by the other
 * parts: whether a packet's turn finds a session, what is counted as sent, and whether a read
 * that returns is followed by a report.
 */
module NfqSidecar {
  import opened Common
  import Runs
  import Session
  import SessionSafety
  import SessionProgress
  import Nfq
  import Liveness

  datatype State = State(ses: Session.State, nfq: Nfq.State, live: Liveness.State)

  datatype Event =
    | Background(b: Session.Event)           // the SVID stream, `main` and the supervisor
    | Kernel(k: Nfq.Event)                   // the callback and the pool
    | Take                                   // the sender receives the next packet
    | Turn                                   // and reads the session to send it on
    | Write(ok: bool, t: Time)
    | Verdict(t: Time)                       // the packet is counted if it was written
    | Fail(who: Session.Who, x: Session.UserStep)   // the halves of `fail`
    | Look(t: Time)                          // the receiver reads the session
    | Read(r: Liveness.Event)                // what its read returned

  function Init(source: Session.Source, leaf: Leaf, depth: nat, jitter: nat, t: Time): State {
    State(Session.Init(source, leaf), Nfq.Init(depth), Liveness.Init(jitter, t))
  }

  // ---------------------------------------------------------------- who takes part in a step

  function SesPart(st: State, e: Event): Option<Session.Event> {
    match e
    case Background(b) => Some(b)
    case Kernel(_) => None
    case Take => None
    case Turn => Some(Session.User(Session.Sender, Session.Get))
    case Write(ok, _) => Some(Session.User(Session.Sender, if ok then Session.Done else Session.IoError))
    case Verdict(_) => None
    case Fail(who, x) => Some(Session.User(who, x))
    case Look(_) => Some(Session.User(Session.Receiver, Session.Get))
    case Read(r) =>
      Some(Session.User(Session.Receiver, if Liveness.Reports(st.live, r) then Session.IoError else Session.Done))
  }

  function NfqPart(st: State, e: Event): Option<Nfq.Event> {
    match e
    case Kernel(k) => Some(k)
    case Take => Some(Nfq.Send(Nfq.Take))
    case Turn => if st.ses.holder.conn.None? then Some(Nfq.Send(Nfq.NoSession)) else None
    case Write(ok, _) => Some(Nfq.Send(Nfq.Write(ok)))
    case Verdict(_) => Some(Nfq.Send(Nfq.GiveVerdict))
    case _ => None
  }

  function LivePart(st: State, e: Event): Option<Liveness.Event> {
    match e
    case Write(ok, t) => if ok then Some(Liveness.Written(t)) else None
    case Verdict(t) => if Counts(st.nfq.flow.hand) then Some(Liveness.Counted(t)) else None
    case Look(t) => if st.ses.holder.conn.None? then Some(Liveness.NoSession(t)) else None
    case Read(r) => Some(r)
    case _ => None
  }

  /** The packet in hand has been written. */
  predicate Counts(hand: Nfq.Hand) {
    hand.Wrote? && hand.ok
  }

  /** The order of steps within a goroutine, where it is not already that of the parts. */
  predicate InOrder(st: State, e: Event) {
    match e
    case Background(b) => !b.User?
    case Kernel(k) => !k.Send?
    case Take => Session.Started(st.ses) && st.ses.sender.Idle?
    case Turn => st.nfq.flow.hand.Held?
    case Fail(who, x) => (x.FailRead? || x.FailSend?) && (who.Sender? ==> st.nfq.flow.hand.Free?)
    case Read(r) => r.Record? || r.Timeout? || r.Error?
    case _ => true
  }

  predicate Enabled(st: State, e: Event) {
    && st.ses.deferred.None? && !st.nfq.crashed && InOrder(st, e)
    && (SesPart(st, e).Some? ==> Session.Enabled(st.ses, SesPart(st, e).value))
    && (NfqPart(st, e).Some? ==> Nfq.Enabled(st.nfq, NfqPart(st, e).value))
    && (LivePart(st, e).Some? ==> Liveness.Enabled(st.live, LivePart(st, e).value))
  }

  function Apply(st: State, e: Event): State
    requires Enabled(st, e)
  {
    var s, n, l := SesPart(st, e), NfqPart(st, e), LivePart(st, e);
    State(if s.Some? then Session.Apply(st.ses, s.value) else st.ses,
          if n.Some? then Nfq.Apply(st.nfq, n.value) else st.nfq,
          if l.Some? then Liveness.Apply(st.live, l.value) else st.live)
  }

  ghost predicate Step(st: State, e: Event, st': State) {
    Enabled(st, e) && st' == Apply(st, e)
  }

  ghost predicate Initial(st: State) {
    Session.Initial(st.ses) && Nfq.Initial(st.nfq) && Liveness.Initial(st.live)
  }

  ghost predicate IsRun(run: seq<State>, ev: seq<Event>) {
    Runs.IsRun(Initial, Step, run, ev)
  }

  // ---------------------------------------------------------------- the parts keep their results

  function Ses(st: State): Session.State { st.ses }

  function Packets(st: State): Nfq.State { st.nfq }

  function Clock(st: State): Liveness.State { st.live }

  lemma SesComponent()
    ensures Runs.Component(Initial, Step, Session.Initial, Session.Step, Ses, SesPart)
  {
  }

  lemma NfqComponent()
    ensures Runs.Component(Initial, Step, Nfq.Initial, Nfq.Step, Packets, NfqPart)
  {
  }

  lemma LiveComponent()
    ensures Runs.Component(Initial, Step, Liveness.Initial, Liveness.Step, Clock, LivePart)
  {
  }

  // ---------------------------------------------------------------- the sender

  /** Where the sender is in the session protocol fits where it is with its packet. */
  predicate Linked(st: State) {
    && (st.live.uncounted <==> Counts(st.nfq.flow.hand)) && st.live.nSent == st.nfq.flow.nSent
    && (!Session.Started(st.ses) ==> st.ses.sender.Idle? && st.nfq.flow.hand.Free?)
    && match st.nfq.flow.hand
       case Free => !st.ses.sender.Holding?
       case Held(_) => st.ses.sender.Idle? || st.ses.sender.Holding?
       case Wrote(_, ok) => if ok then st.ses.sender.Idle? else st.ses.sender.Failing?
  }

  lemma SenderUntouchedSuper(st: Session.State, x: Session.SupStep)
    requires Session.SupEnabled(st, x)
    ensures Session.ApplySup(st, x).sender == st.sender && Session.Started(Session.ApplySup(st, x))
  {
  }

  lemma SenderUntouchedUser(st: Session.State, x: Session.UserStep)
    requires Session.UserEnabled(st, Session.Receiver, x)
    ensures var st' := Session.ApplyUser(st, Session.Receiver, x);
            st'.sender == st.sender && st'.sup == st.sup
  {
  }

  lemma SenderUntouched(st: Session.State, e: Session.Event)
    requires Session.Enabled(st, e) && !(e.User? && e.who.Sender?)
    ensures Session.Apply(st, e).sender == st.sender
    ensures Session.Started(st) ==> Session.Started(Session.Apply(st, e))
  {
    match e
    case Stream(_) =>
    case Main(_) =>
    case Super(x) => SenderUntouchedSuper(st, x);
    case User(_, x) => SenderUntouchedUser(st, x);
  }

  lemma LinkedStep(st: State, e: Event, st': State)
    requires Linked(st) && Step(st, e, st')
    ensures Linked(st')
  {
    match e
    case Background(b) => SenderUntouched(st.ses, b);
    case Kernel(_) =>
    case Take =>
    case Turn =>
    case Write(_, _) =>
    case Verdict(_) =>
    case Fail(_, _) =>
    case Look(_) => SenderUntouched(st.ses, SesPart(st, e).value);
    case Read(_) => SenderUntouched(st.ses, SesPart(st, e).value);
  }

  /** What the receiver judges by is the number of packets written and counted. */
  lemma LinkedAlong(run: seq<State>, ev: seq<Event>, n: nat)
    requires IsRun(run, ev) && n < |run|
    ensures Linked(run[n])
  {
    forall st: State, e: Event, st': State | Linked(st) && Step(st, e, st') ensures Linked(st') {
      LinkedStep(st, e, st');
    }
    Runs.Along(Initial, Step, Linked, run, ev, 0, n);
  }

  predicate BySender(e: Event) {
    e.Take? || e.Turn? || e.Write? || e.Verdict? || (e.Fail? && e.who.Sender?)
  }

  /** The sender always has a step to take while there is a packet for it. */
  lemma SenderRuns(st: State)
    requires Linked(st) && Liveness.Clocked(st.live)
    requires Session.Started(st.ses) && st.ses.deferred.None? && !st.nfq.crashed
    requires !st.nfq.flow.hand.Free? || st.nfq.flow.queue != []
    ensures exists e :: BySender(e) && Enabled(st, e)
  {
    var hand, sender, now := st.nfq.flow.hand, st.ses.sender, st.live.now;
    var e := if hand.Wrote? then Verdict(now)
             else if hand.Held? then (if sender.Idle? then Turn else Write(false, now))
             else if sender.Idle? then Take
             else if sender.Failing? then Fail(Session.Sender, Session.FailRead)
             else Fail(Session.Sender, Session.FailSend);
    assert BySender(e) && Enabled(st, e);
  }

  // ---------------------------------------------------------------- replacement

  const CLEAR := Background(Session.Super(Session.Clear))

  const INSTALL := Background(Session.Super(Session.Install))

  /** A replacement is under way: the holder was emptied, and nothing installed since. */
  ghost predicate Replacing(ev: seq<Event>, k: nat)
    requires k <= |ev|
  {
    exists j :: 0 <= j < k && ev[j] == CLEAR && forall i :: j < i < k ==> ev[i] != INSTALL
  }

  lemma ReplacingOneMore(ev: seq<Event>, k: nat)
    requires k < |ev|
    ensures Replacing(ev, k + 1) <==> ev[k] == CLEAR || (Replacing(ev, k) && ev[k] != INSTALL)
  {
    if ev[k] == CLEAR {
      assert Replacing(ev, k + 1);
    } else if Replacing(ev, k) && ev[k] != INSTALL {
      var j :| 0 <= j < k && ev[j] == CLEAR && forall i :: j < i < k ==> ev[i] != INSTALL;
      assert forall i :: j < i < k + 1 ==> ev[i] != INSTALL;
    }
    if Replacing(ev, k + 1) && ev[k] != CLEAR {
      var j :| 0 <= j < k + 1 && ev[j] == CLEAR && forall i :: j < i < k + 1 ==> ev[i] != INSTALL;
      assert j < k && Replacing(ev, k);
    }
  }

  /** When the session in the holder changes. */
  lemma HolderStep(st: Session.State, e: Session.Event)
    requires Session.Enabled(st, e)
    ensures var st' := Session.Apply(st, e);
            && (e == Session.Super(Session.Clear) ==> Session.Started(st) && st'.holder.conn.None?)
            && (e == Session.Super(Session.Install) ==> Session.Started(st) && st'.holder.conn.Some?)
            && (e == Session.Main(Session.BootInstall) ==> !Session.Started(st) && st'.holder.conn.Some?)
            && (e != Session.Super(Session.Clear) && e != Session.Super(Session.Install)
                && e != Session.Main(Session.BootInstall)
                ==> st'.holder.conn == st.holder.conn && (Session.Started(st') <==> Session.Started(st)))
            && (Session.Started(st) ==> Session.Started(st'))
            && (e == Session.Main(Session.BootInstall) ==> Session.Started(st'))
  {
  }

  lemma AbsentStep(st: State, e: Event, st': State)
    requires Step(st, e, st')
    ensures Session.Started(st.ses) ==>
              && Session.Started(st'.ses)
              && (st'.ses.holder.conn.None? <==> e == CLEAR || (st.ses.holder.conn.None? && e != INSTALL))
    ensures !Session.Started(st.ses) ==> e != CLEAR && e != INSTALL
    ensures !Session.Started(st.ses) && Session.Started(st'.ses) ==> st'.ses.holder.conn.Some?
  {
    if SesPart(st, e).Some? {
      HolderStep(st.ses, SesPart(st, e).value);
    }
  }

  /** There is no session exactly while a replacement is under way. */
  lemma {:induction false} NoSessionExactly(run: seq<State>, ev: seq<Event>, k: nat)
    requires IsRun(run, ev) && k < |run|
    ensures Session.Started(run[k].ses) ==> (run[k].ses.holder.conn.None? <==> Replacing(ev, k))
    ensures !Session.Started(run[k].ses) ==> !Replacing(ev, k)
    decreases k
  {
    if k > 0 {
      NoSessionExactly(run, ev, k - 1);
      var st, e, st' := run[k - 1], ev[k - 1], run[k];
      assert Step(st, e, st');
      AbsentStep(st, e, st');
      ReplacingOneMore(ev, k - 1);
    }
  }

  // ---------------------------------------------------------------- packets and replacements

  /** At this step the packet meets its fate. */
  predicate Meets(st: State, e: Event, p: Nfq.Packet, fate: Nfq.Fate) {
    NfqPart(st, e).Some? && Nfq.Meets(st.nfq, NfqPart(st, e).value, p, fate)
  }

  ghost predicate Loses(run: seq<State>, ev: seq<Event>, n: nat, p: Nfq.Packet)
    requires |run| == |ev| + 1 && n <= |ev|
  {
    exists k, fate {:trigger Meets(run[k], ev[k], p, fate)} ::
      0 <= k < n && fate != Nfq.Sent && Meets(run[k], ev[k], p, fate)
  }

  /** The packets' own run, inside the first `n` steps of the whole. */
  lemma PacketRun(run: seq<State>, ev: seq<Event>, n: nat) returns (run': seq<Nfq.State>, ev': seq<Nfq.Event>)
    requires IsRun(run, ev) && n <= |ev|
    ensures run' == Runs.OwnStates(Packets, NfqPart, run, ev, n) && ev' == Runs.OwnEvents(NfqPart, run, ev, n)
    ensures Nfq.IsRun(run', ev') && run'[|ev'|] == run[n].nfq
  {
    run', ev' := Runs.OwnStates(Packets, NfqPart, run, ev, n), Runs.OwnEvents(NfqPart, run, ev, n);
    NfqComponent();
    Runs.OwnRun(Initial, Step, Nfq.Initial, Nfq.Step, Packets, NfqPart, run, ev, n);
  }

  lemma PacketAt(run: seq<State>, ev: seq<Event>, i: nat, n: nat)
    requires IsRun(run, ev) && i < n <= |ev| && NfqPart(run[i], ev[i]).Some?
    ensures var k, run', ev' := Runs.Taken(NfqPart, run, ev, i),
                                Runs.OwnStates(Packets, NfqPart, run, ev, n), Runs.OwnEvents(NfqPart, run, ev, n);
            k < |ev'| && run'[k] == run[i].nfq && ev'[k] == NfqPart(run[i], ev[i]).value
  {
    NfqComponent();
    Runs.OwnState(Initial, Step, Nfq.Initial, Nfq.Step, Packets, NfqPart, run, ev, i, n);
    Runs.OwnEvent(NfqPart, run, ev, i, n);
  }

  lemma LosesOwn(run: seq<State>, ev: seq<Event>, n: nat, p: Nfq.Packet,
                 run': seq<Nfq.State>, ev': seq<Nfq.Event>)
    requires IsRun(run, ev) && n <= |ev|
    requires run' == Runs.OwnStates(Packets, NfqPart, run, ev, n) && ev' == Runs.OwnEvents(NfqPart, run, ev, n)
    ensures Nfq.Loses(run', ev', |ev'|, p) <==> Loses(run, ev, n, p)
  {
    if Nfq.Loses(run', ev', |ev'|, p) {
      var k, fate :| 0 <= k < |ev'| && fate != Nfq.Sent && Nfq.Meets(run'[k], ev'[k], p, fate);
      var i := Runs.WholeStep(NfqPart, run, ev, k, n);
      PacketAt(run, ev, i, n);
      assert Meets(run[i], ev[i], p, fate);
    }
    if Loses(run, ev, n, p) {
      var i, fate :| 0 <= i < n && fate != Nfq.Sent && Meets(run[i], ev[i], p, fate);
      PacketAt(run, ev, i, n);
      assert Nfq.Meets(run'[Runs.Taken(NfqPart, run, ev, i)], ev'[Runs.Taken(NfqPart, run, ev, i)], p, fate);
    }
  }

  /** What can keep the packet from being sent: a full queue, a replacement, a failed write. */
  ghost predicate Obstructed(run: seq<State>, ev: seq<Event>, k: nat, p: Nfq.Packet)
    requires |run| == |ev| + 1 && k < |ev|
  {
    var f := run[k].nfq.flow;
    || (ev[k] == Kernel(Nfq.Call(Nfq.Enqueue)) && f.call == Nfq.Filled(p) && |f.queue| >= f.depth)
    || (ev[k] == Turn && f.hand == Nfq.Held(p) && Replacing(ev, k))
    || (ev[k].Write? && !ev[k].ok && f.hand == Nfq.Held(p))
  }

  lemma ObstructedExactly(run: seq<State>, ev: seq<Event>, k: nat, p: Nfq.Packet)
    requires IsRun(run, ev) && k < |ev|
    ensures Obstructed(run, ev, k, p) <==> exists fate :: fate != Nfq.Sent && Meets(run[k], ev[k], p, fate)
  {
    var st, e := run[k], ev[k];
    assert Step(st, e, run[k + 1]);
    NoSessionExactly(run, ev, k);
    if Obstructed(run, ev, k, p) {
      var fate := if e.Turn? then Nfq.Sessionless else if e.Write? then Nfq.Unwritable else Nfq.Overflow;
      assert Meets(st, e, p, fate);
    }
  }

  /**
   * Exactly when a captured packet is not sent. A packet no longer on its way has been sent as
   * often as it was handed over if and only if it never met a full queue, its turn never fell
   * into a replacement of the session, and no write of it failed.
   */
  lemma NotSentExactly(run: seq<State>, ev: seq<Event>, n: nat, p: Nfq.Packet)
    requires IsRun(run, ev) && n < |run| && Nfq.Pending(run[n].nfq.flow, p) == 0
    ensures multiset(run[n].nfq.flow.written)[p] < multiset(run[n].nfq.flow.arrived)[p]
            <==> exists k :: 0 <= k < n && Obstructed(run, ev, k, p)
  {
    var run', ev' := PacketRun(run, ev, n);
    Nfq.NotSentExactly(run', ev', |ev'|, p);
    LosesOwn(run, ev, n, p, run', ev');
    forall k | 0 <= k < n
      ensures Obstructed(run, ev, k, p) <==> exists fate :: fate != Nfq.Sent && Meets(run[k], ev[k], p, fate)
    {
      ObstructedExactly(run, ev, k, p);
    }
  }

  // ---------------------------------------------------------------- a packet lost in a replacement

  ghost predicate Reachable(st: State) {
    Runs.Reachable(Initial, Step, st)
  }

  lemma Next(st: State, e: Event) returns (st': State)
    requires Reachable(st) && Enabled(st, e)
    ensures st' == Apply(st, e) && Reachable(st')
  {
    st' := Apply(st, e);
    Runs.ReachableStep(Initial, Step, st, e, st');
  }

  lemma Behind(st: State, b: Session.Event) returns (st': State)
    requires Reachable(st) && !st.nfq.crashed && Session.Enabled(st.ses, b) && !b.User?
    ensures st' == st.(ses := Session.Apply(st.ses, b)) && Reachable(st')
  {
    st' := Next(st, Background(b));
  }

  lemma Below(st: State, k: Nfq.Event) returns (st': State)
    requires Reachable(st) && st.ses.deferred.None? && Nfq.Enabled(st.nfq, k) && !k.Send?
    ensures st' == st.(nfq := Nfq.Apply(st.nfq, k)) && Reachable(st')
  {
    st' := Next(st, Kernel(k));
  }

  /** Session 0 is up and a packet waits in the queue. */
  lemma OneQueued(leaf: Leaf, depth: nat, p: Nfq.Packet) returns (st: State)
    requires depth > 0 && p.bytes != [] && !Nfq.Oversized(p)
    ensures Reachable(st) && !st.nfq.crashed && st.nfq.flow.hand.Free?
    ensures st.nfq.flow.queue == st.nfq.flow.arrived == [p] && st.nfq.flow.written == [] && st.nfq.flow.drops == []
    ensures st.ses == Session.State(Session.Delegated, leaf, Session.SvidIdle, false, false,
                                    Session.Holder(Some(0), Session.Empty), Session.AtSelect, Session.Idle,
                                    Session.Idle, [leaf], [], {}, 1, 0, Some(0), None)
  {
    st := Init(Session.Delegated, leaf, depth, 0, 0);
    Runs.ReachableStart(Initial, Step, st);
    st := Behind(st, Session.Main(Session.BootHandshake));
    st := Behind(st, Session.Main(Session.BootInstall));
    st := Below(st, Nfq.Call(Nfq.Begin(p, 0)));
    st := Below(st, Nfq.Call(Nfq.Copy));
    st := Below(st, Nfq.Call(Nfq.Enqueue));
  }

  /** A rotation, up to the emptied holder. */
  lemma Emptied(st: State, leaf': Leaf) returns (st': State)
    requires Reachable(st) && !st.nfq.crashed && st.ses.deferred.None? && st.ses.source.Delegated?
    requires st.ses.svid.SvidIdle? && st.ses.sup.AtSelect? && st.ses.leaf != leaf'
    ensures Reachable(st')
    ensures st' == st.(ses := st.ses.(leaf := leaf', holder := st.ses.holder.(conn := None), rotated := false,
                                      sup := Session.Cleared(Session.Rotation, st.ses.holder.conn)))
  {
    st' := Behind(st, Session.Stream(Session.Publish(leaf')));
    st' := Behind(st', Session.Stream(Session.Signal));
    st' := Behind(st', Session.Super(Session.TakeRotation));
    st' := Behind(st', Session.Super(Session.ReadOld));
    st' := Behind(st', Session.Super(Session.Clear));
  }

  /**
   * Packets do not wait out a replacement: one that is in the queue when a rotation empties
   * the holder is dropped at its turn, although the next session comes up right afterwards.
   */
  lemma LostInReplacement(leaf: Leaf, leaf': Leaf, depth: nat, p: Nfq.Packet) returns (st: State)
    requires leaf != leaf' && depth > 0 && p.bytes != [] && !Nfq.Oversized(p)
    ensures Reachable(st) && st.ses.sup.AtSelect? && st.ses.holder.conn == Some(1)
    ensures st.ses.leaves == [leaf, leaf'] && |st.ses.closes| == 1
    ensures st.nfq.flow.arrived == [p] && st.nfq.flow.drops == [p] && st.nfq.flow.written == []
  {
    st := OneQueued(leaf, depth, p);
    st := Emptied(st, leaf');
    st := Next(st, Take);
    st := Next(st, Turn);
    st := Behind(st, Session.Super(Session.CloseOld));
    st := Behind(st, Session.Super(Session.Handshake));
    st := Behind(st, Session.Super(Session.Install));
  }

  // ---------------------------------------------------------------- a one-way session

  /** The receiver's clock, inside the first `n` steps of the whole. */
  lemma ClockRun(run: seq<State>, ev: seq<Event>, n: nat) returns (run': seq<Liveness.State>, ev': seq<Liveness.Event>)
    requires IsRun(run, ev) && n <= |ev|
    ensures run' == Runs.OwnStates(Clock, LivePart, run, ev, n) && ev' == Runs.OwnEvents(LivePart, run, ev, n)
    ensures Liveness.IsRun(run', ev') && run'[|ev'|] == run[n].live
  {
    run', ev' := Runs.OwnStates(Clock, LivePart, run, ev, n), Runs.OwnEvents(LivePart, run, ev, n);
    LiveComponent();
    Runs.OwnRun(Initial, Step, Liveness.Initial, Liveness.Step, Clock, LivePart, run, ev, n);
  }

  lemma ClockAt(run: seq<State>, ev: seq<Event>, i: nat, n: nat)
    requires IsRun(run, ev) && i < n <= |ev| && LivePart(run[i], ev[i]).Some?
    ensures var k, run', ev' := Runs.Taken(LivePart, run, ev, i),
                                Runs.OwnStates(Clock, LivePart, run, ev, n), Runs.OwnEvents(LivePart, run, ev, n);
            k < |ev'| && run'[k] == run[i].live && ev'[k] == LivePart(run[i], ev[i]).value
  {
    LiveComponent();
    Runs.OwnState(Initial, Step, Liveness.Initial, Liveness.Step, Clock, LivePart, run, ev, i, n);
    Runs.OwnEvent(LivePart, run, ev, i, n);
  }

  /** At this step the receiver starts afresh or reports. */
  predicate Disturbs(st: State, e: Event) {
    var l := LivePart(st, e);
    l.Some? && (Liveness.Rebases(st.live, l.value) || l.value.Error?)
  }

  /**
   * A packet written and counted and then no answer: as long as the receiver has neither
   * heard anything, nor missed the session, nor reported, not much more than the tolerated
   * silence has passed.
   */
  lemma SilenceIsReported(run: seq<State>, ev: seq<Event>, k: nat, n: nat)
    requires IsRun(run, ev) && k < n < |run| && ev[k].Verdict? && Counts(run[k].nfq.flow.hand)
    requires forall i {:trigger Disturbs(run[i], ev[i])} :: k < i < n ==> !Disturbs(run[i], ev[i])
    ensures run[n].live.now <= Liveness.Max(run[n].live.lastRecv + Liveness.DEAD_AFTER, ev[k].t)
                               + Liveness.POLL + run[n].live.jitter
  {
    var run', ev' := ClockRun(run, ev, n);
    var k' := Runs.Taken(LivePart, run, ev, k);
    ClockAt(run, ev, k, n);
    forall j | k' < j < |ev'| ensures !Liveness.Rebases(run'[j], ev'[j]) && !ev'[j].Error? {
      var i := Runs.WholeStep(LivePart, run, ev, j, n);
      ClockAt(run, ev, i, n);
      if i <= k {
        LiveComponent();
        Runs.OwnState(Initial, Step, Liveness.Initial, Liveness.Step, Clock, LivePart, run, ev, i, k);
      }
      assert !Disturbs(run[i], ev[i]);
    }
    assert Liveness.Undisturbed(run', ev', k', |ev'|);
    Liveness.SilenceIsReported(run', ev', k', |ev'|);
  }

  predicate BySupervisor(e: Event) {
    e.Background? && e.b.Super?
  }

  function SupervisorSteps(ev: seq<Event>): nat {
    Runs.Steps(BySupervisor, ev)
  }

  lemma SafeStep(st: State, e: Event, st': State)
    requires SessionSafety.Safe(st.ses) && Step(st, e, st')
    ensures SessionSafety.Safe(st'.ses)
  {
    if SesPart(st, e).Some? {
      SessionSafety.SafeStep(st.ses, SesPart(st, e).value, st'.ses);
    }
  }

  lemma SafeAlong(run: seq<State>, ev: seq<Event>, n: nat)
    requires IsRun(run, ev) && n < |run|
    ensures SessionSafety.Safe(run[n].ses)
  {
    SessionSafety.SafeInit(run[0].ses);
    forall st: State, e: Event, st': State | SessionSafety.Safe(st.ses) && Step(st, e, st')
      ensures SessionSafety.Safe(st'.ses)
    {
      SafeStep(st, e, st');
    }
    Runs.Along(Initial, Step, (st: State) => SessionSafety.Safe(st.ses), run, ev, 0, n);
  }

  lemma NotDialling(st: Session.State, s: nat)
    requires SessionSafety.Safe(st) && !SessionProgress.GivenUp(st, s)
    ensures !SessionProgress.Dialling(st)
    ensures SessionProgress.Due(st) ==> 2 <= SessionProgress.Rank(st) <= SessionProgress.MAX_RANK
  {
  }

  ghost predicate Due(st: State) {
    SessionSafety.Safe(st.ses) && SessionProgress.Due(st.ses)
  }

  predicate GivenUp(st: State, s: nat) {
    SessionProgress.GivenUp(st.ses, s)
  }

  function Rank(st: State): nat {
    SessionProgress.Rank(st.ses)
  }

  /** Steps outside the protocol neither help nor hinder the supervisor. */
  lemma DueStep(st: State, e: Event, st': State, s: nat)
    requires Due(st) && Step(st, e, st') && !GivenUp(st', s)
    ensures Due(st') && Rank(st') + (if BySupervisor(e) then 1 else 0) <= Rank(st)
  {
    SafeStep(st, e, st');
    NotDialling(st'.ses, s);
    if SesPart(st, e).Some? {
      SessionProgress.DueStep(st.ses, SesPart(st, e).value, st'.ses);
    }
  }

  lemma StillDue(run: seq<State>, ev: seq<Event>, i: nat, j: nat, s: nat)
    requires IsRun(run, ev) && i <= j < |run| && Due(run[i])
    requires forall k {:trigger GivenUp(run[k], s)} :: i <= k <= j ==> !GivenUp(run[k], s)
    ensures Due(run[j]) && Rank(run[j]) + SupervisorSteps(ev[i..j]) <= Rank(run[i])
  {
    forall st: State, e: Event, st': State | Due(st) && Step(st, e, st') && !GivenUp(st', s)
      ensures Due(st') && Rank(st') + (if BySupervisor(e) then 1 else 0) <= Rank(st)
    {
      DueStep(st, e, st', s);
    }
    var stop := (st: State) => GivenUp(st, s);
    assert forall k {:trigger stop(run[k])} :: i <= k <= j ==> !stop(run[k]);
    Runs.Descends(Initial, Step, Due, stop, Rank, BySupervisor, run, ev, i, j);
  }

  /** The receiver is on its way to report session `s`, or has found it replaced. */
  predicate Accusing(pc: Session.WorkerPc, s: nat) {
    pc == Session.Failing(s) || pc == Session.Reporting(s) || pc.Idle?
  }

  lemma WorkerUntouched(st: Session.State, e: Session.Event, who: Session.Who)
    requires Session.Enabled(st, e) && !(e.User? && e.who == who)
    ensures Session.Worker(Session.Apply(st, e), who) == Session.Worker(st, who)
  {
    match e
    case Stream(_) =>
    case Main(_) =>
    case Super(_) =>
    case User(_, _) =>
  }

  /** The user reads the session anew. */
  predicate Gets(e: Event, who: Session.Who) {
    if who.Sender? then e.Turn? else e.Look?
  }

  /**
   * The user's write fails, or its read: at once, or by silence after something was sent; and
   * it was using session `s`.
   */
  predicate Accuses(st: State, e: Event, who: Session.Who, s: nat) {
    && Session.Worker(st.ses, who) == Session.Holding(s)
    && if who.Sender? then e.Write? && !e.ok
       else e.Read? && (e.r.Error? || Liveness.TimeoutReports(st.live, e.r))
  }

  lemma AccusingStep(st: State, e: Event, st': State, who: Session.Who, s: nat)
    requires Accusing(Session.Worker(st.ses, who), s) && Step(st, e, st') && !Gets(e, who)
    ensures Accusing(Session.Worker(st'.ses, who), s)
  {
    var x := SesPart(st, e);
    if x.Some? && !(x.value.User? && x.value.who == who) {
      WorkerUntouched(st.ses, x.value, who);
    }
  }

  /**
   * What a read or write does to the session it used: it is accused exactly when the write
   * failed, the read failed, or the read timed out on a session inferred to be dead; in every
   * other case the user goes on and nobody is blamed.
   */
  lemma AccusedExactly(run: seq<State>, ev: seq<Event>, n: nat, who: Session.Who, s: nat)
    requires IsRun(run, ev) && n < |ev| && Session.Worker(run[n].ses, who) == Session.Holding(s)
    requires if who.Sender? then ev[n].Write? else ev[n].Read?
    ensures var st' := run[n + 1];
            if Accuses(run[n], ev[n], who, s) then
              Session.Worker(st'.ses, who) == Session.Failing(s) && st'.ses.failed == run[n].ses.failed + {s}
            else Session.Worker(st'.ses, who).Idle? && st'.ses.failed == run[n].ses.failed
  {
    assert Step(run[n], ev[n], run[n + 1]);
  }

  lemma {:induction false} AccusingAlong(run: seq<State>, ev: seq<Event>, i: nat, m: nat, who: Session.Who, s: nat)
    requires IsRun(run, ev) && i <= m < |run| && Accusing(Session.Worker(run[i].ses, who), s)
    requires forall k :: i <= k < m ==> !Gets(ev[k], who)
    ensures Accusing(Session.Worker(run[m].ses, who), s)
    decreases m
  {
    if i < m {
      AccusingAlong(run, ev, i, m - 1, who, s);
      var st, e, st' := run[m - 1], ev[m - 1], run[m];
      assert Step(st, e, st');
      AccusingStep(st, e, st', who, s);
    }
  }

  /** A report of the installed session into a free slot makes it due for replacement. */
  lemma ReportHeard(st: State, st': State, who: Session.Who, s: nat)
    requires SessionSafety.Safe(st.ses) && Step(st, Fail(who, Session.FailSend), st')
    requires Session.Worker(st.ses, who) == Session.Reporting(s) && st.ses.holder.bad.Empty? && !GivenUp(st, s)
    ensures Due(st')
  {
    SafeStep(st, Fail(who, Session.FailSend), st');
    SessionProgress.ReportHeardExactly(st.ses, who, st'.ses, s);
  }

  lemma ReportedGivenUp(run: seq<State>, ev: seq<Event>, m: nat, j: nat, who: Session.Who, s: nat)
    requires IsRun(run, ev) && m < j < |run|
    requires ev[m] == Fail(who, Session.FailSend) && Session.Worker(run[m].ses, who) == Session.Reporting(s)
    requires run[m].ses.holder.bad.Empty? && SupervisorSteps(ev[m + 1..j]) >= SessionProgress.MAX_RANK - 1
    ensures exists i {:trigger GivenUp(run[i], s)} :: m <= i <= j && GivenUp(run[i], s)
  {
    if forall i {:trigger GivenUp(run[i], s)} :: m <= i <= j ==> !GivenUp(run[i], s) {
      assert !GivenUp(run[m], s) && !GivenUp(run[m + 1], s) && !GivenUp(run[j], s);
      SafeAlong(run, ev, m);
      assert Step(run[m], ev[m], run[m + 1]);
      ReportHeard(run[m], run[m + 1], who, s);
      StillDue(run, ev, m + 1, j, s);
      NotDialling(run[m + 1].ses, s);
      NotDialling(run[j].ses, s);
      assert false;
    }
  }

  /**
   * A broken or one-way session is given up: once a failed write, a failed read or the
   * receiver's timeout has accused session `s`, and the report that follows goes into a free
   * slot, the session is out of the holder, or the supervisor has stopped, within eleven
   * supervisor steps.
   */
  lemma AccusedSessionGivenUp(run: seq<State>, ev: seq<Event>, n: nat, m: nat, j: nat, who: Session.Who, s: nat)
    requires IsRun(run, ev) && n < m < j < |run| && Accuses(run[n], ev[n], who, s)
    requires ev[m] == Fail(who, Session.FailSend) && forall i :: n < i < m ==> !Gets(ev[i], who)
    requires run[m].ses.holder.bad.Empty? && SupervisorSteps(ev[m + 1..j]) >= SessionProgress.MAX_RANK - 1
    ensures exists i {:trigger GivenUp(run[i], s)} :: m <= i <= j && GivenUp(run[i], s)
  {
    AccusedExactly(run, ev, n, who, s);
    AccusingAlong(run, ev, n + 1, m, who, s);
    assert Step(run[m], ev[m], run[m + 1]);
    ReportedGivenUp(run, ev, m, j, who, s);
  }

  /** The receiver starts afresh here. */
  predicate Afresh(st: State, e: Event) {
    || (e.Read? && e.r.Record?)
    || (e.Look? && st.ses.holder.conn.None?)
    || (e.Read? && Liveness.TimeoutReports(st.live, e.r))
  }

  function At(e: Event): Time
    requires e.Read? || e.Look?
  {
    if e.Read? then e.r.t else e.t
  }

  /**
   * And it is given up for silence only after silence: a timeout accuses no session within the
   * limit of a record, of a look that found no session, or of the last timeout that did.
   */
  lemma OnlyAfterSilence(run: seq<State>, ev: seq<Event>, j: nat, n: nat)
    requires IsRun(run, ev) && j < n < |ev| && Afresh(run[j], ev[j])
    requires ev[n].Read? && Liveness.TimeoutReports(run[n].live, ev[n].r)
    ensures At(ev[j]) + Liveness.DEAD_AFTER < ev[n].r.t
  {
    var run', ev' := ClockRun(run, ev, n);
    ClockAt(run, ev, j, n);
    Liveness.AfreshBeforeBaseline(run', ev', |ev'|, Runs.Taken(LivePart, run, ev, j));
  }
}
