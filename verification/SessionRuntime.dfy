/**
 * The session replacement protocol as it runs: the `connHolder` object, the supervisor as the
 * loop it is, and the other goroutines around it, under any schedule of the module Session.
 */
module SessionRuntime {
  import opened Common
  import Runs
  import opened Session
  import opened SessionSafety

  class ConnHolder {
    var conn: Conn
    var bad: Slot
    var made: bool   // the `bad` channel exists

    ghost function Value(): Holder
      reads this
    {
      Holder(conn, bad)
    }

    constructor ()
      ensures Value() == Holder(None, Empty) && !made
    {
      conn, bad, made := None, Empty, false;
    }

    method Get() returns (c: Conn)
      ensures c == conn
    {
      c := conn;
    }

    /** Installs a session: `main` its first one, the supervisor every later one. */
    method Set(c: nat, ghost st: State)
      requires st.holder == Value() && (st.sup == Handshaken(c) || st.sup == BootDone(c))
      modifies this
      ensures made && Value().bad == old(bad)
      ensures st.sup.Handshaken? ==> Value() == ApplySup(st, Install).holder
      ensures st.sup.BootDone? ==> Value() == ApplyMain(st, BootInstall).holder
    {
      conn := Some(c);
      made := true;
    }

    /** The locked first half of `fail`: whether the report is still worth sending. */
    method FailRead(c: nat, ghost st: State, ghost who: Who) returns (report: bool)
      requires st.holder == Value() && Worker(st, who) == Failing(c)
      ensures made ==>
                (report <==> Worker(ApplyUser(st, who, UserStep.FailRead), who) == Reporting(c))
      ensures report ==> made
    {
      report := conn == Some(c) && made;
    }

    /** The second half of `fail`, after the lock is released: a send that never blocks. */
    method FailSend(c: nat, ghost st: State, ghost who: Who)
      requires st.holder == Value() && Worker(st, who) == Reporting(c)
      modifies this`bad
      ensures Value() == ApplyUser(st, who, UserStep.FailSend).holder
    {
      if bad.Empty? {
        bad := Full(Some(c));
      }
    }

    /**
     * `fail` when nothing intervenes between its halves: reporting a session that is not
     * the installed one changes nothing, and reporting the installed one twice is the same
     * as reporting it once.
     */
    method Fail(c: nat)
      modifies this`bad
      ensures Value() == if old(conn) == Some(c) && made
                         then old(Value()).(bad := Offer(old(bad), Some(c))) else old(Value())
      ensures old(conn) != Some(c) ==> Value() == old(Value())
      ensures old(bad) == Full(Some(c)) ==> Value() == old(Value())
    {
      if conn == Some(c) && made {
        if bad.Empty? {
          bad := Full(Some(c));
        }
      }
    }

    /** The receive case of the supervisor's select. */
    method TakeReport(ghost st: State) returns (c: Conn)
      requires st.holder == Value() && st.sup.AtSelect? && bad.Full?
      modifies this`bad
      ensures Value() == ApplySup(st, TakeBad).holder && ApplySup(st, TakeBad).sup == GotBad(c)
    {
      c := bad.token;
      bad := Empty;
    }

    /** The supervisor empties the holder before it closes the session. */
    method Vacate(ghost st: State)
      requires st.holder == Value() && st.sup.Have?
      modifies this`conn
      ensures Value() == ApplySup(st, Clear).holder
    {
      conn := None;
    }

    /** After a failed re-establishment the supervisor leaves itself a token. */
    method LeaveRetryToken(ghost st: State) returns (left: bool)
      requires st.holder == Value() && st.sup.Backoff?
      modifies this`bad
      ensures Value() == ApplySup(st, PutBack).holder
      ensures left <==> old(bad).Empty?
    {
      left := bad.Empty?;
      if left {
        bad := Full(None);
      }
    }
  }

  /**
   * The process under a given schedule: the holder, the variables of the SVID stream, of
   * `main` and of the two users of the session, and in `Supervise` the supervisor itself.
   * The schedule says whose step is next, and what the environment decides.
   */
  class Process {
    const h: ConnHolder
    const source: Source
    const ev: seq<Event>
    ghost const run: seq<State>
    var pos: nat
    var leaf: Leaf
    var svid: SvidPc
    var rotated: bool
    var cancelled: bool
    var sender: WorkerPc
    var receiver: WorkerPc
    var dialled: nat
    var closed: seq<nat>              // sessions closed so far, by whoever closed them
    var mine: Conn                    // `main`'s first session, once it is open
    var returned: bool
    ghost var st: State

    /** Where the schedule has come to. */
    ghost predicate OnTrack()
      reads this
    {
      IsRun(run, ev) && pos <= |ev| && st == run[pos]
    }

    /** The variables are those of the protocol's state; the supervisor's are its own. */
    ghost predicate Holds()
      reads this, h
    {
      && h.Value() == st.holder && source == st.source
      && leaf == st.leaf && svid == st.svid && rotated == st.rotated && cancelled == st.cancelled
      && sender == st.sender && receiver == st.receiver && mine == st.mine
      && dialled == |st.leaves| && closed == AllCloses(st) && (returned <==> st.deferred.Some?)
      && (Started(st) || !sender.Idle? || !receiver.Idle? ==> h.made)
      && (st.sup.BootDone? ==> mine == Some(st.sup.made))
    }

    constructor (source: Source, leaf: Leaf, ev: seq<Event>, ghost run: seq<State>)
      requires IsRun(run, ev) && run[0] == Init(source, leaf)
      ensures Holds() && OnTrack() && st == Init(source, leaf) && fresh(h) && this.ev == ev && this.run == run
    {
      h := new ConnHolder();
      this.source, this.leaf, svid, rotated, cancelled := source, leaf, SvidIdle, false, false;
      sender, receiver, dialled, closed, mine, returned := Idle, Idle, 0, [], None, false;
      this.ev, this.run, pos, st := ev, run, 0, Init(source, leaf);
    }

    // -------------------------------------------------------------- the other goroutines

    method OnStream(x: StreamStep)
      requires Holds() && Enabled(st, Stream(x))
      modifies this`leaf, this`svid, this`rotated, this`st
      ensures Holds() && st == Apply(old(st), Stream(x))
    {
      match x {
        case Publish(l) =>
          svid := SvidUnlocked(l != leaf);
          leaf := l;
        case Signal =>
          if svid.renewed && !rotated {
            rotated := true;
          }
          svid := SvidIdle;
        case Refresh(l) => leaf := l;
      }
      st := Apply(st, Stream(x));
    }

    method OnMain(x: MainStep)
      requires Holds() && Enabled(st, Main(x))
      modifies this`mine, this`dialled, this`cancelled, this`closed, this`returned, this`st, h
      ensures Holds() && st == Apply(old(st), Main(x))
    {
      match x {
        case BootHandshake => mine, dialled := Some(dialled), dialled + 1;
        case BootInstall => h.Set(mine.value, st);
        case Cancel => cancelled := true;
        case Return => closed, returned := closed + [mine.value], true;
      }
      st := Apply(st, Main(x));
    }

    /** The variable of one user of the session. */
    method SetUser(who: Who, pc: WorkerPc)
      modifies this`sender, this`receiver
      ensures sender == (if who.Sender? then pc else old(sender))
      ensures receiver == (if who.Sender? then old(receiver) else pc)
    {
      if who.Sender? {
        sender := pc;
      } else {
        receiver := pc;
      }
    }

    /** A user reads the session, or its read or write is over. */
    method OnUse(who: Who, x: UserStep)
      requires Holds() && Enabled(st, User(who, x)) && (x.Get? || x.Done? || x.IoError?)
      modifies this`sender, this`receiver, this`st
      ensures Holds() && st == Apply(old(st), User(who, x))
    {
      if x.Get? {
        var c := h.Get();
        SetUser(who, if c.Some? then Holding(c.value) else Idle);
      } else if x.Done? {
        SetUser(who, Idle);
      } else {
        SetUser(who, Failing(if who.Sender? then sender.s else receiver.s));
      }
      st := Apply(st, User(who, x));
    }

    /** A user reports the session. */
    method OnFail(who: Who, x: UserStep)
      requires Holds() && Enabled(st, User(who, x)) && (x.FailRead? || x.FailSend?)
      modifies this`sender, this`receiver, this`st, h
      ensures Holds() && st == Apply(old(st), User(who, x))
    {
      var s := if who.Sender? then sender.s else receiver.s;
      if x.FailRead? {
        var report := h.FailRead(s, st, who);
        SetUser(who, if report then Reporting(s) else Idle);
      } else {
        h.FailSend(s, st, who);
        SetUser(who, Idle);
      }
      st := Apply(st, User(who, x));
    }

    /** One step of another goroutine than the supervisor. */
    method Other()
      requires Holds() && OnTrack() && pos < |ev| && !ev[pos].Super?
      modifies this, h
      ensures Holds() && OnTrack() && pos == old(pos) + 1
      ensures st == Apply(old(st), ev[old(pos)])
    {
      ghost var e, st' := ev[pos], run[pos + 1];
      assert Session.Step(st, e, st');
      match ev[pos] {
        case Stream(x) => OnStream(x);
        case Main(x) => OnMain(x);
        case User(who, x) =>
          if x.FailRead? || x.FailSend? {
            OnFail(who, x);
          } else {
            OnUse(who, x);
          }
      }
      pos := pos + 1;
    }

    // -------------------------------------------------------------- the supervisor

    /**
     * The others run until it is the supervisor's turn, or the schedule ends. Wherever the
     * supervisor is, it is still there.
     */
    method Await() returns (x: Option<SupStep>)
      requires Holds() && OnTrack()
      modifies this, h
      ensures Holds() && OnTrack() && pos >= old(pos)
      ensures x.None? ==> pos == |ev|
      ensures x.Some? ==> pos < |ev| && ev[pos] == Super(x.value) && SupEnabled(st, x.value)
      ensures Started(old(st)) ==> st.sup == old(st).sup
      ensures !Started(old(st)) && x.Some? ==> st.sup.AtSelect?
    {
      ghost var began := st;
      while pos < |ev| && !ev[pos].Super?
        invariant Holds() && OnTrack() && pos >= old(pos)
        invariant Started(began) ==> st.sup == began.sup
        invariant !Started(began) ==> !Started(st) || st.sup.AtSelect?
      {
        ghost var before, e := st, ev[pos];
        Other();
        OthersKeepSup(before, e);
      }
      if pos == |ev| {
        x := None;
      } else {
        ghost var e, st' := ev[pos], run[pos + 1];
        assert Session.Step(st, e, st');
        x := Some(ev[pos].sup);
      }
    }

    /** The step just made was the one scheduled. */
    ghost method Did(x: SupStep)
      requires OnTrack() && pos < |ev| && ev[pos] == Super(x)
      modifies this`st
      ensures SupEnabled(old(st), x) && st == ApplySup(old(st), x) && st == run[pos + 1]
    {
      ghost var st' := run[pos + 1];
      assert Session.Step(st, ev[pos], st');
      st := ApplySup(st, x);
    }

    /** The select, and for a report the comparison; true when the session is to be replaced. */
    method Choose() returns (replace: bool, stop: bool)
      requires Holds() && OnTrack() && st.sup.AtSelect?
      modifies this, h
      ensures Holds() && OnTrack() && pos >= old(pos)
      ensures replace && !stop ==> st.sup.Committed? && pos > old(pos)
      ensures !replace && !stop ==> st.sup.AtSelect? && pos > old(pos)
      ensures stop ==> pos == |ev| || st.sup.Stopped?
    {
      var x := Await();
      replace, stop := false, x.None? || x.value.TakeDone?;
      if x.None? {
        return;
      }
      if x.value.TakeDone? {
        Did(TakeDone);
        pos := pos + 1;
      } else if x.value.TakeRotation? {
        rotated := false;
        Did(TakeRotation);
        pos, replace := pos + 1, true;
      } else {
        var c := Receive();
        replace, stop := Compare(c);
      }
    }

    /** The receive case of the select. */
    method Receive() returns (c: Conn)
      requires Holds() && OnTrack() && pos < |ev| && ev[pos] == Super(TakeBad) && SupEnabled(st, TakeBad)
      modifies this`st, this`pos, h
      ensures Holds() && OnTrack() && pos == old(pos) + 1 && st.sup == GotBad(c)
    {
      c := h.TakeReport(st);
      Did(TakeBad);
      pos := pos + 1;
    }

    /** A report is about the session in use, or about one already replaced. */
    method Compare(c: Conn) returns (replace: bool, stop: bool)
      requires Holds() && OnTrack() && st.sup == GotBad(c)
      modifies this, h
      ensures Holds() && OnTrack() && pos >= old(pos)
      ensures replace && !stop ==> st.sup.Committed?
      ensures !replace && !stop ==> st.sup.AtSelect?
      ensures stop ==> pos == |ev|
    {
      var x := Await();
      replace, stop := false, x.None?;
      if !stop {
        var current := h.Get();
        replace := c == current;
        Did(SupStep.Compare);
        pos := pos + 1;
      }
    }

    /** The old session is taken out of the holder and closed. */
    method GiveUp() returns (stop: bool)
      requires Holds() && OnTrack() && st.sup.Committed?
      modifies this, h
      ensures Holds() && OnTrack() && pos >= old(pos)
      ensures if stop then pos == |ev| else st.sup.Connecting?
    {
      var x := Await();
      stop := x.None?;
      if stop {
        return;
      }
      var prev := h.Get();
      Did(ReadOld);
      pos := pos + 1;
      stop := Empty(prev);
      if !stop {
        stop := Close(prev);
      }
    }

    method Empty(prev: Conn) returns (stop: bool)
      requires Holds() && OnTrack() && st.sup.Have? && st.sup.prev == prev
      modifies this, h
      ensures Holds() && OnTrack() && pos >= old(pos)
      ensures if stop then pos == |ev| else st.sup.Cleared? && st.sup.prev == prev
    {
      var x := Await();
      stop := x.None?;
      if !stop {
        h.Vacate(st);
        Did(Clear);
        pos := pos + 1;
      }
    }

    method Close(prev: Conn) returns (stop: bool)
      requires Holds() && OnTrack() && st.sup.Cleared? && st.sup.prev == prev
      modifies this, h
      ensures Holds() && OnTrack() && pos >= old(pos)
      ensures if stop then pos == |ev| else st.sup.Connecting?
    {
      var x := Await();
      stop := x.None?;
      if !stop {
        if prev.Some? {
          closed := closed + [prev.value];
        }
        Did(CloseOld);
        pos := pos + 1;
      }
    }

    /** `connect`, and whatever follows its outcome. */
    method Reconnect() returns (stop: bool)
      requires Holds() && OnTrack() && st.sup.Connecting?
      modifies this, h
      ensures Holds() && OnTrack() && pos >= old(pos)
      ensures if stop then pos == |ev| || st.sup.Stopped? else st.sup.AtSelect?
    {
      var x := Await();
      stop := x.None?;
      if stop {
        return;
      }
      if x.value.Handshake? {
        var made := dialled;
        dialled := dialled + 1;
        Did(Handshake);
        pos := pos + 1;
        stop := Install(made);
      } else {
        stop := cancelled;
        Did(ConnectFail);
        pos := pos + 1;
        if !stop {
          stop := PutBack();
        }
      }
    }

    method Install(made: nat) returns (stop: bool)
      requires Holds() && OnTrack() && st.sup == Handshaken(made)
      modifies this, h
      ensures Holds() && OnTrack() && pos >= old(pos)
      ensures if stop then pos == |ev| else st.sup.AtSelect?
    {
      var x := Await();
      stop := x.None?;
      if !stop {
        h.Set(made, st);
        Did(SupStep.Install);
        pos := pos + 1;
      }
    }

    method PutBack() returns (stop: bool)
      requires Holds() && OnTrack() && st.sup.Backoff?
      modifies this, h
      ensures Holds() && OnTrack() && pos >= old(pos)
      ensures if stop then pos == |ev| else st.sup.AtSelect?
    {
      var x := Await();
      stop := x.None?;
      if !stop {
        var left := h.LeaveRetryToken(st);
        Did(SupStep.PutBack);
        pos := pos + 1;
      }
    }

    /**
     * `superviseSession`: one loop, whose place in the protocol is where its control flow is.
     * Between any two of its steps the others may run.
     */
    method Supervise()
      requires Holds() && OnTrack() && st.sup.AtSelect?
      modifies this, h
      ensures Holds() && OnTrack() && (pos == |ev| || st.sup.Stopped?)
      ensures st.sup.Stopped? <==> exists k :: 0 <= k < pos && Ends(run[k], ev[k])
    {
      var stop := false;
      while !stop
        invariant Holds() && OnTrack()
        invariant if stop then pos == |ev| || st.sup.Stopped? else st.sup.AtSelect?
        decreases !stop, |ev| - pos
      {
        var replace;
        replace, stop := Choose();
        if replace && !stop {
          stop := GiveUp();
          if !stop {
            stop := Reconnect();
          }
        }
      }
      StoppedExactly(run, ev, pos);
    }
  }

  /** No other goroutine moves the supervisor, except that `main` starts it. */
  lemma OthersKeepSup(st: State, e: Event)
    requires Enabled(st, e) && !e.Super?
    ensures Started(st) ==> Apply(st, e).sup == st.sup
    ensures !Started(st) ==> !Started(Apply(st, e)) || Apply(st, e).sup.AtSelect?
  {
    match e
    case Stream(_) =>
    case Main(_) =>
    case User(_, _) =>
  }

  /**
   * The process over a whole schedule, in any interleaving: it holds the session the protocol
   * says, and it has opened and closed exactly the sessions the protocol says, which means
   * 0, 1, 2, ... in order, and once more its first one when `main` has returned.
   */
  method Drive(source: Source, leaf: Leaf, ev: seq<Event>, ghost run: seq<State>)
    returns (conn: Conn, dialled: nat, closed: seq<nat>)
    requires IsRun(run, ev) && run[0] == Init(source, leaf)
    ensures conn == run[|ev|].holder.conn && dialled == |run[|ev|].leaves|
    ensures closed == Iota(|run[|ev|].closes|) + (if run[|ev|].deferred.Some? then [0] else [])
    ensures conn.Some? ==> conn.value == dialled - 1
  {
    var p := new Process(source, leaf, ev, run);
    var x := p.Await();
    if x.Some? {
      p.Supervise();
      x := p.Await();
    }
    conn, dialled, closed := p.h.conn, p.dialled, p.closed;
    OneSessionAtATime(run, ev, |ev|);
    DeferredIsFirst(run, ev, |ev|);
  }

  lemma DeferredIsFirst(run: seq<State>, ev: seq<Event>, n: nat)
    requires IsRun(run, ev) && n < |run|
    ensures run[n].deferred.Some? ==> run[n].deferred == Some(0)
  {
    SafeInit(run[0]);
    forall st: State, e: Event, st': State | Accounted(st) && AtMostFirst(st) && Session.Step(st, e, st')
      ensures Accounted(st') && AtMostFirst(st')
    {
      AccountedStep(st, e);
      AtMostFirstStep(st, e);
    }
    Runs.Along(Initial, Session.Step, (st: State) => Accounted(st) && AtMostFirst(st), run, ev, 0, n);
  }

  predicate AtMostFirst(st: State) {
    st.deferred.Some? ==> st.deferred == Some(0)
  }

  lemma AtMostFirstStep(st: State, e: Event)
    requires Accounted(st) && AtMostFirst(st) && Enabled(st, e)
    ensures AtMostFirst(Apply(st, e))
  {
  }
}
