/** Reachable runs that show where the obvious stronger claims about the protocol fail. */
module SessionWitness {
  import opened Common
  import Runs
  import opened Session
  import opened SessionSafety
  import opened SessionProgress

  lemma Start(source: Source, leaf: Leaf) returns (st: State)
    ensures st == Init(source, leaf) && Reachable(st)
  {
    st := Init(source, leaf);
    Runs.ReachableStart(Initial, Step, st);
  }

  lemma Take(st: State, e: Event) returns (st': State)
    requires Reachable(st) && Enabled(st, e)
    ensures st' == Apply(st, e) && Reachable(st')
  {
    st' := Apply(st, e);
    Runs.ReachableStep(Initial, Step, st, e, st');
  }

  /** `main` brings up session 0 and starts the goroutines. */
  lemma BringUp(source: Source, leaf: Leaf) returns (st: State)
    ensures Reachable(st)
    ensures st == State(source, leaf, SvidIdle, false, false, Holder(Some(0), Empty), AtSelect,
                        Idle, Idle, [leaf], [], {}, 1, 0, Some(0), None)
  {
    st := Start(source, leaf);
    st := Take(st, Main(BootHandshake));
    st := Take(st, Main(BootInstall));
  }

  /** The supervisor has decided to replace the session, and gives up the one installed. */
  lemma TearDown(st: State) returns (st': State)
    requires Reachable(st) && st.sup.Committed? && st.deferred.None?
    ensures Reachable(st')
    ensures st' == st.(sup := Connecting, holder := st.holder.(conn := None),
                       closes := if st.holder.conn.None? then st.closes
                                 else st.closes + [Close(st.holder.conn.value, st.sup.why)])
  {
    st' := Take(st, Super(ReadOld));
    st' := Take(st', Super(Clear));
    st' := Take(st', Super(CloseOld));
  }

  /** A user that holds session `s` finds it broken and gets as far as reporting it. */
  lemma Blames(st: State, who: Who) returns (st': State)
    requires Reachable(st) && st.deferred.None? && Started(st)
    requires Worker(st, who).Idle? && st.holder.conn.Some?
    ensures Reachable(st')
    ensures st' == SetWorker(st.(failed := st.failed + {st.holder.conn.value}), who,
                             Reporting(st.holder.conn.value))
  {
    st' := Take(st, User(who, Get));
    st' := Take(st', User(who, IoError));
    st' := Take(st', User(who, FailRead));
  }

  /** Sender and receiver both report session 0; only the first report is acted on. */
  lemma LateDuplicate(leaf: Leaf) returns (st: State)
    ensures Reachable(st)
    ensures st == State(Delegated, leaf, SvidIdle, false, false, Holder(None, Full(Some(0))), Connecting,
                        Idle, Idle, [leaf], [Close(0, Lost(Some(0)))], {0}, 1, 0, Some(0), None)
  {
    st := BringUp(Delegated, leaf);
    st := Blames(st, Sender);
    st := Blames(st, Receiver);
    st := Take(st, User(Sender, FailSend));
    st := Take(st, Super(TakeBad));
    st := Take(st, Super(Compare));
    st := TearDown(st);
    st := Take(st, User(Receiver, FailSend));
  }

  /**
   * The retry token can be lost: sender and receiver both report session 0, the second
   * report arrives after the first has been acted on, and the next `connect` returns an
   * error (its address does not resolve, or on the server side it cannot listen or accept; a
   * failed dial is retried inside). The supervisor ends up at its select with no session
   * and nothing to wake it.
   */
  lemma RetryCanBeLost(leaf: Leaf) returns (st: State)
    ensures Reachable(st) && Parked(st) && st.sup.AtSelect? && st.holder.bad.Empty?
    ensures st.source.Delegated? && !st.cancelled && st.closes == [Close(0, Lost(Some(0)))]
  {
    st := LateDuplicate(leaf);
    st := Take(st, Super(ConnectFail));
    st := Take(st, Super(PutBack));
    st := Take(st, Super(TakeBad));
    st := Take(st, Super(Compare));
  }

  /**
   * A report of the installed session can be lost too: a retry token left over from a
   * failed dial still fills the slot after a rotation has produced session 1, so a user's
   * report of session 1 is discarded and the token that blocked it is then ignored.
   */
  lemma ReportCanBeLost(leaf: Leaf, leaf': Leaf, leaf'': Leaf) returns (st: State)
    requires leaf != leaf' && leaf' != leaf''
    ensures Reachable(st) && st.sup.AtSelect? && st.sender.Idle? && st.receiver.Idle?
    ensures st.holder == Holder(Some(1), Empty) && 1 in st.failed
    ensures !Announced(st) && !Doomed(st, 1)
  {
    st := BringUp(Delegated, leaf);
    st := Take(st, Stream(Publish(leaf')));
    st := Take(st, Stream(Signal));
    st := Take(st, Super(TakeRotation));
    st := TearDown(st);
    st := Take(st, Super(ConnectFail));
    st := Take(st, Super(PutBack));
    st := Take(st, Stream(Publish(leaf'')));
    st := Take(st, Stream(Signal));
    st := Take(st, Super(TakeRotation));
    st := TearDown(st);
    st := Take(st, Super(Handshake));
    st := Take(st, Super(Install));
    st := Blames(st, Sender);
    st := Take(st, User(Sender, FailSend));
    st := Take(st, Super(TakeBad));
    st := Take(st, Super(Compare));
  }

  /**
   * `main` returning after a replacement: session 0 has been closed by the supervisor and
   * again by `main`, and session 1, the one in use, by nobody.
   */
  lemma ClosedTwice(leaf: Leaf, leaf': Leaf) returns (st: State)
    requires leaf != leaf'
    ensures Reachable(st) && st.deferred.Some? && st.holder.conn == Some(1)
    ensures AllCloses(st) == [0, 0]
  {
    st := BringUp(Delegated, leaf);
    st := Take(st, Stream(Publish(leaf')));
    st := Take(st, Stream(Signal));
    st := Take(st, Super(TakeRotation));
    st := TearDown(st);
    st := Take(st, Super(Handshake));
    st := Take(st, Super(Install));
    st := Take(st, Main(Cancel));
    st := Take(st, Main(Return));
  }

  /** A session left on a replaced SVID, with nothing pending: the Workload API source. */
  lemma RotationUnnoticed(leaf: Leaf, leaf': Leaf) returns (st: State)
    requires leaf != leaf'
    ensures Reachable(st) && st.source.WorkloadApi? && !RotationKept(st)
  {
    st := BringUp(WorkloadApi, leaf);
    st := Take(st, Stream(Refresh(leaf')));
  }

  /** Rotations are never lost on an identity path exactly when it is the delegated one. */
  lemma FreshnessExactly(source: Source)
    ensures (forall st: State :: Reachable(st) && st.source == source ==> RotationKept(st))
            <==> source.Delegated?
  {
    if source.Delegated? {
      forall st: State | Reachable(st) && st.source == source ensures RotationKept(st) {
        var run: seq<State>, ev: seq<Event> :|
          Runs.IsRun(Initial, Step, run, ev) && run[|run| - 1] == st;
        SourceAlong(run, ev, |run| - 1);
        NoRotationLost(run, ev, |run| - 1);
      }
    } else {
      var st := RotationUnnoticed(0, 1);
    }
  }
}
