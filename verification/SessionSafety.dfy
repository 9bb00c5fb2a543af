/** What every step of the session replacement protocol keeps. */
module SessionSafety {
  import opened Common
  import Runs
  import opened Session

  // ---------------------------------------------------------------- who holds a session

  /** The session that is open and not yet given up, wherever it is held. */
  function Current(st: State): Conn {
    match st.sup
    case BootDone(s) => Some(s)
    case Handshaken(s) => Some(s)
    case Cleared(_, prev) => prev
    case _ => st.holder.conn
  }

  /** Phases in which the supervisor has emptied the holder. */
  predicate Vacated(st: State) {
    || st.sup.Boot? || st.sup.BootDone? || st.sup.Cleared? || st.sup.Connecting?
    || st.sup.Handshaken? || st.sup.Backoff?
  }

  function ClosedSessions(closes: seq<Close>): (r: seq<nat>)
    ensures |r| == |closes|
    ensures forall i :: 0 <= i < |r| ==> r[i] == closes[i].s
  {
    seq(|closes|, i requires 0 <= i < |closes| => closes[i].s)
  }

  /** Sessions opened minus sessions closed is one or zero, as a session is held or not. */
  predicate Accounted(st: State) {
    && |st.closes| + (if Current(st).Some? then 1 else 0) == |st.leaves|
    && (Current(st).Some? ==> Current(st).value == |st.leaves| - 1)
    && (Vacated(st) ==> st.holder.conn.None?)
    && ClosedSessions(st.closes) == Iota(|st.closes|)
    && (st.sup.Boot? ==> st.leaves == [])
    && (!st.sup.Boot? ==> st.mine == Some(0) && st.leaves != [])
    && (st.sup.Have? ==> st.sup.prev == st.holder.conn)
  }

  lemma AccountedSuper(st: State, x: SupStep)
    requires Accounted(st) && SupEnabled(st, x)
    ensures Accounted(ApplySup(st, x))
  {
    var st' := ApplySup(st, x);
    if x.CloseOld? && st.sup.prev.Some? {
      assert ClosedSessions(st'.closes) == ClosedSessions(st.closes) + [st.sup.prev.value];
    }
  }

  lemma AccountedUser(st: State, w: Who, x: UserStep)
    requires Accounted(st) && UserEnabled(st, w, x)
    ensures Accounted(ApplyUser(st, w, x))
  {
  }

  lemma AccountedStep(st: State, e: Event)
    requires Accounted(st) && Enabled(st, e)
    ensures Accounted(Apply(st, e))
  {
    match e
    case Stream(_) =>
    case Main(_) =>
    case Super(x) => AccountedSuper(st, x);
    case User(w, x) => AccountedUser(st, w, x);
  }

  // ---------------------------------------------------------------- blame

  ghost predicate Blamed(st: State, c: Conn) {
    c.Some? ==> c.value in st.failed
  }

  ghost predicate WorkerBlames(st: State, pc: WorkerPc) {
    pc.Failing? || pc.Reporting? ==> pc.s in st.failed
  }

  /** A decision taken because of a report is about the session that report named. */
  ghost predicate Justified(st: State, why: Reason, target: Conn) {
    why.Lost? ==> why.report == target && Blamed(st, target)
  }

  /** Every report in flight, and every close already made, is blamed on its own session. */
  ghost predicate Blame(st: State) {
    && (st.holder.bad.Full? ==> Blamed(st, st.holder.bad.token))
    && WorkerBlames(st, st.sender)
    && WorkerBlames(st, st.receiver)
    && (st.sup.GotBad? ==> Blamed(st, st.sup.token))
    && (st.sup.Committed? ==> Justified(st, st.sup.why, st.holder.conn))
    && (st.sup.Have? ==> st.sup.prev == st.holder.conn && Justified(st, st.sup.why, st.sup.prev))
    && (st.sup.Cleared? ==> Justified(st, st.sup.why, st.sup.prev))
    && forall i {:trigger st.closes[i]} :: 0 <= i < |st.closes| ==>
         Justified(st, st.closes[i].why, Some(st.closes[i].s))
  }

  lemma BlameSuper(st: State, x: SupStep)
    requires Blame(st) && SupEnabled(st, x)
    ensures Blame(ApplySup(st, x))
  {
    var st' := ApplySup(st, x);
    forall i | 0 <= i < |st'.closes|
      ensures Justified(st', st'.closes[i].why, Some(st'.closes[i].s))
    {
      if i < |st.closes| {
        assert st'.closes[i] == st.closes[i];
      }
    }
  }

  lemma BlameUser(st: State, w: Who, x: UserStep)
    requires Blame(st) && UserEnabled(st, w, x)
    ensures Blame(ApplyUser(st, w, x))
  {
    var st' := ApplyUser(st, w, x);
    assert st.failed <= st'.failed && st'.closes == st.closes;
  }

  lemma BlameStep(st: State, e: Event)
    requires Blame(st) && Enabled(st, e)
    ensures Blame(Apply(st, e))
  {
    match e
    case Stream(_) =>
    case Main(_) =>
    case Super(x) => BlameSuper(st, x);
    case User(w, x) => BlameUser(st, w, x);
  }

  // ---------------------------------------------------------------- freshness

  /** A replacement that has not yet read the certificate is under way. */
  predicate Replacing(st: State) {
    st.sup.Committed? || st.sup.Have?
  }

  /** A rotation is still announced: a token waits, or `applySVID` is about to send one. */
  predicate Announced(st: State) {
    st.rotated || (st.svid.SvidUnlocked? && st.svid.renewed)
  }

  predicate StaleUnder(st: State, c: Conn) {
    c.Some? && c.value < |st.leaves| && st.leaves[c.value] != st.leaf
  }

  /**
   * No rotation is lost: an installed session handshaken under another leaf than the
   * current one is about to be replaced, or the rotation is still announced.
   */
  predicate RotationKept(st: State) {
    StaleUnder(st, st.holder.conn) ==> Announced(st) || Replacing(st)
  }

  /** The same for a session that has been handshaken and is not installed yet. */
  predicate FreshKept(st: State) {
    && RotationKept(st)
    && (st.sup.Handshaken? || st.sup.BootDone? ==>
          (StaleUnder(st, Some(st.sup.made)) ==> Announced(st)))
  }

  lemma FreshKeptSuper(st: State, x: SupStep)
    requires FreshKept(st) && Accounted(st) && SupEnabled(st, x)
    ensures FreshKept(ApplySup(st, x))
  {
  }

  lemma FreshKeptUser(st: State, w: Who, x: UserStep)
    requires FreshKept(st) && UserEnabled(st, w, x)
    ensures FreshKept(ApplyUser(st, w, x))
  {
  }

  lemma FreshKeptStep(st: State, e: Event)
    requires FreshKept(st) && Accounted(st) && Enabled(st, e) && st.source.Delegated?
    ensures FreshKept(Apply(st, e))
  {
    match e
    case Stream(_) =>
    case Main(_) =>
    case Super(x) => FreshKeptSuper(st, x);
    case User(w, x) => FreshKeptUser(st, w, x);
  }

  // ---------------------------------------------------------------- counters

  /** `handshakes` counts installed sessions, all but the first of them re-established. */
  predicate Counted(st: State) {
    && st.handshakes + (if st.sup.BootDone? || st.sup.Handshaken? then 1 else 0) == |st.leaves|
    && (Started(st) ==> st.handshakes == 1 + st.rehandshakes)
    && (!Started(st) ==> st.handshakes == 0 && st.rehandshakes == 0)
    && (st.sup.Boot? ==> st.leaves == [])
    && (st.sup.BootDone? ==> |st.leaves| == 1)
  }

  lemma CountedSuper(st: State, x: SupStep)
    requires Counted(st) && SupEnabled(st, x)
    ensures Counted(ApplySup(st, x))
  {
  }

  lemma CountedUser(st: State, w: Who, x: UserStep)
    requires Counted(st) && UserEnabled(st, w, x)
    ensures Counted(ApplyUser(st, w, x))
  {
  }

  lemma CountedStep(st: State, e: Event)
    requires Counted(st) && Enabled(st, e)
    ensures Counted(Apply(st, e))
  {
    match e
    case Stream(_) =>
    case Main(_) =>
    case Super(x) => CountedSuper(st, x);
    case User(w, x) => CountedUser(st, w, x);
  }

  // ---------------------------------------------------------------- over whole runs

  ghost predicate Safe(st: State) {
    Accounted(st) && Blame(st) && Counted(st)
  }

  lemma SafeStep(st: State, e: Event, st': State)
    requires Safe(st) && Step(st, e, st')
    ensures Safe(st')
  {
    AccountedStep(st, e);
    BlameStep(st, e);
    CountedStep(st, e);
  }

  lemma SafeInit(st: State)
    requires Initial(st)
    ensures Safe(st)
  {
  }

  lemma SafeAlong(run: seq<State>, ev: seq<Event>, i: nat)
    requires IsRun(run, ev) && i < |run|
    ensures Safe(run[i])
  {
    SafeInit(run[0]);
    forall st: State, e: Event, st': State | Safe(st) && Step(st, e, st') ensures Safe(st') {
      SafeStep(st, e, st');
    }
    Runs.Along(Initial, Step, Safe, run, ev, 0, i);
  }

  /** The identity path in use never changes. */
  lemma SourceAlong(run: seq<State>, ev: seq<Event>, i: nat)
    requires IsRun(run, ev) && i < |run|
    ensures run[i].source == run[0].source
  {
    var source := run[0].source;
    Runs.Along(Initial, Step, (st: State) => st.source == source, run, ev, 0, i);
  }

  /**
   * At most one session is open in any reachable state. The supervisor's closes are
   * exactly 0, 1, 2, ... in that order, so every session is closed at most once and
   * before its successor exists; what has been opened and not closed is the one session
   * currently held, if any.
   */
  lemma OneSessionAtATime(run: seq<State>, ev: seq<Event>, i: nat)
    requires IsRun(run, ev) && i < |run|
    ensures var st := run[i];
            && ClosedSessions(st.closes) == Iota(|st.closes|)
            && |st.leaves| - |st.closes| == (if Current(st).Some? then 1 else 0)
            && (Current(st).Some? ==> Current(st).value == |st.leaves| - 1)
            && (st.holder.conn.Some? ==> Current(st) == st.holder.conn)
            && (Started(st) ==> st.handshakes == 1 + st.rehandshakes)
  {
    SafeAlong(run, ev, i);
  }

  /**
   * A stale report never destroys a newer session. Every close the supervisor has made was
   * either for a rotation, or acted on a report that named exactly the session closed, and
   * that session had been failed by one of its users. A leftover retry token closes nothing.
   */
  lemma ClosesAreJustified(run: seq<State>, ev: seq<Event>, i: nat, k: nat)
    requires IsRun(run, ev) && i < |run| && k < |run[i].closes|
    ensures var c := run[i].closes[k];
            c.why.Rotation? || (c.why.report == Some(c.s) && c.s in run[i].failed)
  {
    SafeAlong(run, ev, i);
    assert Justified(run[i], run[i].closes[k].why, Some(run[i].closes[k].s));
  }

  /** The same at the moment the holder is emptied: only the session named is taken away. */
  lemma ClearTakesTheNamedSession(run: seq<State>, ev: seq<Event>, i: nat)
    requires IsRun(run, ev) && i < |ev|
    requires run[i].holder.conn.Some? && run[i + 1].holder.conn != run[i].holder.conn
    ensures ev[i] == Super(Clear) && run[i + 1].holder.conn.None?
    ensures run[i].sup.why.Rotation? ||
            (run[i].sup.why.report == run[i].holder.conn && run[i].holder.conn.value in run[i].failed)
  {
    SafeAlong(run, ev, i);
    assert Step(run[i], ev[i], run[i + 1]);
  }

  /** All closes so far, the supervisor's and then `main`'s. */
  function AllCloses(st: State): seq<nat> {
    ClosedSessions(st.closes) + (if st.deferred.Some? then [st.deferred.value] else [])
  }

  /**
   * `main` closes the session it opened itself when it returns. That session has then been
   * closed twice exactly when the supervisor had replaced it; and of the others all but the
   * one still held have been closed.
   */
  lemma ClosesAtExit(run: seq<State>, ev: seq<Event>, i: nat)
    requires IsRun(run, ev) && i < |ev| && ev[i] == Main(Return)
    ensures var st := run[i + 1];
            && st.deferred == Some(0)
            && (multiset(AllCloses(st))[0] == 2 <==> run[i].closes != [])
            && (multiset(AllCloses(st))[0] == 1 <==> run[i].closes == [])
            && (forall s :: 0 < s < |st.leaves| ==> (s in AllCloses(st) <==> Current(st) != Some(s)))
  {
    var st, st' := run[i], run[i + 1];
    SafeAlong(run, ev, i);
    assert Step(st, ev[i], st');
    ReturnCloses(st, st');
    IotaWithFirst(|st.closes|);
  }

  lemma ReturnCloses(st: State, st': State)
    requires Safe(st) && Step(st, Main(Return), st')
    ensures st'.deferred == Some(0) && AllCloses(st') == Iota(|st.closes|) + [0]
    ensures forall s :: 0 < s < |st'.leaves| ==> (s < |st.closes| <==> Current(st') != Some(s))
  {
  }

  lemma IotaWithFirst(n: nat)
    ensures multiset(Iota(n) + [0])[0] == if n == 0 then 1 else 2
    ensures forall s :: 0 < s ==> (s in Iota(n) + [0] <==> s < n)
  {
    IotaCount(n);
    assert multiset(Iota(n) + [0]) == multiset(Iota(n)) + multiset{0};
    forall s | 0 < s < n ensures s in Iota(n) + [0] {
      assert (Iota(n) + [0])[s] == s;
    }
  }

  lemma {:induction false} IotaCount(n: nat)
    ensures multiset(Iota(n))[0] == if n == 0 then 0 else 1
  {
    if n > 0 {
      IotaCount(n - 1);
      assert multiset(Iota(n)) == multiset(Iota(n - 1)) + multiset([(n - 1) as nat]);
    }
  }

  predicate Fresh(st: State) {
    Accounted(st) && FreshKept(st) && st.source.Delegated?
  }

  lemma SourceStep(st: State, e: Event)
    requires Enabled(st, e)
    ensures Apply(st, e).source == st.source
  {
  }

  lemma FreshStep(st: State, e: Event)
    requires Fresh(st) && Enabled(st, e)
    ensures Fresh(Apply(st, e))
  {
    AccountedStep(st, e);
    FreshKeptStep(st, e);
    SourceStep(st, e);
  }

  /** With the delegated source no rotation is ever lost, in any interleaving. */
  lemma NoRotationLost(run: seq<State>, ev: seq<Event>, i: nat)
    requires IsRun(run, ev) && i < |run| && run[0].source.Delegated?
    ensures FreshKept(run[i])
  {
    SafeInit(run[0]);
    forall st: State, e: Event, st': State | Fresh(st) && Step(st, e, st') ensures Fresh(st') {
      FreshStep(st, e);
    }
    Runs.Along(Initial, Step, Fresh, run, ev, 0, i);
  }

  /** So whenever the delegated protocol is at rest, the installed session is current. */
  lemma FreshAtRest(run: seq<State>, ev: seq<Event>, i: nat)
    requires IsRun(run, ev) && i < |run| && run[0].source.Delegated?
    requires run[i].sup.AtSelect? && run[i].svid.SvidIdle? && !run[i].rotated
    requires run[i].holder.conn.Some?
    ensures run[i].holder.conn.value == |run[i].leaves| - 1
    ensures run[i].leaves[run[i].holder.conn.value] == run[i].leaf
  {
    NoRotationLost(run, ev, i);
    SafeAlong(run, ev, i);
  }

  // ---------------------------------------------------------------- the end of the context

  /** The context has ended exactly when `main` has cancelled it. */
  lemma CancelledExactly(run: seq<State>, ev: seq<Event>, n: nat)
    requires IsRun(run, ev) && n < |run|
    ensures run[n].cancelled <==> exists k :: 0 <= k < n && ev[k] == Main(Cancel)
  {
    var at := (st: State, e: Event) => e == Main(Cancel);
    forall st: State, e: Event, st': State | Step(st, e, st') ensures st'.cancelled <==> st.cancelled || at(st, e) {
      CancelStep(st, e);
    }
    Runs.ComesFrom(Initial, Step, (st: State) => st.cancelled, at, run, ev, n);
    assert forall k :: 0 <= k < n ==> (at(run[k], ev[k]) <==> ev[k] == Main(Cancel));
  }

  lemma CancelStep(st: State, e: Event)
    requires Enabled(st, e)
    ensures Apply(st, e).cancelled <==> st.cancelled || e == Main(Cancel)
  {
  }

  /** The supervisor has stopped, and its sessions are as they were then. */
  predicate StoppedWith(st: State, since: State) {
    st.sup.Stopped? && st.leaves == since.leaves && st.closes == since.closes && st.holder.conn == since.holder.conn
  }

  /** At this step the supervisor returns: it sees the end, or `connect` fails after it. */
  predicate Ends(st: State, e: Event) {
    e == Super(TakeDone) || (e == Super(ConnectFail) && st.cancelled)
  }

  lemma StopsSuper(st: State, x: SupStep)
    requires SupEnabled(st, x)
    ensures ApplySup(st, x).sup.Stopped? <==> Ends(st, Super(x))
    ensures !st.sup.Stopped?
  {
  }

  lemma StopsUser(st: State, w: Who, x: UserStep)
    requires UserEnabled(st, w, x)
    ensures var st' := ApplyUser(st, w, x);
            st'.sup == st.sup && st'.leaves == st.leaves && st'.closes == st.closes
            && st'.holder.conn == st.holder.conn
  {
  }

  lemma StopsStep(st: State, e: Event, st': State)
    requires Step(st, e, st')
    ensures st'.sup.Stopped? <==> st.sup.Stopped? || Ends(st, e)
    ensures st.sup.Stopped? ==> !e.Super? && StoppedWith(st', st)
  {
    match e
    case Stream(_) =>
    case Main(_) =>
    case Super(x) => StopsSuper(st, x);
    case User(w, x) => StopsUser(st, w, x);
  }

  /**
   * When the supervisor stops: in a run it has returned exactly when it has taken the end of
   * the context at its select, or a `connect` has failed after that end.
   */
  lemma StoppedExactly(run: seq<State>, ev: seq<Event>, n: nat)
    requires IsRun(run, ev) && n < |run|
    ensures run[n].sup.Stopped? <==> exists k :: 0 <= k < n && Ends(run[k], ev[k])
  {
    forall st: State, e: Event, st': State | Step(st, e, st')
      ensures st'.sup.Stopped? <==> st.sup.Stopped? || Ends(st, e)
    {
      StopsStep(st, e, st');
    }
    Runs.ComesFrom(Initial, Step, (st: State) => st.sup.Stopped?, Ends, run, ev, n);
  }

  /** And then for good: it takes no further step, and no session is opened, closed or installed. */
  lemma StoppedForGood(run: seq<State>, ev: seq<Event>, i: nat, j: nat)
    requires IsRun(run, ev) && i <= j < |run| && run[i].sup.Stopped?
    ensures StoppedWith(run[j], run[i])
    ensures j < |ev| ==> !ev[j].Super?
  {
    var since := run[i];
    forall st: State, e: Event, st': State | StoppedWith(st, since) && Step(st, e, st')
      ensures StoppedWith(st', since)
    {
      StopsStep(st, e, st');
    }
    Runs.Along(Initial, Step, (st: State) => StoppedWith(st, since), run, ev, i, j);
    if j < |ev| {
      assert Step(run[j], ev[j], run[j + 1]);
      StopsStep(run[j], ev[j], run[j + 1]);
    }
  }

  /**
   * A `connect` that fails after the context has ended is the supervisor's last act: it does
   * not wait, leaves no token, and never dials again.
   */
  lemma NoRetryAfterTheEnd(run: seq<State>, ev: seq<Event>, c: nat, i: nat, j: nat)
    requires IsRun(run, ev) && c < i < j < |run| && ev[c] == Main(Cancel) && ev[i] == Super(ConnectFail)
    ensures run[j].sup.Stopped? && run[j].leaves == run[i].leaves && run[j].holder.conn.None?
    ensures j < |ev| ==> !ev[j].Super?
  {
    CancelledExactly(run, ev, i);
    SafeAlong(run, ev, i);
    var st, st' := run[i], run[i + 1];
    assert Step(st, ev[i], st');
    LastFailure(st, st');
    StoppedForGood(run, ev, i + 1, j);
  }

  lemma LastFailure(st: State, st': State)
    requires Accounted(st) && Step(st, Super(ConnectFail), st') && st.cancelled
    ensures st'.sup.Stopped? && st'.leaves == st.leaves && st'.holder.conn.None?
  {
    StopsStep(st, Super(ConnectFail), st');
  }

  // ---------------------------------------------------------------- the users

  ghost predicate GotAt(run: seq<State>, ev: seq<Event>, n: nat, w: Who, j: int)
    requires |run| == |ev| + 1 && n <= |ev|
  {
    0 <= j < n && ev[j] == User(w, Get) && forall i :: j < i < n ==> ev[i] != User(w, Get)
  }

  lemma UserMoves(st: State, w: Who, w': Who, x: UserStep)
    requires UserEnabled(st, w', x)
    ensures var st' := ApplyUser(st, w', x);
            if w' == w && x.Get? then
              Worker(st', w) == (if st.holder.conn.Some? then Holding(st.holder.conn.value) else Idle)
            else Worker(st', w).Idle? || (!Worker(st, w).Idle? && Worker(st', w).s == Worker(st, w).s)
  {
  }

  lemma SuperMovesNoUser(st: State, x: SupStep)
    requires SupEnabled(st, x)
    ensures ApplySup(st, x).sender == st.sender && ApplySup(st, x).receiver == st.receiver
    ensures ApplySup(st, x).failed == st.failed
  {
  }

  lemma UserStepAt(st: State, e: Event, st': State, w: Who)
    requires Step(st, e, st')
    ensures if e == User(w, Get) then
              Worker(st', w) == (if st.holder.conn.Some? then Holding(st.holder.conn.value) else Idle)
            else Worker(st', w).Idle? || (!Worker(st, w).Idle? && Worker(st', w).s == Worker(st, w).s)
  {
    match e
    case Stream(_) =>
    case Main(_) =>
    case Super(x) => SuperMovesNoUser(st, x);
    case User(w', x) => UserMoves(st, w, w', x);
  }

  /** Whatever session a user is using or reporting was the installed one when it last looked. */
  lemma {:induction false} UsedWasInstalled(run: seq<State>, ev: seq<Event>, n: nat, w: Who) returns (j: nat)
    requires IsRun(run, ev) && n < |run| && !Worker(run[n], w).Idle?
    ensures GotAt(run, ev, n, w, j) && run[j].holder.conn == Some(Worker(run[n], w).s)
    decreases n
  {
    var st, e, st' := run[n - 1], ev[n - 1], run[n];
    assert Step(st, e, st');
    UserStepAt(st, e, st', w);
    if e == User(w, Get) {
      j := n - 1;
    } else {
      j := UsedWasInstalled(run, ev, n - 1, w);
    }
  }

  /** At this step a user finds session `s` broken. */
  predicate FindsBroken(st: State, e: Event, s: nat) {
    e.User? && e.user.IoError? && Worker(st, e.who) == Holding(s)
  }

  lemma FailedStep(st: State, e: Event, st': State, s: nat)
    requires Step(st, e, st')
    ensures s in st'.failed <==> s in st.failed || FindsBroken(st, e, s)
  {
    match e
    case Stream(_) =>
    case Main(_) =>
    case Super(x) => SuperMovesNoUser(st, x);
    case User(_, _) =>
  }

  /** The sessions counted as failed are those some user found broken while using them. */
  lemma FailedExactly(run: seq<State>, ev: seq<Event>, n: nat, s: nat)
    requires IsRun(run, ev) && n < |run|
    ensures s in run[n].failed
            <==> exists k {:trigger FindsBroken(run[k], ev[k], s)} :: 0 <= k < n && FindsBroken(run[k], ev[k], s)
  {
    var at := (st: State, e: Event) => FindsBroken(st, e, s);
    forall st: State, e: Event, st': State | Step(st, e, st')
      ensures s in st'.failed <==> s in st.failed || at(st, e)
    {
      FailedStep(st, e, st', s);
    }
    Runs.ComesFrom(Initial, Step, (st: State) => s in st.failed, at, run, ev, n);
    assert forall k :: 0 <= k < n ==> (at(run[k], ev[k]) <==> FindsBroken(run[k], ev[k], s));
  }
}
