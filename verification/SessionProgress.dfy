/** What the supervisor is bound to do, and the runs in which it does not. */
module SessionProgress {
  import opened Common
  import Runs
  import opened Session
  import opened SessionSafety

  // ---------------------------------------------------------------- bounded replacement

  /**
   * A token the supervisor will act on is waiting or has been acted on: a rotation, or a
   * token naming what the holder has, be it a session or, after a failure, none.
   */
  predicate Due(st: State) {
    match st.sup
    case AtSelect => st.rotated || st.holder.bad == Full(st.holder.conn)
    case GotBad(c) => st.rotated || st.holder.bad == Full(st.holder.conn) || c == st.holder.conn
    case Committed(_) => true
    case Have(_, _) => true
    case Cleared(_, _) => true
    case _ => false
  }

  /** The installed session is about to go. */
  predicate Doomed(st: State, s: nat) {
    Due(st) && st.holder.conn == Some(s)
  }

  function OutdatedSlot(st: State): nat {
    if st.holder.bad.Full? && st.holder.bad.token != st.holder.conn then 1 else 0
  }

  function OutdatedWorker(st: State, pc: WorkerPc): nat {
    if pc.Reporting? && Some(pc.s) != st.holder.conn then 1 else 0
  }

  /** Reports under way that name something else than what the holder has. */
  function Outdated(st: State): nat {
    OutdatedSlot(st) + OutdatedWorker(st, st.sender) + OutdatedWorker(st, st.receiver)
  }

  /** How many more steps of the supervisor can pass before it dials. */
  function Rank(st: State): nat {
    match st.sup
    case AtSelect => 5 + 2 * Outdated(st)
    case GotBad(c) => if c == st.holder.conn then 4 else 6 + 2 * Outdated(st)
    case Committed(_) => 3
    case Have(_, _) => 2
    case Cleared(_, _) => 1
    case _ => 0
  }

  const MAX_RANK := 12

  /** The supervisor is in `connect`, or has stopped because the context ended. */
  predicate Dialling(st: State) {
    st.sup.Connecting? || st.sup.Stopped?
  }

  predicate GivenUp(st: State, s: nat) {
    st.holder.conn != Some(s) || st.sup.Stopped?
  }

  lemma DueSuper(st: State, x: SupStep)
    requires Due(st) && SupEnabled(st, x)
    ensures var st' := ApplySup(st, x);
            Dialling(st') || (Due(st') && Rank(st') < Rank(st))
  {
  }

  lemma DueUser(st: State, w: Who, x: UserStep)
    requires Due(st) && UserEnabled(st, w, x)
    ensures var st' := ApplyUser(st, w, x);
            Due(st') && Rank(st') <= Rank(st)
  {
  }

  /** Every supervisor step brings the dial closer, and no other step puts it off. */
  lemma DueStep(st: State, e: Event, st': State)
    requires Due(st) && Step(st, e, st')
    ensures Dialling(st') || (Due(st') && Rank(st') + (if e.Super? then 1 else 0) <= Rank(st))
  {
    match e
    case Stream(_) =>
    case Main(_) =>
    case Super(x) => DueSuper(st, x);
    case User(w, x) => DueUser(st, w, x);
  }

  /** The supervisor is never blocked at its select while a dial is due. */
  lemma DueSupervisorRuns(st: State)
    requires Due(st)
    ensures exists x :: SupEnabled(st, x)
  {
    var x := match st.sup
             case AtSelect => if st.rotated then TakeRotation else TakeBad
             case GotBad(_) => Compare
             case Committed(_) => ReadOld
             case Have(_, _) => Clear
             case _ => CloseOld;
    assert SupEnabled(st, x);
  }

  function SupervisorSteps(ev: seq<Event>): nat {
    Runs.Steps((e: Event) => e.Super?, ev)
  }

  lemma DueFor(run: seq<State>, ev: seq<Event>, i: nat, j: nat)
    requires IsRun(run, ev) && i <= j < |run| && Due(run[i])
    requires forall k {:trigger Dialling(run[k])} :: i <= k <= j ==> !Dialling(run[k])
    ensures Due(run[j]) && Rank(run[j]) + SupervisorSteps(ev[i..j]) <= Rank(run[i])
  {
    forall st: State, e: Event, st': State | Due(st) && Step(st, e, st') && !Dialling(st')
      ensures Due(st') && Rank(st') + (if e.Super? then 1 else 0) <= Rank(st)
    {
      DueStep(st, e, st');
    }
    Runs.Descends(Initial, Step, Due, Dialling, Rank, (e: Event) => e.Super?, run, ev, i, j);
  }

  /**
   * The dial is bounded. Once a rotation token, a report of the session installed, or with
   * no session the retry token is waiting, the supervisor is in `connect` after at most
   * twelve of its own steps, or has stopped, whatever the stream, the sender, the receiver
   * and late reports of earlier sessions do, and whichever ready case each select picks.
   */
  lemma DialsWithinTwelveSteps(run: seq<State>, ev: seq<Event>, i: nat, j: nat)
    requires IsRun(run, ev) && i <= j < |run| && Due(run[i])
    requires SupervisorSteps(ev[i..j]) >= MAX_RANK
    ensures exists k {:trigger Dialling(run[k])} :: i <= k <= j && Dialling(run[k])
  {
    if forall k {:trigger Dialling(run[k])} :: i <= k <= j ==> !Dialling(run[k]) {
      DueFor(run, ev, i, j);
      assert false;
    }
  }

  /** An installed session that is doomed is out of the holder one step earlier. */
  lemma GivenUpWithinElevenSteps(run: seq<State>, ev: seq<Event>, i: nat, j: nat, s: nat)
    requires IsRun(run, ev) && i <= j < |run| && Doomed(run[i], s)
    requires SupervisorSteps(ev[i..j]) >= MAX_RANK - 1
    ensures exists k {:trigger GivenUp(run[k], s)} :: i <= k <= j && GivenUp(run[k], s)
  {
    if forall k {:trigger GivenUp(run[k], s)} :: i <= k <= j ==> !GivenUp(run[k], s) {
      forall k | i <= k <= j ensures !Dialling(run[k]) {
        assert !GivenUp(run[k], s);
        SafeAlong(run, ev, k);
      }
      DueFor(run, ev, i, j);
      assert !GivenUp(run[j], s);
      SafeAlong(run, ev, j);
      assert false;
    }
  }

  /** Session `s` exists, is not in the holder and not on its way into it. */
  predicate Gone(st: State, s: nat) {
    && s < |st.leaves| && st.holder.conn != Some(s)
    && (st.sup.Handshaken? || st.sup.BootDone? ==> st.sup.made != s)
  }

  lemma GoneSuper(st: State, x: SupStep, s: nat)
    requires Gone(st, s) && SupEnabled(st, x)
    ensures Gone(ApplySup(st, x), s)
  {
  }

  lemma GoneUser(st: State, w: Who, x: UserStep, s: nat)
    requires Gone(st, s) && UserEnabled(st, w, x)
    ensures Gone(ApplyUser(st, w, x), s)
  {
  }

  lemma GoneStep(st: State, e: Event, st': State, s: nat)
    requires Gone(st, s) && Step(st, e, st')
    ensures Gone(st', s)
  {
    match e
    case Stream(_) =>
    case Main(_) =>
    case Super(x) => GoneSuper(st, x, s);
    case User(w, x) => GoneUser(st, w, x, s);
  }

  /** A session taken out of the holder is never put back. */
  lemma NeverReinstalled(run: seq<State>, ev: seq<Event>, i: nat, j: nat, s: nat)
    requires IsRun(run, ev) && i <= j < |run| && Gone(run[i], s)
    ensures Gone(run[j], s)
  {
    forall st: State, e: Event, st': State | Gone(st, s) && Step(st, e, st') ensures Gone(st', s) {
      GoneStep(st, e, st', s);
    }
    Runs.Along(Initial, Step, (st: State) => Gone(st, s), run, ev, i, j);
  }

  ghost predicate GoneOrIn(st: State, s: nat) {
    Accounted(st) && (st.holder.conn == Some(s) || Gone(st, s))
  }

  lemma LeavesForGoodSuper(st: State, x: SupStep, s: nat)
    requires Accounted(st) && st.holder.conn == Some(s) && SupEnabled(st, x)
    ensures var st' := ApplySup(st, x); st'.holder.conn == Some(s) || Gone(st', s)
  {
  }

  lemma LeavesForGoodUser(st: State, w: Who, x: UserStep)
    requires UserEnabled(st, w, x)
    ensures ApplyUser(st, w, x).holder.conn == st.holder.conn
  {
  }

  lemma LeavesForGood(st: State, e: Event, st': State, s: nat)
    requires Accounted(st) && st.holder.conn == Some(s) && Step(st, e, st')
    ensures st'.holder.conn == Some(s) || Gone(st', s)
  {
    match e
    case Stream(_) =>
    case Main(_) =>
    case Super(x) => LeavesForGoodSuper(st, x, s);
    case User(w, x) => LeavesForGoodUser(st, w, x);
  }

  lemma GoneOrInStep(st: State, e: Event, st': State, s: nat)
    requires GoneOrIn(st, s) && Step(st, e, st')
    ensures GoneOrIn(st', s)
  {
    AccountedStep(st, e);
    if st.holder.conn == Some(s) {
      LeavesForGood(st, e, st', s);
    } else {
      GoneStep(st, e, st', s);
    }
  }

  /** It is gone from the moment it leaves. */
  lemma GoneOrInstalled(run: seq<State>, ev: seq<Event>, i: nat, k: nat, s: nat)
    requires IsRun(run, ev) && i <= k < |run| && run[i].holder.conn == Some(s)
    ensures run[k].holder.conn == Some(s) || Gone(run[k], s)
  {
    SafeAlong(run, ev, i);
    forall st: State, e: Event, st': State | GoneOrIn(st, s) && Step(st, e, st') ensures GoneOrIn(st', s) {
      GoneOrInStep(st, e, st', s);
    }
    Runs.Along(Initial, Step, (st: State) => GoneOrIn(st, s), run, ev, i, k);
  }

  /**
   * Put together for the delegated source: with a session installed under an outdated leaf
   * and the stream idle, twelve supervisor steps suffice to take that session out for good
   * and to dial for another.
   */
  lemma OutdatedSessionReplaced(run: seq<State>, ev: seq<Event>, i: nat, j: nat, s: nat)
    requires IsRun(run, ev) && i <= j < |run| && run[0].source.Delegated?
    requires run[i].holder.conn == Some(s) && StaleUnder(run[i], Some(s))
    requires run[i].svid.SvidIdle?
    requires SupervisorSteps(ev[i..j]) >= MAX_RANK
    requires forall k {:trigger Dialling(run[k])} :: i <= k <= j ==> !run[k].sup.Stopped?
    ensures run[j].holder.conn != Some(s)
    ensures exists k {:trigger Dialling(run[k])} :: i <= k <= j && Dialling(run[k]) && run[k].sup.Connecting?
  {
    NoRotationLost(run, ev, i);
    SafeAlong(run, ev, i);
    assert Doomed(run[i], s) by {
      assert !Dialling(run[i]);
    }
    DialsWithinTwelveSteps(run, ev, i, j);
    var k :| i <= k <= j && Dialling(run[k]);
    SafeAlong(run, ev, k);
    GoneOrInstalled(run, ev, i, k, s);
    NeverReinstalled(run, ev, k, j, s);
  }

  // ---------------------------------------------------------------- retry after a failure

  /** With no session and nothing decided, the token that makes the loop retry is waiting. */
  predicate RetryArmed(st: State) {
    st.sup.AtSelect? && st.holder.conn.None? ==> st.holder.bad == Full(None)
  }

  /** The retry token is discarded: the slot is taken by a report of some session. */
  predicate RetryDropped(st: State, e: Event) {
    e == Super(PutBack) && st.holder.bad.Full? && st.holder.bad.token.Some?
  }

  predicate RetryInvariant(st: State) {
    RetryArmed(st) && (st.sup.GotBad? && st.holder.conn.None? ==> st.sup.token.None?)
  }

  lemma RetrySuper(st: State, x: SupStep)
    requires Accounted(st) && RetryInvariant(st) && SupEnabled(st, x) && !RetryDropped(st, Super(x))
    ensures RetryInvariant(ApplySup(st, x))
  {
  }

  lemma RetryUser(st: State, w: Who, x: UserStep)
    requires RetryInvariant(st) && UserEnabled(st, w, x)
    ensures RetryInvariant(ApplyUser(st, w, x))
  {
  }

  lemma RetryStep(st: State, e: Event, st': State)
    requires Accounted(st) && RetryInvariant(st) && Step(st, e, st') && !RetryDropped(st, e)
    ensures RetryInvariant(st')
  {
    match e
    case Stream(_) =>
    case Main(_) =>
    case Super(x) => RetrySuper(st, x);
    case User(w, x) => RetryUser(st, w, x);
  }

  ghost predicate StepKeepingToken(st: State, e: Event, st': State) {
    Step(st, e, st') && !RetryDropped(st, e)
  }

  lemma RetryKept(run: seq<State>, ev: seq<Event>, i: nat)
    requires IsRun(run, ev) && i < |run|
    requires forall k :: 0 <= k < |ev| ==> !RetryDropped(run[k], ev[k])
    ensures RetryInvariant(run[i])
  {
    SafeInit(run[0]);
    forall st: State, e: Event, st': State
      | Accounted(st) && RetryInvariant(st) && StepKeepingToken(st, e, st')
      ensures Accounted(st') && RetryInvariant(st')
    {
      AccountedStep(st, e);
      RetryStep(st, e, st');
    }
    assert Runs.IsRun(Initial, StepKeepingToken, run, ev);
    Runs.Along(Initial, StepKeepingToken, (st: State) => Accounted(st) && RetryInvariant(st), run, ev, 0, i);
  }

  /**
   * Exactly when retry works: the token waits at every state of a run in which it should if
   * and only if no failed re-establishment of the run finds the slot taken by a report.
   */
  lemma RetryArmedExactly(run: seq<State>, ev: seq<Event>)
    requires IsRun(run, ev)
    ensures (forall i :: 0 <= i < |run| ==> RetryArmed(run[i]))
            <==> (forall i :: 0 <= i < |ev| ==> !RetryDropped(run[i], ev[i]))
  {
    if forall i :: 0 <= i < |ev| ==> !RetryDropped(run[i], ev[i]) {
      forall i | 0 <= i < |run| ensures RetryArmed(run[i]) {
        RetryKept(run, ev, i);
      }
    }
    forall i | 0 <= i < |ev| && RetryDropped(run[i], ev[i]) ensures !RetryArmed(run[i + 1]) {
      SafeAlong(run, ev, i);
      assert Step(run[i], ev[i], run[i + 1]);
    }
  }

  /** With the token in place a run without a session dials again within twelve steps. */
  lemma RetryHappens(run: seq<State>, ev: seq<Event>, i: nat, j: nat)
    requires IsRun(run, ev) && i <= j < |run|
    requires run[i].sup.AtSelect? && run[i].holder.conn.None? && RetryArmed(run[i])
    requires SupervisorSteps(ev[i..j]) >= MAX_RANK
    ensures exists k {:trigger Dialling(run[k])} :: i <= k <= j && Dialling(run[k])
  {
    DialsWithinTwelveSteps(run, ev, i, j);
  }

  /** The report in the way is always a late one: the session it names is already closed. */
  lemma DroppedForAClosedSession(run: seq<State>, ev: seq<Event>, i: nat)
    requires IsRun(run, ev) && i < |ev| && RetryDropped(run[i], ev[i])
    ensures run[i].holder.bad.token.value in ClosedSessions(run[i].closes)
  {
    SafeAlong(run, ev, i);
    TokensNameOpened(run, ev, i);
    assert Step(run[i], ev[i], run[i + 1]);
    var s := run[i].holder.bad.token.value;
    assert ClosedSessions(run[i].closes)[s] == s;
  }

  predicate WorkerNamesOpened(st: State, pc: WorkerPc) {
    !pc.Idle? ==> pc.s < |st.leaves|
  }

  predicate NamesOpened(st: State) {
    && (st.holder.bad.Full? && st.holder.bad.token.Some? ==> st.holder.bad.token.value < |st.leaves|)
    && WorkerNamesOpened(st, st.sender)
    && WorkerNamesOpened(st, st.receiver)
  }

  lemma NamesOpenedUser(st: State, w: Who, x: UserStep)
    requires Accounted(st) && NamesOpened(st) && UserEnabled(st, w, x)
    ensures NamesOpened(ApplyUser(st, w, x))
  {
  }

  lemma NamesOpenedSuper(st: State, x: SupStep)
    requires NamesOpened(st) && SupEnabled(st, x)
    ensures NamesOpened(ApplySup(st, x))
  {
  }

  lemma NamesOpenedStep(st: State, e: Event, st': State)
    requires Accounted(st) && NamesOpened(st) && Step(st, e, st')
    ensures NamesOpened(st')
  {
    match e
    case Stream(_) =>
    case Main(_) =>
    case Super(x) => NamesOpenedSuper(st, x);
    case User(w, x) => NamesOpenedUser(st, w, x);
  }

  lemma TokensNameOpened(run: seq<State>, ev: seq<Event>, i: nat)
    requires IsRun(run, ev) && i < |run|
    ensures NamesOpened(run[i])
  {
    SafeInit(run[0]);
    forall st: State, e: Event, st': State | Accounted(st) && NamesOpened(st) && Step(st, e, st')
      ensures Accounted(st') && NamesOpened(st')
    {
      AccountedStep(st, e);
      NamesOpenedStep(st, e, st');
    }
    Runs.Along(Initial, Step, (st: State) => Accounted(st) && NamesOpened(st), run, ev, 0, i);
  }

  /** No session, no retry token, and no rotation announced. */
  predicate Parked(st: State) {
    && st.holder.conn.None?
    && !Announced(st)
    && (|| (st.sup.AtSelect? && st.holder.bad != Full(None))
        || (st.sup.GotBad? && st.sup.token.Some? && st.holder.bad != Full(None))
        || st.sup.Stopped?)
  }

  /** The source has nothing new: whatever it publishes is the leaf already current. */
  predicate NothingNew(st: State, e: Event) {
    e.Stream? && e.stream.Publish? ==> e.stream.leaf == st.leaf
  }

  lemma ParkedSuper(st: State, x: SupStep)
    requires Parked(st) && SupEnabled(st, x)
    ensures Parked(ApplySup(st, x)) && ApplySup(st, x).leaves == st.leaves
  {
  }

  lemma ParkedUser(st: State, w: Who, x: UserStep)
    requires Parked(st) && UserEnabled(st, w, x)
    ensures Parked(ApplyUser(st, w, x)) && ApplyUser(st, w, x).leaves == st.leaves
  {
  }

  lemma ParkedStep(st: State, e: Event, st': State)
    requires Parked(st) && Step(st, e, st') && NothingNew(st, e)
    ensures Parked(st') && st'.leaves == st.leaves
  {
    match e
    case Stream(_) =>
    case Main(_) =>
    case Super(x) => ParkedSuper(st, x);
    case User(w, x) => ParkedUser(st, w, x);
  }

  /**
   * What losing the token costs: until the source publishes a different leaf the sidecar
   * stays without a session and opens none, however the other goroutines run.
   */
  lemma {:induction false} ParkedUntilRotation(run: seq<State>, ev: seq<Event>, i: nat, j: nat)
    requires IsRun(run, ev) && i <= j < |run| && Parked(run[i])
    requires forall k {:trigger NothingNew(run[k], ev[k])} :: i <= k < j ==> NothingNew(run[k], ev[k])
    ensures Parked(run[j]) && run[j].holder.conn.None? && run[j].leaves == run[i].leaves
    decreases j
  {
    if i < j {
      ParkedUntilRotation(run, ev, i, j - 1);
      assert NothingNew(run[j - 1], ev[j - 1]);
      assert Step(run[j - 1], ev[j - 1], run[j]);
      ParkedStep(run[j - 1], ev[j - 1], run[j]);
    }
  }

  // ---------------------------------------------------------------- reports of the current session

  /**
   * Exactly when a report of the installed session is heard: unless the session was doomed
   * already, the report dooms it if and only if the slot is free. What fills it otherwise is
   * a report of some other session, or a leftover retry token.
   */
  lemma ReportHeardExactly(st: State, who: Who, st': State, s: nat)
    requires Safe(st) && Step(st, User(who, FailSend), st')
    requires Worker(st, who) == Reporting(s) && st.holder.conn == Some(s) && !st.sup.Stopped?
    ensures Doomed(st', s) <==> Doomed(st, s) || st.holder.bad.Empty?
    ensures !Doomed(st', s) ==> st.holder.bad.Full? && st.holder.bad.token != Some(s)
  {
    assert !Vacated(st);
  }

  /** A failure is reported exactly when the session is still the installed one at that moment. */
  lemma ReportSentExactly(run: seq<State>, ev: seq<Event>, i: nat, who: Who, s: nat)
    requires IsRun(run, ev) && i < |ev| && ev[i] == User(who, FailRead) && Worker(run[i], who) == Failing(s)
    ensures Worker(run[i + 1], who) == if run[i].holder.conn == Some(s) then Reporting(s) else Idle
  {
    assert Step(run[i], ev[i], run[i + 1]);
  }

  /**
   * And what a report is good for: once it has gone into a free slot, the session it names is
   * out of the holder, or the supervisor has stopped, within eleven supervisor steps.
   */
  lemma ReportedGivenUp(run: seq<State>, ev: seq<Event>, i: nat, j: nat, who: Who, s: nat)
    requires IsRun(run, ev) && i < j < |run|
    requires ev[i] == User(who, FailSend) && Worker(run[i], who) == Reporting(s) && run[i].holder.bad.Empty?
    requires SupervisorSteps(ev[i + 1..j]) >= MAX_RANK - 1
    ensures exists k {:trigger GivenUp(run[k], s)} :: i <= k <= j && GivenUp(run[k], s)
  {
    if !GivenUp(run[i], s) {
      SafeAlong(run, ev, i);
      assert Step(run[i], ev[i], run[i + 1]);
      ReportHeardExactly(run[i], who, run[i + 1], s);
      GivenUpWithinElevenSteps(run, ev, i + 1, j, s);
    }
  }
}
