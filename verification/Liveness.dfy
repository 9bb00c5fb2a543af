/**
 * Inferring that a session has become one-way: the receiver's judgement at every read
 * timeout, over whole runs with a clock.
 *
 * The sender writes a record and counts it afterwards; the judgement sees only the count.
 * A read returns, or the wait for a session ends, at the latest `jitter` after its deadline;
 * that bound is an assumption about the scheduler and matters only for when reports come.
 */
module Liveness {
  import opened Common
  import Runs

  const POLL: nat := 3_000_000_000
  const DEAD_AFTER: nat := 20_000_000_000

  datatype State = State(
    jitter: nat,
    now: Time,
    uncounted: bool,            // the sender is between its write and its count
    nSent: nat,
    lastRecv: Time,
    sentAtLastRecv: nat,
    armedAt: Time               // when the read now waiting was given its deadline
  )

  datatype Event =
    | Written(t: Time)          // the sender wrote a record
    | Counted(t: Time)          // and added it to nSent
    | Record(t: Time)           // a read returned a record
    | Timeout(t: Time)          // a read returned because its deadline passed
    | Error(t: Time)            // a read failed: the session is reported at once
    | NoSession(t: Time)        // there was no session to read from

  function Init(jitter: nat, t: Time): State {
    State(jitter, t, false, 0, t, 0, t)
  }

  predicate Enabled(st: State, e: Event) {
    && st.now <= e.t <= st.armedAt + POLL + st.jitter
    && (e.Timeout? ==> st.armedAt + POLL <= e.t)
    && (e.Written? ==> !st.uncounted)
    && (e.Counted? ==> st.uncounted)
  }

  /** The judgement: something was counted since the baseline, and nothing came for too long. */
  predicate Dead(st: State, t: Time) {
    st.nSent > st.sentAtLastRecv && t > st.lastRecv + DEAD_AFTER
  }

  predicate TimeoutReports(st: State, e: Event) {
    e.Timeout? && Dead(st, e.t)
  }

  predicate Reports(st: State, e: Event) {
    e.Error? || TimeoutReports(st, e)
  }

  predicate Rebases(st: State, e: Event) {
    e.Record? || e.NoSession? || TimeoutReports(st, e)
  }

  function Rebased(st: State, t: Time): State {
    st.(lastRecv := t, sentAtLastRecv := st.nSent)
  }

  function Apply(st: State, e: Event): State {
    var on := st.(now := e.t);
    match e
    case Written(_) => on.(uncounted := true)
    case Counted(_) => on.(uncounted := false, nSent := st.nSent + 1)
    case _ => (if Rebases(st, e) then Rebased(on, e.t) else on).(armedAt := e.t)
  }

  ghost predicate Step(st: State, e: Event, st': State) {
    Enabled(st, e) && st' == Apply(st, e)
  }

  ghost predicate Initial(st: State) {
    st == Init(st.jitter, st.now)
  }

  ghost predicate IsRun(run: seq<State>, ev: seq<Event>) {
    Runs.IsRun(Initial, Step, run, ev)
  }

  // ---------------------------------------------------------------- the receiver's loop

  /** The receiver's variables and its judgement. */
  class Tracker {
    var lastRecv: Time
    var sentAtLastRecv: nat

    ghost predicate Represents(st: State)
      reads this
    {
      lastRecv == st.lastRecv && sentAtLastRecv == st.sentAtLastRecv
    }

    constructor (now: Time, sent: nat)
      ensures lastRecv == now && sentAtLastRecv == sent
    {
      lastRecv, sentAtLastRecv := now, sent;
    }

    /** A record arrived, or there was no session: start counting afresh. */
    method Rebase(now: Time, sent: nat, ghost st: State)
      requires Represents(st) && sent == st.nSent
      modifies this
      ensures Represents(Rebased(st, now))
    {
      lastRecv, sentAtLastRecv := now, sent;
    }

    /** A read timed out; true means the session is reported as lost. */
    method OnTimeout(now: Time, sent: nat, ghost st: State) returns (fail: bool)
      requires Represents(st) && Enabled(st, Timeout(now)) && sent == st.nSent
      modifies this
      ensures Represents(Apply(st, Timeout(now)))
      ensures fail <==> TimeoutReports(st, Timeout(now))
    {
      fail := sent > sentAtLastRecv && now > lastRecv + DEAD_AFTER;
      if fail {
        lastRecv, sentAtLastRecv := now, sent;
      }
    }
  }

  /**
   * The receive loop over a whole run: from its two variables and the shared counter alone
   * it reports at exactly the steps at which the timed model does.
   */
  method ReceiverLoop(start: Time, ev: seq<Event>, ghost run: seq<State>) returns (reports: seq<nat>)
    requires IsRun(run, ev) && run[0].now == start
    ensures forall n {:trigger n in reports} :: n in reports <==> 0 <= n < |ev| && Reports(run[n], ev[n])
    ensures forall i, j :: 0 <= i < j < |reports| ==> reports[i] < reports[j]
  {
    var tracker := new Tracker(start, 0);
    var nSent := 0;
    reports := [];
    for n := 0 to |ev|
      invariant fresh(tracker) && tracker.Represents(run[n]) && nSent == run[n].nSent
      invariant forall k {:trigger k in reports} :: k in reports <==> 0 <= k < n && Reports(run[k], ev[k])
      invariant forall i, j :: 0 <= i < j < |reports| ==> reports[i] < reports[j]
      invariant forall i :: 0 <= i < |reports| ==> reports[i] < n
    {
      assert Step(run[n], ev[n], run[n + 1]);
      match ev[n] {
        case Written(_) =>
        case Counted(_) => nSent := nSent + 1;
        case Record(t) => tracker.Rebase(t, nSent, run[n]);
        case NoSession(t) => tracker.Rebase(t, nSent, run[n]);
        case Error(_) => reports := reports + [n];
        case Timeout(t) =>
          var fail := tracker.OnTimeout(t, nSent, run[n]);
          if fail {
            reports := reports + [n];
          }
      }
    }
  }

  // ---------------------------------------------------------------- what is behind a report

  /** The receiver starts afresh here: a record, no session, or a session just given up. */
  predicate Afresh(st: State, e: Event) {
    e.Record? || e.NoSession? || TimeoutReports(st, e)
  }

  /** The baseline is taken there and nowhere else; a read error in particular leaves it. */
  lemma BaselineMoves(run: seq<State>, ev: seq<Event>, n: nat)
    requires IsRun(run, ev) && n < |ev|
    ensures var st, st' := run[n], run[n + 1];
            if Afresh(st, ev[n]) then st'.lastRecv == ev[n].t && st'.sentAtLastRecv == st.nSent
            else st'.lastRecv == st.lastRecv && st'.sentAtLastRecv == st.sentAtLastRecv
  {
    assert Step(run[n], ev[n], run[n + 1]);
  }

  lemma {:induction false} AfreshBeforeBaseline(run: seq<State>, ev: seq<Event>, n: nat, j: nat)
    requires IsRun(run, ev) && n < |run| && j < n && Afresh(run[j], ev[j])
    ensures ev[j].t <= run[n].lastRecv <= run[n].now
    decreases n
  {
    assert Step(run[n - 1], ev[n - 1], run[n]);
    if j < n - 1 {
      AfreshBeforeBaseline(run, ev, n - 1, j);
    }
  }

  /** The baseline in force at step `n` was taken on arriving at step `b`. */
  ghost predicate BaselineAt(run: seq<State>, ev: seq<Event>, b: nat, n: nat)
    requires |run| == |ev| + 1 && n < |run|
  {
    && b <= n
    && (b == 0 || Rebases(run[b - 1], ev[b - 1]))
    && (forall j {:trigger Rebases(run[j], ev[j])} :: b <= j < n ==> !Rebases(run[j], ev[j]))
    && run[n].sentAtLastRecv == run[b].nSent && run[n].lastRecv == run[b].now
  }

  lemma {:induction false} FindBaseline(run: seq<State>, ev: seq<Event>, n: nat) returns (b: nat)
    requires IsRun(run, ev) && n < |run|
    ensures BaselineAt(run, ev, b, n)
    decreases n
  {
    if n == 0 {
      b := 0;
    } else {
      var st, e := run[n - 1], ev[n - 1];
      assert Step(st, e, run[n]);
      if Rebases(st, e) {
        b := n;
      } else {
        b := FindBaseline(run, ev, n - 1);
      }
    }
  }

  /** Records written in a stretch of events. */
  function Writes(ev: seq<Event>): nat {
    if ev == [] then 0 else Writes(ev[..|ev| - 1]) + Bit(ev[|ev| - 1].Written?)
  }

  lemma {:induction false} WritesPositive(ev: seq<Event>)
    ensures Writes(ev) > 0 <==> exists k :: 0 <= k < |ev| && ev[k].Written?
    decreases |ev|
  {
    if ev != [] {
      var init := ev[..|ev| - 1];
      WritesPositive(init);
      if k :| 0 <= k < |ev| && ev[k].Written? {
        assert k < |init| ==> init[k].Written?;
      }
      if k :| 0 <= k < |init| && init[k].Written? {
        assert ev[k].Written?;
      }
    }
  }

  /** What was written in a stretch was counted in it, up to the one write at either end. */
  lemma {:induction false} WritesAreCounted(run: seq<State>, ev: seq<Event>, b: nat, n: nat)
    requires IsRun(run, ev) && b <= n < |run|
    ensures run[b].nSent + Bit(run[b].uncounted) + Writes(ev[b..n]) == run[n].nSent + Bit(run[n].uncounted)
    decreases n
  {
    if b < n {
      WritesAreCounted(run, ev, b, n - 1);
      assert Step(run[n - 1], ev[n - 1], run[n]);
      assert ev[b..n][..n - 1 - b] == ev[b..n - 1];
    }
  }

  /** Something was written since the baseline taken at `b`. */
  ghost predicate WrittenSince(ev: seq<Event>, b: nat, n: nat) {
    exists k :: b <= k < n && k < |ev| && ev[k].Written?
  }

  lemma WrittenSinceExactly(ev: seq<Event>, b: nat, n: nat)
    requires b <= n <= |ev|
    ensures WrittenSince(ev, b, n) <==> Writes(ev[b..n]) > 0
  {
    var part := ev[b..n];
    WritesPositive(part);
    if k :| b <= k < n && k < |ev| && ev[k].Written? {
      assert part[k - b].Written?;
    }
    if k :| 0 <= k < |part| && part[k].Written? {
      assert ev[b + k].Written?;
    }
  }

  /**
   * What a session inferred to be lost has behind it: for longer than the limit nothing was
   * received, the session was not missing, and none was given up, in any case. But that
   * something was sent since the baseline holds if and only if it is not so that the sender
   * stood between a write and its count when the baseline was taken, that count is the only
   * one since, and no write is under way now.
   */
  lemma ReportCauseExactly(run: seq<State>, ev: seq<Event>, n: nat) returns (b: nat)
    requires IsRun(run, ev) && n < |ev| && TimeoutReports(run[n], ev[n])
    ensures forall j :: 0 <= j < n && Afresh(run[j], ev[j]) ==> ev[j].t + DEAD_AFTER < ev[n].t
    ensures BaselineAt(run, ev, b, n) && (b > 0 ==> Afresh(run[b - 1], ev[b - 1]))
    ensures forall j :: b <= j < n ==> !Afresh(run[j], ev[j])
    ensures WrittenSince(ev, b, n)
            <==> !(run[b].uncounted && run[n].nSent == run[b].nSent + 1 && !run[n].uncounted)
  {
    forall j | 0 <= j < n && Afresh(run[j], ev[j]) ensures ev[j].t + DEAD_AFTER < ev[n].t {
      AfreshBeforeBaseline(run, ev, n, j);
    }
    b := FindBaseline(run, ev, n);
    forall j | b <= j < n ensures !Afresh(run[j], ev[j]) {
      assert !Rebases(run[j], ev[j]);
    }
    WritesAreCounted(run, ev, b, n);
    WrittenSinceExactly(ev, b, n);
  }

  /**
   * So a session on which nothing has been written since the baseline is not inferred to be
   * lost, unless the sender stood between a write and its count when the baseline was taken.
   */
  lemma IdleNeverReported(run: seq<State>, ev: seq<Event>, b: nat, n: nat)
    requires IsRun(run, ev) && n < |ev| && BaselineAt(run, ev, b, n)
    requires !run[b].uncounted && !WrittenSince(ev, b, n)
    ensures !TimeoutReports(run[n], ev[n])
  {
    WritesAreCounted(run, ev, b, n);
    WrittenSinceExactly(ev, b, n);
  }

  /** In particular none before the first write of the process. */
  lemma SilentSenderNeverReported(run: seq<State>, ev: seq<Event>, n: nat)
    requires IsRun(run, ev) && n < |ev|
    requires forall k :: 0 <= k < n ==> !ev[k].Written?
    ensures !TimeoutReports(run[n], ev[n])
  {
    var b := FindBaseline(run, ev, n);
    WritesAreCounted(run, ev, 0, b);
    WrittenSinceExactly(ev, 0, b);
    IdleNeverReported(run, ev, b, n);
  }

  // ---------------------------------------------------------------- when a report comes

  function Max(a: nat, b: nat): nat {
    if a >= b then a else b
  }

  /** No report and no new baseline between steps `k` and `n`. */
  ghost predicate Undisturbed(run: seq<State>, ev: seq<Event>, k: nat, n: nat)
    requires |run| == |ev| + 1 && n < |run|
  {
    forall j {:trigger Rebases(run[j], ev[j])} :: k < j < n ==> !Rebases(run[j], ev[j]) && !ev[j].Error?
  }

  predicate Clocked(st: State) {
    && st.lastRecv <= st.armedAt <= st.now <= st.armedAt + POLL + st.jitter
    && st.sentAtLastRecv <= st.nSent
  }

  lemma ClockedAlong(run: seq<State>, ev: seq<Event>, n: nat)
    requires IsRun(run, ev) && n < |run|
    ensures Clocked(run[n]) && run[n].jitter == run[0].jitter
  {
    var jitter := run[0].jitter;
    Runs.Along(Initial, Step, (st: State) => Clocked(st) && st.jitter == jitter, run, ev, 0, n);
  }

  /** After a count, while nothing disturbs it, no read is armed past the point of judgement. */
  lemma {:induction false} CountPending(run: seq<State>, ev: seq<Event>, k: nat, n: nat)
    requires IsRun(run, ev) && k < n < |run| && ev[k].Counted? && Undisturbed(run, ev, k, n)
    ensures run[n].nSent > run[n].sentAtLastRecv && run[n].lastRecv == run[k + 1].lastRecv
    ensures run[n].armedAt <= Max(run[n].lastRecv + DEAD_AFTER, ev[k].t)
    decreases n
  {
    ClockedAlong(run, ev, n - 1);
    assert Step(run[n - 1], ev[n - 1], run[n]);
    if k < n - 1 {
      CountPending(run, ev, k, n - 1);
      assert !Rebases(run[n - 1], ev[n - 1]);
    }
  }

  /**
   * A counted send followed by silence does not go unnoticed: as long as neither a record,
   * nor a loss of the session, nor a report has followed the count, the clock has not passed
   * the later of the count and the end of the tolerated silence by more than one polling
   * interval (and the scheduler's delay).
   */
  lemma SilenceIsReported(run: seq<State>, ev: seq<Event>, k: nat, n: nat)
    requires IsRun(run, ev) && k < n < |run| && ev[k].Counted? && Undisturbed(run, ev, k, n)
    ensures run[n].now <= Max(run[n].lastRecv + DEAD_AFTER, ev[k].t) + POLL + run[n].jitter
  {
    ClockedAlong(run, ev, n);
    CountPending(run, ev, k, n);
  }

  /** The first poll after `armedAt` that lies beyond `limit`. */
  function FirstPoll(armedAt: Time, limit: Time): (t: Time)
    ensures t > limit && t > armedAt
    ensures (t - armedAt) % POLL == 0
    ensures t > armedAt + POLL ==> t - POLL <= limit
    decreases Max(limit, armedAt) - armedAt
  {
    if armedAt + POLL > limit then armedAt + POLL else FirstPoll(armedAt + POLL, limit)
  }

  lemma {:induction false} PollPending(run: seq<State>, ev: seq<Event>, k: nat, n: nat)
    requires IsRun(run, ev) && run[0].jitter == 0
    requires k < n < |run| && ev[k].Counted? && Undisturbed(run, ev, k, n)
    ensures var limit := run[k + 1].lastRecv + DEAD_AFTER;
            FirstPoll(run[n].armedAt, limit) == FirstPoll(run[k + 1].armedAt, limit)
    decreases n
  {
    if k + 1 < n {
      PollPending(run, ev, k, n - 1);
      CountPending(run, ev, k, n - 1);
      ClockedAlong(run, ev, n - 1);
      assert Step(run[n - 1], ev[n - 1], run[n]);
      assert !Rebases(run[n - 1], ev[n - 1]);
    }
  }

  /**
   * With a prompt scheduler the instant of the report is decided when the send is counted:
   * it is the first poll, from the read armed then, beyond the tolerated silence.
   */
  lemma ReportInstant(run: seq<State>, ev: seq<Event>, k: nat, n: nat)
    requires IsRun(run, ev) && run[0].jitter == 0
    requires k < n < |ev| && ev[k].Counted? && Undisturbed(run, ev, k, n) && TimeoutReports(run[n], ev[n])
    ensures ev[n].t == FirstPoll(run[k + 1].armedAt, run[k + 1].lastRecv + DEAD_AFTER)
  {
    PollPending(run, ev, k, n);
    CountPending(run, ev, k, n);
    ClockedAlong(run, ev, n);
    assert Step(run[n], ev[n], run[n + 1]);
  }

  /** At `t` the send made at `s` is not yet older than the limit the receiver tolerates. */
  predicate Young(s: Time, t: Time) {
    t <= s + DEAD_AFTER
  }

  /**
   * Exactly when a report condemns a send younger than the limit, for a send made at `s`
   * and counted at step `k`. It can be computed at the count.
   */
  lemma YoungExactly(run: seq<State>, ev: seq<Event>, k: nat, n: nat, s: Time)
    requires IsRun(run, ev) && run[0].jitter == 0
    requires k < n < |ev| && ev[k].Counted? && Undisturbed(run, ev, k, n) && TimeoutReports(run[n], ev[n])
    ensures Young(s, ev[n].t) <==> FirstPoll(run[k + 1].armedAt, run[k + 1].lastRecv + DEAD_AFTER) <= s + DEAD_AFTER
  {
    ReportInstant(run, ev, k, n);
  }

  lemma {:induction false} ArmedSince(run: seq<State>, ev: seq<Event>, k: nat, n: nat)
    requires IsRun(run, ev) && k < n < |run| && ev[k].Counted? && Undisturbed(run, ev, k, n)
    ensures run[n].lastRecv == run[k + 1].lastRecv && run[k + 1].armedAt <= run[n].armedAt
    ensures run[n].armedAt <= Max(run[n].lastRecv + DEAD_AFTER, run[k + 1].armedAt)
    decreases n
  {
    if k < n - 1 {
      ArmedSince(run, ev, k, n - 1);
      CountPending(run, ev, k, n - 1);
      ClockedAlong(run, ev, n - 1);
      assert Step(run[n - 1], ev[n - 1], run[n]);
      assert !Rebases(run[n - 1], ev[n - 1]);
    }
  }

  /**
   * For any scheduler the report comes in a window known at the count: beyond the tolerated
   * silence and after the read armed then, but by no more than one polling interval and the
   * delay. So a send is young at its report when the window lies within its limit, and not
   * when it lies beyond.
   */
  lemma ReportWindow(run: seq<State>, ev: seq<Event>, k: nat, n: nat, s: Time)
    requires IsRun(run, ev)
    requires k < n < |ev| && ev[k].Counted? && Undisturbed(run, ev, k, n) && TimeoutReports(run[n], ev[n])
    ensures var limit, armedAt := run[k + 1].lastRecv + DEAD_AFTER, run[k + 1].armedAt;
            && Max(limit + 1, armedAt + POLL) <= ev[n].t <= Max(limit, armedAt) + POLL + run[0].jitter
            && (Max(limit, armedAt) + POLL + run[0].jitter <= s + DEAD_AFTER ==> Young(s, ev[n].t))
            && (Max(limit + 1, armedAt + POLL) > s + DEAD_AFTER ==> !Young(s, ev[n].t))
  {
    ArmedSince(run, ev, k, n);
    ClockedAlong(run, ev, n);
    assert Step(run[n], ev[n], run[n + 1]);
  }

  /**
   * For any scheduler: a send no later than the last receipt is never young when reported,
   * and one counted at least a poll (and the delay) after it always is.
   */
  lemma YoungBounds(run: seq<State>, ev: seq<Event>, k: nat, n: nat, s: Time)
    requires IsRun(run, ev)
    requires k < n < |ev| && ev[k].Counted? && Undisturbed(run, ev, k, n) && TimeoutReports(run[n], ev[n])
    ensures s <= run[n].lastRecv ==> !Young(s, ev[n].t)
    ensures s == ev[k].t && s >= run[n].lastRecv + POLL + run[n].jitter && POLL + run[n].jitter <= DEAD_AFTER
            ==> Young(s, ev[n].t)
  {
    CountPending(run, ev, k, n);
    ClockedAlong(run, ev, n);
    assert Step(run[n], ev[n], run[n + 1]);
  }

  // ---------------------------------------------------------------- two runs

  ghost predicate Reachable(st: State) {
    Runs.Reachable(Initial, Step, st)
  }

  lemma Next(st: State, e: Event) returns (st': State)
    requires Reachable(st) && Enabled(st, e)
    ensures st' == Apply(st, e) && Reachable(st')
  {
    st' := Apply(st, e);
    Runs.ReachableStep(Initial, Step, st, e, st');
  }

  /** Reads that time out within the limit change nothing but the clock. */
  lemma {:induction false} Quiet(st: State, n: nat) returns (st': State)
    requires Reachable(st) && st.jitter == 0 && st.now <= st.armedAt + POLL
    requires st.nSent == st.sentAtLastRecv || st.armedAt + n * POLL <= st.lastRecv + DEAD_AFTER
    ensures Reachable(st')
    ensures n > 0 ==> st' == st.(now := st.armedAt + n * POLL, armedAt := st.armedAt + n * POLL)
    ensures n == 0 ==> st' == st
    decreases n
  {
    st' := st;
    if n > 0 {
      st' := Quiet(st, n - 1);
      st' := Next(st', Timeout(st.armedAt + n * POLL));
    }
  }

  /**
   * The timer measures silence, not the age of the unanswered send: after an idle stretch, a
   * session is given up three seconds after the first send on it, well inside the limit.
   */
  lemma YoungSendReported() returns (st: State, s: Time)
    ensures Reachable(st) && st.now == s && st.nSent == st.sentAtLastRecv + 1
    ensures Enabled(st, Timeout(s + POLL)) && TimeoutReports(st, Timeout(s + POLL)) && Young(s, s + POLL)
  {
    st := Init(0, 0);
    Runs.ReachableStart(Initial, Step, st);
    st := Quiet(st, 7);
    s := 7 * POLL;
    st := Next(st, Written(s));
    st := Next(st, Counted(s));
  }

  /**
   * And a session can be given up on which nothing is unanswered: the reply to a write is read
   * before the write is counted, or the session is replaced there; the sidecar then has nothing
   * more to send, and twenty seconds of silence later the count looks like an unanswered
   * datagram.
   */
  lemma LateCountReported(first: Event) returns (run: seq<State>, ev: seq<Event>, n: nat)
    requires first == Record(1) || first == NoSession(1)
    ensures IsRun(run, ev) && n < |ev| && TimeoutReports(run[n], ev[n])
    ensures ev[0].Written? && ev[1] == first && forall k :: 1 < k < |ev| ==> !ev[k].Written?
    ensures forall k :: 1 < k < n ==> !Rebases(run[k], ev[k])
  {
    ev := [Written(0), first, Counted(2)] + seq(7, i requires 0 <= i < 7 => Timeout(1 + (i + 1) * POLL));
    run := seq(|ev| + 1, i requires 0 <= i <= |ev| =>
      if i == 0 then Init(0, 0)
      else if i == 1 then State(0, 0, true, 0, 0, 0, 0)
      else if i == 2 then State(0, 1, true, 0, 1, 0, 1)
      else if i == 3 then State(0, 2, false, 1, 1, 0, 1)
      else if i < 10 then State(0, 1 + (i - 3) * POLL, false, 1, 1, 0, 1 + (i - 3) * POLL)
      else State(0, 1 + 7 * POLL, false, 1, 1 + 7 * POLL, 1, 1 + 7 * POLL));
    n := 9;
    forall k | 0 <= k < |ev| ensures Step(run[k], ev[k], run[k + 1]) {
    }
  }

  /** An answered session. */
  lemma AnsweredSessionReported() returns (run: seq<State>, ev: seq<Event>, n: nat)
    ensures IsRun(run, ev) && n < |ev| && TimeoutReports(run[n], ev[n])
    ensures ev[0].Written? && ev[1].Record? && forall k :: 1 < k < |ev| ==> !ev[k].Written?
  {
    run, ev, n := LateCountReported(Record(1));
  }

  /** A session that replaced the one written on, and has not been used itself. */
  lemma UnusedSessionReported() returns (run: seq<State>, ev: seq<Event>, n: nat)
    ensures IsRun(run, ev) && n < |ev| && TimeoutReports(run[n], ev[n])
    ensures ev[0].Written? && ev[1].NoSession? && forall k :: 1 < k < |ev| ==> !ev[k].Written?
  {
    run, ev, n := LateCountReported(NoSession(1));
  }
}
