/** The sender's coarse refresh of the write deadline. */
module WriteDeadline {
  import opened Common

  const BUDGET: nat := 500_000_000
  const HALF: nat := BUDGET / 2
  const ZERO: Time := 0    // the zero time, long before any real one

  /** One iteration that got as far as looking for a session, at time `now`. */
  datatype Attempt = Attempt(now: Time, conn: Option<nat>)

  /** The loop's variables, and the deadline every connection really has. */
  datatype Guard = Guard(deadlineAt: Time, lastConn: Option<nat>, armed: map<nat, Time>)

  const START := Guard(ZERO, None, map[])

  /** The deadline the loop believes the connection has. */
  function Believed(g: Guard, c: nat): Time {
    if g.lastConn == Some(c) then g.deadlineAt else ZERO
  }

  predicate Refreshes(g: Guard, x: Attempt) {
    x.conn.Some? && x.now + HALF > Believed(g, x.conn.value)
  }

  function Arm(g: Guard, x: Attempt): Guard {
    if x.conn.None? then g
    else if Refreshes(g, x) then
      Guard(x.now + BUDGET, x.conn, g.armed[x.conn.value := x.now + BUDGET])
    else Guard(Believed(g, x.conn.value), x.conn, g.armed)
  }

  function After(xs: seq<Attempt>): Guard {
    if xs == [] then START else Arm(After(xs[..|xs| - 1]), xs[|xs| - 1])
  }

  /** The clock does not run backwards. */
  predicate Monotone(xs: seq<Attempt>) {
    forall i, j :: 0 <= i < j < |xs| ==> xs[i].now <= xs[j].now
  }

  /** The loop of `senderLoop`, reduced to its deadline handling. */
  method SenderLoop(xs: seq<Attempt>) returns (armed: map<nat, Time>, calls: nat)
    ensures armed == After(xs).armed
    ensures calls == Refreshed(xs)
  {
    var deadlineAt: Time := ZERO;
    var lastConn: Option<nat> := None;
    armed, calls := map[], 0;
    for k := 0 to |xs|
      invariant Guard(deadlineAt, lastConn, armed) == After(xs[..k])
      invariant calls == Refreshed(xs[..k])
    {
      assert xs[..k + 1][..k] == xs[..k];
      var conn := xs[k].conn;
      if conn.None? {
        continue;
      }
      if conn != lastConn {
        lastConn, deadlineAt := conn, ZERO;
      }
      var now := xs[k].now;
      if now + BUDGET / 2 > deadlineAt {
        deadlineAt := now + BUDGET;
        armed := armed[conn.value := deadlineAt];
        calls := calls + 1;
      }
    }
    assert xs[..|xs|] == xs;
  }

  /** How many of the attempts call SetWriteDeadline. */
  function Refreshed(xs: seq<Attempt>): nat {
    if xs == [] then 0
    else
      var init := xs[..|xs| - 1];
      Refreshed(init) + (if Refreshes(After(init), xs[|xs| - 1]) then 1 else 0)
  }

  /** What the loop believes is true, and no deadline lies more than a budget ahead. */
  lemma {:induction false} BeliefIsTrue(xs: seq<Attempt>)
    requires Monotone(xs)
    ensures var g := After(xs);
            g.lastConn.Some? ==>
              && g.lastConn.value in g.armed && g.armed[g.lastConn.value] == g.deadlineAt
              && xs != [] && g.deadlineAt <= xs[|xs| - 1].now + BUDGET
    decreases |xs|
  {
    if xs != [] {
      BeliefIsTrue(xs[..|xs| - 1]);
    }
  }

  /**
   * The coarse refresh is as good as a refresh per packet, to within half a budget: at
   * every write, on any connection and also right after a replacement, the deadline really
   * armed is at least half a budget and at most a budget away.
   */
  lemma DeadlineInForce(xs: seq<Attempt>, k: nat)
    requires Monotone(xs) && k < |xs| && xs[k].conn.Some?
    ensures var armed := After(xs[..k + 1]).armed;
            && xs[k].conn.value in armed
            && xs[k].now + BUDGET / 2 <= armed[xs[k].conn.value] <= xs[k].now + BUDGET
  {
    var upto := xs[..k + 1];
    assert upto[..k] == xs[..k] && upto[k] == xs[k];
    BeliefIsTrue(xs[..k]);
  }

  /** Attempts between `i` and `j` use one connection, or find none. */
  predicate OneConnection(xs: seq<Attempt>, i: nat, j: nat, c: nat)
    requires j < |xs|
  {
    forall k :: i < k <= j ==> xs[k].conn == None || xs[k].conn == Some(c)
  }

  lemma AfterOneMore(xs: seq<Attempt>, k: nat)
    requires k < |xs|
    ensures After(xs[..k + 1]) == Arm(After(xs[..k]), xs[k])
    ensures Refreshed(xs[..k + 1]) == Refreshed(xs[..k]) + (if Refreshes(After(xs[..k]), xs[k]) then 1 else 0)
  {
    assert xs[..k + 1][..k] == xs[..k];
  }

  /** One more attempt on the connection the loop is using. */
  lemma SpacedStep(g: Guard, x: Attempt, c: nat, start: Time, further: nat)
    requires g.lastConn == Some(c) && (x.conn == None || x.conn == Some(c))
    requires start + further * (HALF + 1) + BUDGET <= g.deadlineAt <= x.now + BUDGET
    ensures Arm(g, x).lastConn == Some(c)
    ensures var further' := further + (if Refreshes(g, x) then 1 else 0);
            start + further' * (HALF + 1) + BUDGET <= Arm(g, x).deadlineAt <= x.now + BUDGET
  {
  }

  /**
   * And it is rare: if attempt `i` refreshes a connection that stays in use until `j`, then
   * every further refresh costs more than half a budget of time.
   */
  lemma {:induction false} RefreshesAreSpaced(xs: seq<Attempt>, i: nat, j: nat, c: nat)
    requires Monotone(xs) && i <= j < |xs| && xs[i].conn == Some(c) && OneConnection(xs, i, j, c)
    requires Refreshes(After(xs[..i]), xs[i])
    ensures After(xs[..j + 1]).lastConn == Some(c)
    ensures var further := Refreshed(xs[..j + 1]) - Refreshed(xs[..i + 1]);
            && further >= 0
            && xs[i].now + further * (HALF + 1) + BUDGET <= After(xs[..j + 1]).deadlineAt <= xs[j].now + BUDGET
    decreases j
  {
    AfterOneMore(xs, j);
    if i < j {
      RefreshesAreSpaced(xs, i, j - 1, c);
      assert xs[j].conn == None || xs[j].conn == Some(c);
      assert xs[j - 1].now <= xs[j].now;
      var further := Refreshed(xs[..j]) - Refreshed(xs[..i + 1]);
      SpacedStep(After(xs[..j]), xs[j], c, xs[i].now, further);
    }
  }

  /** `k` refreshes of one connection span more than `k - 1` half budgets. */
  lemma RefreshRate(xs: seq<Attempt>, i: nat, j: nat, c: nat)
    requires Monotone(xs) && i <= j < |xs| && xs[i].conn == Some(c) && OneConnection(xs, i, j, c)
    requires Refreshes(After(xs[..i]), xs[i])
    ensures var k := 1 + Refreshed(xs[..j + 1]) - Refreshed(xs[..i + 1]);
            k >= 1 && xs[j].now - xs[i].now >= (k - 1) * (HALF + 1)
  {
    RefreshesAreSpaced(xs, i, j, c);
  }
}
