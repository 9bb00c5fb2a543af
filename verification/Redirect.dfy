/**
 * The redirect rules of socket mode, on a small model of the kernel around them.
 *
 * The kernel model is an assumption, and no more than the comments of the source state: a
 * chain is decided by its first matching rule; nat rules are consulted only for the first
 * packet of a flow; later packets of the flow, and packets in its reply direction, are
 * treated as the flow was; untracked packets skip nat. Entries may expire at any time.
 */
module Redirect {
  import opened Common

  type Addr = nat
  type Port = nat

  const PROXY_MARK: nat := 0x4e35
  const LOCALHOST: Addr := 0x7f000001

  datatype Tuple = Tuple(src: Addr, sport: Port, dst: Addr, dport: Port)

  datatype Packet = Packet(t: Tuple, mark: nat)

  /** What a rule asks of a UDP packet; an absent field asks nothing. */
  datatype Match = Match(mark: Option<nat>, sport: Option<Port>, dport: Option<Port>, dst: Option<Addr>)

  datatype Target = NoTrack | Return | Accept | Drop | RedirectTo(port: Port) | Queue(num: nat)

  datatype Rule = Rule(m: Match, target: Target)

  function Inverse(t: Tuple): Tuple {
    Tuple(t.dst, t.dport, t.src, t.sport)
  }

  predicate Agrees(want: Option<nat>, have: nat) {
    want.Some? ==> want.value == have
  }

  predicate Matches(m: Match, pk: Packet) {
    && Agrees(m.mark, pk.mark) && Agrees(m.sport, pk.t.sport)
    && Agrees(m.dport, pk.t.dport) && Agrees(m.dst, pk.t.dst)
  }

  /** The first matching rule decides. */
  function Decide(chain: seq<Rule>, pk: Packet): Option<Target> {
    if chain == [] then None
    else if Matches(chain[0].m, pk) then Some(chain[0].target)
    else Decide(chain[1..], pk)
  }

  lemma {:induction false} DecideAppend(a: seq<Rule>, b: seq<Rule>, pk: Packet)
    ensures Decide(a + b, pk) == if Decide(a, pk).Some? then Decide(a, pk) else Decide(b, pk)
    decreases |a|
  {
    if a == [] {
      assert a + b == b;
    } else {
      assert (a + b)[1..] == a[1..] + b;
      DecideAppend(a[1..], b, pk);
    }
  }

  lemma DecideCons(r: Rule, rest: seq<Rule>, pk: Packet)
    ensures Decide([r] + rest, pk) == if Matches(r.m, pk) then Some(r.target) else Decide(rest, pk)
  {
    assert ([r] + rest)[1..] == rest;
  }

  // ---------------------------------------------------------------- the rule set

  const ANY := Match(None, None, None, None)

  function RawRules(): seq<Rule> {
    [Rule(ANY.(mark := Some(PROXY_MARK)), NoTrack)]
  }

  function PeerRules(toPort: Port, peer: Option<Addr>): seq<Rule> {
    if peer.None? then [] else [Rule(ANY.(dst := peer), RedirectTo(toPort))]
  }

  /** `redirectRuleSet` for the nat table; `peer` is the address in `redirectPeer`, if set. */
  function NatRules(dport: Port, toPort: Port, peer: Option<Addr>): seq<Rule> {
    [ Rule(ANY.(mark := Some(PROXY_MARK)), Return),
      Rule(ANY.(dport := Some(dport)), RedirectTo(toPort)),
      Rule(ANY.(sport := Some(dport)), RedirectTo(toPort)) ] + PeerRules(toPort, peer)
  }

  predicate OnPort(t: Tuple, port: Port) {
    t.sport == port || t.dport == port
  }

  /**
   * The rule set in one line: behind a prior chain that does not decide the packet, exactly
   * the unmarked packets on the port or to the peer are redirected.
   */
  lemma NatDecides(prior: seq<Rule>, dport: Port, toPort: Port, peer: Option<Addr>, pk: Packet)
    requires Decide(prior, pk).None?
    ensures Decide(prior + NatRules(dport, toPort, peer), pk)
            == if pk.mark == PROXY_MARK then Some(Return)
               else if OnPort(pk.t, dport) || peer == Some(pk.t.dst) then Some(RedirectTo(toPort))
               else None
  {
    var rules := NatRules(dport, toPort, peer);
    DecideAppend(prior, rules, pk);
    var tail := PeerRules(toPort, peer);
    assert rules == [rules[0]] + ([rules[1]] + ([rules[2]] + tail));
    DecideCons(rules[0], [rules[1]] + ([rules[2]] + tail), pk);
    DecideCons(rules[1], [rules[2]] + tail, pk);
    DecideCons(rules[2], tail, pk);
    if peer.Some? {
      assert tail == [tail[0]] + [];
      DecideCons(tail[0], [], pk);
    }
  }

  // ---------------------------------------------------------------- connection tracking

  datatype Fate = Redirected | Direct

  /** How a tuple is treated, and the tuple of the first packet of its flow. */
  datatype Entry = Entry(orig: Tuple, fate: Fate)

  /** What the rules are, whether ours are installed, and how every tracked tuple is treated. */
  datatype Host = Host(
    rawPrior: seq<Rule>, natPrior: seq<Rule>,
    dport: Port, toPort: Port, peer: Option<Addr>,
    installed: bool,
    table: map<Tuple, Entry>
  )

  function RawChain(h: Host): seq<Rule> {
    if h.installed then h.rawPrior + RawRules() else h.rawPrior
  }

  function NatChain(h: Host): seq<Rule> {
    if h.installed then h.natPrior + NatRules(h.dport, h.toPort, h.peer) else h.natPrior
  }

  datatype Event =
    | Output(pk: Packet)          // a locally generated packet
    | Inbound(t: Tuple)           // a tracked datagram arriving from outside
    | Expire(ts: set<Tuple>)

  /** Adds a flow unless the tuple is already claimed. */
  function Claim(table: map<Tuple, Entry>, t: Tuple, e: Entry): map<Tuple, Entry> {
    if t in table then table else table[t := e]
  }

  predicate Untracked(h: Host, pk: Packet) {
    Decide(RawChain(h), pk) == Some(NoTrack)
  }

  /** How a locally generated packet is treated. */
  function Treatment(h: Host, pk: Packet): Fate {
    if Untracked(h, pk) then Direct
    else if pk.t in h.table then h.table[pk.t].fate
    else if Decide(NatChain(h), pk) == Some(RedirectTo(h.toPort)) then Redirected
    else Direct
  }

  /** The reply direction of a flow; a redirected one answers from the proxy's socket. */
  function Reply(h: Host, t: Tuple, f: Fate): Tuple {
    if f.Redirected? then Tuple(LOCALHOST, h.toPort, t.src, t.sport) else Inverse(t)
  }

  function Apply(h: Host, e: Event): Host {
    match e
    case Output(pk) =>
      if Untracked(h, pk) || pk.t in h.table then h
      else
        var f := Treatment(h, pk);
        h.(table := Claim(h.table[pk.t := Entry(pk.t, f)], Reply(h, pk.t, f), Entry(pk.t, Direct)))
    case Inbound(t) =>
      if t in h.table then h
      else h.(table := Claim(h.table[t := Entry(t, Direct)], Inverse(t), Entry(t, Direct)))
    case Expire(ts) => h.(table := h.table - ts)
  }

  /** `flushConntrack`: the flows whose first packet was on the port are forgotten, both directions. */
  function Flush(h: Host): Host {
    h.(table := map t | t in h.table && !OnPort(h.table[t].orig, h.dport) :: h.table[t])
  }

  function After(h: Host, ev: seq<Event>): Host {
    if ev == [] then h else Apply(After(h, ev[..|ev| - 1]), ev[|ev| - 1])
  }

  /** No rule in front of ours decides a packet on the port, marked or not. */
  ghost predicate Unobstructed(h: Host) {
    forall pk: Packet {:trigger Decide(h.natPrior, pk)} {:trigger Decide(h.rawPrior, pk)} ::
      OnPort(pk.t, h.dport) || pk.mark == PROXY_MARK ==> Decide(h.natPrior, pk).None? && Decide(h.rawPrior, pk).None?
  }

  /** `installRedirectRules` up to the flush. */
  function Install(h: Host): Host {
    h.(installed := true)
  }

  predicate FromProxySocket(h: Host, t: Tuple) {
    t.src == LOCALHOST && t.sport == h.toPort
  }

  /**
   * A tracked tuple is its flow's first packet, the inverse of it, or an answer from the
   * proxy's socket: nobody else translates addresses on this host.
   */
  ghost predicate NoForeignNat(h: Host) {
    forall t {:trigger t in h.table} :: t in h.table ==>
      t == h.table[t].orig || t == Inverse(h.table[t].orig) || FromProxySocket(h, t)
  }

  /** Every tracked flow on the port goes to the proxy. */
  ghost predicate Intercepting(h: Host) {
    forall t {:trigger t in h.table} :: t in h.table && OnPort(t, h.dport) && !FromProxySocket(h, t)
      ==> h.table[t].fate == Redirected
  }

  lemma RawDecides(h: Host, pk: Packet)
    requires h.installed && Decide(h.rawPrior, pk).None?
    ensures Untracked(h, pk) <==> pk.mark == PROXY_MARK
  {
    DecideAppend(h.rawPrior, RawRules(), pk);
    assert RawRules()[1..] == [];
  }

  lemma NewFlowOnPort(h: Host, pk: Packet)
    requires h.installed && Unobstructed(h) && OnPort(pk.t, h.dport) && pk.mark != PROXY_MARK
    ensures !Untracked(h, pk)
    ensures pk.t !in h.table ==> Treatment(h, pk) == Redirected
    ensures pk.t in h.table ==> Treatment(h, pk) == h.table[pk.t].fate
  {
    assert Decide(h.natPrior, pk).None? && Decide(h.rawPrior, pk).None?;
    RawDecides(h, pk);
    NatDecides(h.natPrior, h.dport, h.toPort, h.peer, pk);
  }

  lemma InterceptingStep(h: Host, e: Event)
    requires h.installed && Unobstructed(h) && Intercepting(h)
    requires e.Inbound? ==> !OnPort(e.t, h.dport)
    ensures Intercepting(Apply(h, e))
  {
    if e.Output? && OnPort(e.pk.t, h.dport) {
      if e.pk.mark == PROXY_MARK {
        assert Decide(h.rawPrior, e.pk).None?;
        RawDecides(h, e.pk);
      } else {
        NewFlowOnPort(h, e.pk);
      }
    }
  }

  lemma {:induction false} InterceptingAfter(h: Host, ev: seq<Event>)
    requires h.installed && Unobstructed(h) && Intercepting(h)
    requires forall i :: 0 <= i < |ev| && ev[i].Inbound? ==> !OnPort(ev[i].t, h.dport)
    ensures var h' := After(h, ev); Intercepting(h') && h' == h.(table := h'.table)
    decreases |ev|
  {
    if ev != [] {
      InterceptingAfter(h, ev[..|ev| - 1]);
      assert Unobstructed(After(h, ev[..|ev| - 1]));
      InterceptingStep(After(h, ev[..|ev| - 1]), ev[|ev| - 1]);
    }
  }

  /** Tracking adds no foreign translation, so the assumption is one about the start only. */
  lemma {:induction false} NoForeignNatAfter(h: Host, ev: seq<Event>)
    requires NoForeignNat(h)
    ensures NoForeignNat(After(h, ev))
    decreases |ev|
  {
    if ev != [] {
      NoForeignNatAfter(h, ev[..|ev| - 1]);
    }
  }

  /**
   * Interception: once the rules are in and old state on the port is flushed, and as long as
   * no datagram on the port is tracked inbound, every unmarked packet on the port goes to
   * the proxy, in every run. (Answers from the proxy's own listening socket excepted; it
   * sends none.)
   */
  lemma EveryPacketIntercepted(h: Host, ev: seq<Event>, pk: Packet)
    requires h.installed && Unobstructed(h) && NoForeignNat(h)
    requires forall i :: 0 <= i < |ev| && ev[i].Inbound? ==> !OnPort(ev[i].t, h.dport)
    requires pk.mark != PROXY_MARK && OnPort(pk.t, h.dport) && !FromProxySocket(h, pk.t)
    ensures Treatment(After(Flush(h), ev), pk) == Redirected
  {
    assert Unobstructed(Flush(h));
    InterceptingAfter(Flush(h), ev);
    NewFlowOnPort(After(Flush(h), ev), pk);
  }

  /**
   * From the beginning: on a host that has tracked nothing, whatever passes before the rules
   * are installed, plain traffic on the port in either direction included, after the install
   * and the flush every unmarked packet on the port goes to the proxy.
   */
  lemma InterceptedFromTheStart(h: Host, before: seq<Event>, ev: seq<Event>, pk: Packet)
    requires h.table == map[] && !h.installed && Unobstructed(h)
    requires forall i :: 0 <= i < |ev| && ev[i].Inbound? ==> !OnPort(ev[i].t, h.dport)
    requires pk.mark != PROXY_MARK && OnPort(pk.t, h.dport) && !FromProxySocket(h, pk.t)
    ensures Treatment(After(Flush(Install(After(h, before))), ev), pk) == Redirected
  {
    var h' := Install(After(h, before));
    RulesUnchanged(h, before);
    NoForeignNatAfter(h, before);
    assert Unobstructed(h') && NoForeignNat(h');
    EveryPacketIntercepted(h', ev, pk);
  }

  /** Delivered datagrams carry the mark and are never turned back, whatever is tracked. */
  lemma DeliveryNeverRedirected(h: Host, ev: seq<Event>, pk: Packet)
    requires h.installed && Unobstructed(h) && pk.mark == PROXY_MARK
    ensures Treatment(After(Flush(h), ev), pk) == Direct
    ensures Apply(After(Flush(h), ev), Output(pk)) == After(Flush(h), ev)
  {
    RulesUnchanged(Flush(h), ev);
    assert Decide(h.rawPrior, pk).None?;
    RawDecides(After(Flush(h), ev), pk);
  }

  lemma {:induction false} RulesUnchanged(h: Host, ev: seq<Event>)
    ensures After(h, ev) == h.(table := After(h, ev).table)
    decreases |ev|
  {
    if ev != [] {
      RulesUnchanged(h, ev[..|ev| - 1]);
    }
  }

  /**
   * The exact condition, in any state: an unmarked packet on the port escapes if and only if
   * its tuple is already tracked as a direct flow.
   */
  lemma EscapesExactly(h: Host, pk: Packet)
    requires h.installed && Unobstructed(h) && OnPort(pk.t, h.dport) && pk.mark != PROXY_MARK
    ensures Treatment(h, pk) == Direct <==> pk.t in h.table && h.table[pk.t].fate == Direct
  {
    NewFlowOnPort(h, pk);
  }

  /**
   * What the flush misses: a packet on the port still escapes right after it if and only if
   * it belongs to a direct flow whose first packet was not on the port.
   */
  lemma EscapesFlushExactly(h: Host, pk: Packet)
    requires h.installed && Unobstructed(h) && OnPort(pk.t, h.dport) && pk.mark != PROXY_MARK
    ensures Treatment(Flush(h), pk) == Direct
            <==> pk.t in h.table && h.table[pk.t].fate == Direct && !OnPort(h.table[pk.t].orig, h.dport)
  {
    assert Unobstructed(Flush(h));
    NewFlowOnPort(Flush(h), pk);
  }

  /** Which happens after a flush as soon as the peer's plain datagram is tracked inbound. */
  lemma InboundLetsTheReplyEscape(h: Host, t: Tuple)
    requires h.installed && Unobstructed(h) && OnPort(t, h.dport)
    requires t !in Flush(h).table && Inverse(t) !in Flush(h).table
    ensures Treatment(After(Flush(h), [Inbound(Inverse(t))]), Packet(t, 0)) == Direct
  {
    var h0 := Flush(h);
    var h1 := Apply(h0, Inbound(Inverse(t)));
    assert [Inbound(Inverse(t))][..0] == [];
    assert After(h0, []) == h0;
    assert After(h0, [Inbound(Inverse(t))]) == h1;
    assert Inverse(Inverse(t)) == t;
    assert Unobstructed(h1);
    NewFlowOnPort(h1, Packet(t, 0));
  }

  // ---------------------------------------------------------------- the sidecar's own DTLS flow

  /**
   * A DTLS dial from a fresh port, on ports other than the intercepted one, leaves the host
   * if and only if `redirectPeer` is not the address dialled.
   */
  lemma FreshDialExactly(h: Host, t: Tuple)
    requires h.installed && !OnPort(t, h.dport) && t !in h.table
    requires Decide(h.natPrior, Packet(t, 0)).None? && Decide(h.rawPrior, Packet(t, 0)).None?
    ensures Treatment(h, Packet(t, 0)) == Direct <==> h.peer != Some(t.dst)
  {
    RawDecides(h, Packet(t, 0));
    NatDecides(h.natPrior, h.dport, h.toPort, h.peer, Packet(t, 0));
  }

  /** A tracked flow is treated the same way until its entry expires. */
  lemma {:induction false} FateKept(h: Host, ev: seq<Event>, t: Tuple)
    requires t in h.table
    requires forall i :: 0 <= i < |ev| && ev[i].Expire? ==> t !in ev[i].ts
    ensures t in After(h, ev).table && After(h, ev).table[t] == h.table[t]
    decreases |ev|
  {
    if ev != [] {
      FateKept(h, ev[..|ev| - 1], t);
    }
  }

  /**
   * Why a wrong `redirectPeer` shows only at the first loss: the session dialled before the
   * rules were installed keeps going out, through the flush and ever after, while any dial
   * from a fresh port is turned back into the sidecar.
   */
  lemma RedialTurnedBack(h: Host, ev: seq<Event>, session: Tuple, redial: Tuple)
    requires h.installed && session in h.table
    requires h.table[session].fate == Direct && !OnPort(h.table[session].orig, h.dport)
    requires h.peer == Some(session.dst) && redial.dst == session.dst && !OnPort(redial, h.dport)
    requires forall i :: 0 <= i < |ev| && ev[i].Expire? ==> session !in ev[i].ts
    requires Decide(h.natPrior, Packet(redial, 0)).None? && Decide(h.rawPrior, Packet(redial, 0)).None?
    requires redial !in After(Flush(h), ev).table
    ensures Treatment(After(Flush(h), ev), Packet(session, 0)) == Direct
    ensures Treatment(After(Flush(h), ev), Packet(redial, 0)) == Redirected
  {
    FateKept(Flush(h), ev, session);
    RulesUnchanged(Flush(h), ev);
    FreshDialExactly(After(Flush(h), ev), redial);
  }

  // ---------------------------------------------------------------- installing and removing

  /** `iptables -D`: the first rule equal to the given one goes; nothing happens without one. */
  function Delete(chain: seq<Rule>, r: Rule): seq<Rule> {
    if chain == [] then []
    else if chain[0] == r then chain[1..]
    else [chain[0]] + Delete(chain[1..], r)
  }

  function DeleteAll(chain: seq<Rule>, rules: seq<Rule>): seq<Rule>
    decreases |rules|
  {
    if rules == [] then chain else DeleteAll(Delete(chain, rules[0]), rules[1..])
  }

  /** The loop of `removeRedirectRules` and `removeNfqRules`. */
  method RemoveRules(chain: seq<Rule>, rules: seq<Rule>) returns (left: seq<Rule>)
    ensures left == DeleteAll(chain, rules)
  {
    left := chain;
    for k := 0 to |rules|
      invariant DeleteAll(left, rules[k..]) == DeleteAll(chain, rules)
    {
      assert rules[k..][1..] == rules[k + 1..];
      left := Delete(left, rules[k]);
    }
  }

  lemma {:induction false} DeleteCounts(chain: seq<Rule>, r: Rule)
    ensures multiset(Delete(chain, r)) == multiset(chain) - multiset{r}
    decreases |chain|
  {
    if chain != [] {
      assert chain == [chain[0]] + chain[1..];
      if chain[0] != r {
        DeleteCounts(chain[1..], r);
      }
    }
  }

  lemma {:induction false} DeleteAbsent(chain: seq<Rule>, r: Rule, rest: seq<Rule>)
    requires r !in chain
    ensures Delete(chain + [r] + rest, r) == chain + rest
    decreases |chain|
  {
    if chain == [] {
      assert chain + [r] + rest == [r] + rest;
    } else {
      DeleteAbsent(chain[1..], r, rest);
      assert (chain + [r] + rest)[1..] == chain[1..] + [r] + rest;
    }
  }

  /** Whatever was in a chain before, install and remove leave the same rules, counted. */
  lemma {:induction false} RemoveAfterInstallCounts(chain: seq<Rule>, rules: seq<Rule>)
    ensures multiset(DeleteAll(chain + rules, rules)) == multiset(chain)
    decreases |rules|
  {
    RemoveCounts(chain + rules, rules);
    assert multiset(chain + rules) == multiset(chain) + multiset(rules);
  }

  lemma {:induction false} RemoveCounts(chain: seq<Rule>, rules: seq<Rule>)
    ensures multiset(DeleteAll(chain, rules)) == multiset(chain) - multiset(rules)
    decreases |rules|
  {
    if rules != [] {
      DeleteCounts(chain, rules[0]);
      RemoveCounts(Delete(chain, rules[0]), rules[1..]);
      HeadApart(rules);
      MinusBoth(multiset(chain), multiset{rules[0]}, multiset(rules[1..]));
    }
  }

  lemma HeadApart(rules: seq<Rule>)
    requires rules != []
    ensures multiset(rules) == multiset{rules[0]} + multiset(rules[1..])
  {
    assert rules == [rules[0]] + rules[1..];
  }

  lemma MinusBoth(a: multiset<Rule>, b: multiset<Rule>, c: multiset<Rule>)
    ensures a - b - c == a - (b + c)
  {
  }

  /** And the same chain, in order, when none of the rules was there before. */
  lemma {:induction false} RemoveUndoesInstall(chain: seq<Rule>, rules: seq<Rule>)
    requires forall r :: r in rules ==> r !in chain
    ensures DeleteAll(chain + rules, rules) == chain
    decreases |rules|
  {
    if rules == [] {
      assert chain + rules == chain;
    } else {
      assert chain + rules == chain + [rules[0]] + rules[1..];
      DeleteAbsent(chain, rules[0], rules[1..]);
      RemoveUndoesInstall(chain, rules[1..]);
    }
  }

  /**
   * For a single appended rule the condition is exact: the chain is restored if and only if
   * nothing else stood behind an equal rule that was there before.
   */
  lemma {:induction false} RemoveUndoesInstallExactly(chain: seq<Rule>, r: Rule)
    ensures Delete(chain + [r], r) == chain
            <==> forall i, j :: 0 <= i < j < |chain| && chain[i] == r ==> chain[j] == r
    decreases |chain|
  {
    if chain == [] {
      assert chain + [r] == [r];
    } else if chain[0] == r {
      assert Delete(chain + [r], r) == chain[1..] + [r];
      if chain[1..] + [r] == chain {
        AllEqual(chain, r);
      }
      if forall i, j :: 0 <= i < j < |chain| && chain[i] == r ==> chain[j] == r {
        assert forall k :: 0 <= k < |chain| ==> chain[k] == r;
        assert chain[1..] + [r] == chain;
      }
    } else {
      var tail := chain[1..];
      assert (chain + [r])[1..] == tail + [r];
      RemoveUndoesInstallExactly(tail, r);
      assert chain == [chain[0]] + tail;
      assert Delete(chain + [r], r) == [chain[0]] + Delete(tail + [r], r);
      if Delete(chain + [r], r) == chain {
        assert Delete(tail + [r], r) == chain[1..];
      }
      assert forall i :: 0 <= i < |tail| ==> tail[i] == chain[i + 1];
      if forall i, j :: 0 <= i < j < |tail| && tail[i] == r ==> tail[j] == r {
        forall i, j | 0 <= i < j < |chain| && chain[i] == r ensures chain[j] == r {
          assert tail[i - 1] == r && tail[j - 1] == chain[j];
        }
      }
      if forall i, j :: 0 <= i < j < |chain| && chain[i] == r ==> chain[j] == r {
        forall i, j | 0 <= i < j < |tail| && tail[i] == r ensures tail[j] == r {
          assert chain[i + 1] == r && chain[j + 1] == tail[j];
        }
      }
    }
  }

  lemma {:induction false} AllEqual(chain: seq<Rule>, r: Rule)
    requires chain != [] && chain[1..] + [r] == chain
    ensures forall k :: 0 <= k < |chain| ==> chain[k] == r
  {
    var k := |chain| - 1;
    assert chain[k] == (chain[1..] + [r])[k] == r;
    while k > 0
      invariant 0 <= k < |chain|
      invariant forall i :: k <= i < |chain| ==> chain[i] == r
    {
      assert chain[k - 1] == (chain[1..] + [r])[k - 1] == chain[k];
      k := k - 1;
    }
  }

  // ------------------------------------------ exactly when the chain is restored

  predicate Distinct(rules: seq<Rule>) {
    forall i, j :: 0 <= i < j < |rules| ==> rules[i] != rules[j]
  }

  /** The rules of the list that a chain already holds, in the order of the list. */
  function Present(chain: seq<Rule>, rules: seq<Rule>): seq<Rule>
    decreases |rules|
  {
    if rules == [] then []
    else (if rules[0] in chain then [rules[0]] else []) + Present(chain, rules[1..])
  }

  /** Position `j` of the chain is the first occurrence of one of the rules. */
  predicate IsFirst(chain: seq<Rule>, rules: seq<Rule>, j: nat)
    requires j < |chain|
  {
    chain[j] in rules && chain[j] !in chain[..j]
  }

  /** How many of the rules occur in the chain. */
  function Seen(chain: seq<Rule>, rules: seq<Rule>): (n: nat)
    ensures n <= |chain|
    decreases |chain|
  {
    if chain == [] then 0
    else
      var last := |chain| - 1;
      Seen(chain[..last], rules) + if IsFirst(chain, rules, last) then 1 else 0
  }

  /** The chain without those first occurrences. */
  function Kept(chain: seq<Rule>, rules: seq<Rule>): (r: seq<Rule>)
    ensures |r| == |chain| - Seen(chain, rules)
    decreases |chain|
  {
    if chain == [] then []
    else
      var last := |chain| - 1;
      Kept(chain[..last], rules) + if IsFirst(chain, rules, last) then [] else [chain[last]]
  }

  /**
   * Position `j` holds a first occurrence, or a rule as far behind an equal one as there are
   * different installed rules in front of it.
   */
  predicate RepeatsAt(chain: seq<Rule>, rules: seq<Rule>, j: nat)
    requires j < |chain|
  {
    IsFirst(chain, rules, j) || chain[j - Seen(chain[..j], rules)] == chain[j]
  }

  predicate RepeatsTo(chain: seq<Rule>, rules: seq<Rule>, m: nat)
    requires m <= |chain|
  {
    forall j :: 0 <= j < m ==> RepeatsAt(chain, rules, j)
  }

  /** The chain repeats throughout and ends in the installed rules it holds. */
  predicate Repeating(chain: seq<Rule>, rules: seq<Rule>) {
    RepeatsTo(chain, rules, |chain|) && EndsIn(chain, Present(chain, rules))
  }

  predicate EndsIn(chain: seq<Rule>, tail: seq<Rule>) {
    |tail| <= |chain| && chain[|chain| - |tail|..] == tail
  }

  lemma {:induction false} DeleteMissing(chain: seq<Rule>, r: Rule)
    requires r !in chain
    ensures Delete(chain, r) == chain
    decreases |chain|
  {
    if chain != [] {
      DeleteMissing(chain[1..], r);
    }
  }

  lemma {:induction false} DeleteInFront(chain: seq<Rule>, r: Rule, rest: seq<Rule>)
    requires r in chain
    ensures Delete(chain + rest, r) == Delete(chain, r) + rest
    decreases |chain|
  {
    assert (chain + rest)[1..] == chain[1..] + rest;
    if chain[0] != r {
      DeleteInFront(chain[1..], r, rest);
    }
  }

  lemma DeleteSnoc(chain: seq<Rule>, x: Rule, r: Rule)
    ensures Delete(chain + [x], r) == if r in chain then Delete(chain, r) + [x]
                                      else if x == r then chain else chain + [x]
  {
    if r in chain {
      DeleteInFront(chain, r, [x]);
    } else if x == r {
      assert chain + [x] == chain + [r] + [];
      DeleteAbsent(chain, r, []);
    } else {
      DeleteMissing(chain + [x], r);
    }
  }

  lemma DeleteKeepsOthers(chain: seq<Rule>, r: Rule, x: Rule)
    requires x != r
    ensures x in Delete(chain, r) <==> x in chain
  {
    DeleteCounts(chain, r);
    assert x in chain <==> x in multiset(chain);
    assert x in Delete(chain, r) <==> x in multiset(Delete(chain, r));
  }

  lemma {:induction false} DeleteAllBeside(chain: seq<Rule>, r: Rule, rest: seq<Rule>)
    requires r !in rest
    ensures DeleteAll(chain + [r], rest) == DeleteAll(chain, rest) + [r]
    decreases |rest|
  {
    if rest != [] {
      DeleteSnoc(chain, r, rest[0]);
      if rest[0] !in chain {
        DeleteMissing(chain, rest[0]);
      }
      DeleteAllBeside(Delete(chain, rest[0]), r, rest[1..]);
    }
  }

  lemma {:induction false} PresentBeside(chain: seq<Rule>, chain': seq<Rule>, rules: seq<Rule>)
    requires forall x :: x in rules ==> (x in chain <==> x in chain')
    ensures Present(chain, rules) == Present(chain', rules)
    decreases |rules|
  {
    if rules != [] {
      PresentBeside(chain, chain', rules[1..]);
    }
  }

  lemma PresentMoved(chain: seq<Rule>, r: Rule, rest: seq<Rule>)
    requires r !in rest
    ensures Present(Delete(chain, r) + [r], rest) == Present(chain, rest)
  {
    var moved := Delete(chain, r) + [r];
    forall x | x in rest ensures x in moved <==> x in chain {
      DeleteKeepsOthers(chain, r, x);
    }
    PresentBeside(moved, chain, rest);
  }

  /** A rule the chain did not hold goes where it was put. */
  lemma AbsentStep(chain: seq<Rule>, r: Rule, rest: seq<Rule>)
    requires r !in chain
    ensures Delete(chain + ([r] + rest), r) == chain + rest && Delete(chain, r) == chain
  {
    Associate(chain, [r], rest);
    DeleteAbsent(chain, r, rest);
    DeleteMissing(chain, r);
  }

  /** A rule the chain held goes where it was before, and the new one stands behind. */
  lemma PresentStep(chain: seq<Rule>, r: Rule, rest: seq<Rule>)
    requires r in chain
    ensures Delete(chain + ([r] + rest), r) == Delete(chain, r) + [r] + rest
  {
    DeleteInFront(chain, r, [r] + rest);
    Associate(Delete(chain, r), [r], rest);
  }

  /**
   * What install followed by remove does to any chain: the rules it already held lose their
   * first occurrence and stand at the end instead.
   */
  lemma {:induction false} RemoveMovesPresent(chain: seq<Rule>, rules: seq<Rule>)
    requires Distinct(rules)
    ensures DeleteAll(chain + rules, rules) == DeleteAll(chain, rules) + Present(chain, rules)
    decreases |rules|
  {
    if rules == [] {
      assert chain + rules == chain;
    } else {
      var r, rest := rules[0], rules[1..];
      assert rules == [r] + rest;
      assert Distinct(rest) && r !in rest;
      if r !in chain {
        AbsentStep(chain, r, rest);
        RemoveMovesPresent(chain, rest);
      } else {
        var gone := Delete(chain, r);
        PresentStep(chain, r, rest);
        RemoveMovesPresent(gone + [r], rest);
        DeleteAllBeside(gone, r, rest);
        PresentMoved(chain, r, rest);
        assert Present(chain, rules) == [r] + Present(chain, rest);
        assert DeleteAll(chain, rules) == DeleteAll(gone, rest);
        Associate(DeleteAll(gone, rest), [r], Present(chain, rest));
      }
    }
  }

  lemma Associate(a: seq<Rule>, b: seq<Rule>, c: seq<Rule>)
    ensures a + b + c == a + (b + c)
  {
  }

  /** Deleting one rule and then dropping the others' first occurrences drops all of them. */
  lemma {:induction false} KeptDelete(chain: seq<Rule>, rules: seq<Rule>)
    requires Distinct(rules) && rules != []
    ensures Kept(Delete(chain, rules[0]), rules[1..]) == Kept(chain, rules)
    decreases |chain|
  {
    if chain != [] {
      var r, rest := rules[0], rules[1..];
      var init, x := chain[..|chain| - 1], chain[|chain| - 1];
      assert chain == init + [x];
      KeptDelete(init, rules);
      DeleteSnoc(init, x, r);
      if r !in init {
        DeleteMissing(init, r);
      }
      if x != r {
        DeleteKeepsOthers(init, r, x);
        var gone := Delete(init, r);
        assert Delete(chain, r) == gone + [x];
        assert (gone + [x])[..|gone|] == gone;
        assert IsFirst(gone + [x], rest, |gone|) <==> IsFirst(chain, rules, |init|);
      } else if r in init {
        var gone := Delete(init, r);
        assert Delete(chain, r) == gone + [x];
        assert (gone + [x])[..|gone|] == gone;
      }
    }
  }

  lemma {:induction false} DeleteAllIsKept(chain: seq<Rule>, rules: seq<Rule>)
    requires Distinct(rules)
    ensures DeleteAll(chain, rules) == Kept(chain, rules)
    decreases |rules|
  {
    if rules == [] {
      KeptNone(chain);
    } else {
      DeleteAllIsKept(Delete(chain, rules[0]), rules[1..]);
      KeptDelete(chain, rules);
    }
  }

  lemma {:induction false} KeptNone(chain: seq<Rule>)
    ensures Kept(chain, []) == chain
    decreases |chain|
  {
    if chain != [] {
      KeptNone(chain[..|chain| - 1]);
    }
  }

  lemma KeptOneMore(chain: seq<Rule>, rules: seq<Rule>, m: nat)
    requires m < |chain|
    ensures Kept(chain[..m + 1], rules)
            == Kept(chain[..m], rules) + if IsFirst(chain, rules, m) then [] else [chain[m]]
  {
    assert chain[..m + 1][..m] == chain[..m];
  }

  lemma RepeatsOneMore(chain: seq<Rule>, rules: seq<Rule>, m: nat)
    requires m < |chain|
    ensures RepeatsTo(chain, rules, m + 1) <==> RepeatsTo(chain, rules, m) && RepeatsAt(chain, rules, m)
  {
  }

  lemma KeptPrefixStep(chain: seq<Rule>, rules: seq<Rule>, m: nat)
    requires m < |chain|
    ensures Kept(chain[..m + 1], rules) <= chain
            <==> Kept(chain[..m], rules) <= chain && RepeatsAt(chain, rules, m)
  {
    var k := Kept(chain[..m], rules);
    KeptOneMore(chain, rules, m);
    PrefixSnoc(k, chain[m], chain);
  }

  /** The chain starts with what is kept of its first `m` rules exactly when those repeat. */
  lemma {:induction false} KeptIsPrefix(chain: seq<Rule>, rules: seq<Rule>, m: nat)
    requires m <= |chain|
    ensures Kept(chain[..m], rules) <= chain <==> RepeatsTo(chain, rules, m)
    decreases m
  {
    if m == 0 {
      assert chain[..0] == [];
    } else {
      var n := m - 1;
      KeptIsPrefix(chain, rules, n);
      KeptPrefixStep(chain, rules, n);
      RepeatsOneMore(chain, rules, n);
    }
  }

  lemma PrefixSnoc(a: seq<Rule>, x: Rule, b: seq<Rule>)
    requires |a| < |b|
    ensures a + [x] <= b <==> a <= b && b[|a|] == x
  {
    if a + [x] <= b {
      assert (a + [x])[|a|] == x;
      assert forall i :: 0 <= i < |a| ==> a[i] == (a + [x])[i];
    }
  }

  /** The chain is restored if and only if it was repeating in the rules installed. */
  lemma RestoredExactly(chain: seq<Rule>, rules: seq<Rule>)
    requires Distinct(rules)
    ensures DeleteAll(chain + rules, rules) == chain <==> Repeating(chain, rules)
  {
    var kept, tail := Kept(chain, rules), Present(chain, rules);
    RemoveMovesPresent(chain, rules);
    DeleteAllIsKept(chain, rules);
    RemoveAfterInstallCounts(chain, rules);
    SameLength(kept + tail, chain);
    assert chain[..|chain|] == chain;
    KeptIsPrefix(chain, rules, |chain|);
    SplitExactly(chain, kept, tail);
  }

  lemma SplitExactly(chain: seq<Rule>, front: seq<Rule>, tail: seq<Rule>)
    requires |front| + |tail| == |chain|
    ensures front + tail == chain <==> front <= chain && EndsIn(chain, tail)
  {
    if front <= chain && EndsIn(chain, tail) {
      assert chain == chain[..|front|] + chain[|front|..];
    }
  }

  lemma SameLength(a: seq<Rule>, b: seq<Rule>)
    requires multiset(a) == multiset(b)
    ensures |a| == |b|
  {
    assert |multiset(a)| == |a| && |multiset(b)| == |b|;
  }

  lemma {:induction false} DeleteLeading(rules: seq<Rule>, behind: seq<Rule>)
    ensures DeleteAll(rules + behind, rules) == behind
    decreases |rules|
  {
    if rules == [] {
      assert rules + behind == behind;
    } else {
      assert (rules + behind)[1..] == rules[1..] + behind;
      DeleteLeading(rules[1..], behind);
    }
  }

  /**
   * A chain that is not restored: with rules left by a process that did not remove them, and
   * others added behind, the next process to come and go moves the leftovers to the end.
   */
  lemma LeftoversMove(rules: seq<Rule>, behind: seq<Rule>)
    ensures DeleteAll(rules + behind + rules, rules) == behind + rules
    ensures rules != [] && behind != [] && rules[0] != behind[0] ==> behind + rules != rules + behind
  {
    Associate(rules, behind, rules);
    DeleteLeading(rules, behind + rules);
    HeadsDiffer(rules, behind);
  }

  lemma HeadsDiffer(a: seq<Rule>, b: seq<Rule>)
    ensures a != [] && b != [] && a[0] != b[0] ==> b + a != a + b
  {
    if a != [] && b != [] && a[0] != b[0] {
      assert (b + a)[0] == b[0] && (a + b)[0] == a[0];
    }
  }

  /** The redirect rules of the nat table. */
  lemma RedirectRestoredExactly(chain: seq<Rule>, dport: Port, toPort: Port, peer: Option<Addr>)
    ensures var rules := NatRules(dport, toPort, peer);
            DeleteAll(chain + rules, rules) == chain <==> Repeating(chain, rules)
  {
    RestoredExactly(chain, NatRules(dport, toPort, peer));
  }

  /** The NFQUEUE rules: one accept in front of the chain, two queue rules behind it. */
  function NfqAccept(mark: nat): Rule {
    Rule(ANY.(mark := Some(mark)), Accept)
  }

  function NfqQueues(queue: nat, dport: Port): seq<Rule> {
    [Rule(ANY.(dport := Some(dport)), Queue(queue)), Rule(ANY.(sport := Some(dport)), Queue(queue))]
  }

  /**
   * What the rules make of a packet: one marked as the sidecar's own is let through whatever
   * else the chain says; of the others the chain decides first, and what it leaves undecided
   * goes to the queue exactly when it is on the port, in either direction.
   */
  lemma NfqDecides(chain: seq<Rule>, queue: nat, dport: Port, mark: nat, pk: Packet)
    ensures Decide([NfqAccept(mark)] + chain + NfqQueues(queue, dport), pk)
            == if pk.mark == mark then Some(Accept)
               else if Decide(chain, pk).Some? then Decide(chain, pk)
               else if OnPort(pk.t, dport) then Some(Queue(queue))
               else None
  {
    var a, qs := NfqAccept(mark), NfqQueues(queue, dport);
    Associate([a], chain, qs);
    DecideCons(a, chain + qs, pk);
    DecideAppend(chain, qs, pk);
    assert qs == [qs[0]] + ([qs[1]] + []);
    DecideCons(qs[0], [qs[1]] + [], pk);
    DecideCons(qs[1], [], pk);
  }

  /**
   * `installNfqRules` and `removeNfqRules`: the rule put in front is the one found first, so
   * an equal rule further down does not matter; the appended ones decide.
   */
  lemma RemoveUndoesNfqInstall(chain: seq<Rule>, queue: nat, dport: Port, mark: nat)
    ensures var installed := [NfqAccept(mark)] + chain + NfqQueues(queue, dport);
            var left := DeleteAll(installed, [NfqAccept(mark)] + NfqQueues(queue, dport));
            && multiset(left) == multiset(chain)
            && (left == chain <==> Repeating(chain, NfqQueues(queue, dport)))
            && ((forall r :: r in NfqQueues(queue, dport) ==> r !in chain) ==> left == chain)
  {
    var a, qs := NfqAccept(mark), NfqQueues(queue, dport);
    var installed := [a] + chain + qs;
    assert installed[1..] == chain + qs;
    assert ([a] + qs)[1..] == qs;
    assert DeleteAll(installed, [a] + qs) == DeleteAll(chain + qs, qs);
    RemoveAfterInstallCounts(chain, qs);
    RestoredExactly(chain, qs);
    if forall r :: r in qs ==> r !in chain {
      RemoveUndoesInstall(chain, qs);
    }
  }
}
