/**
 * The delegated identity source: choosing an SVID from what SPIRE offers, keeping the
 * current certificate and trust bundles, and announcing rotations.
 *
 * Parsing of keys and certificates is foreign code; whether a field parses, and to what, is
 * part of the message.
 */
module DelegatedIdentity {
  import opened Common
  import Session

  datatype SpiffeId = SpiffeId(trustDomain: string, path: string)

  /** A DER blob as received: absent, unparsable, or a certificate or key. */
  datatype Der = Missing | Garbage | Parsed(value: nat)

  /** One offered SVID; `id` is absent when the SVID or its id field is nil. */
  datatype Offer = Offer(id: Option<SpiffeId>, chain: seq<Der>, key: Der)

  /** One trust domain of a bundle message, in the order the map is walked. */
  datatype Ca = Ca(name: Option<string>, certs: Option<seq<Leaf>>)

  datatype Cert = Cert(leaf: Leaf, chain: seq<Der>, key: nat)

  datatype Identity = Identity(
    want: string,
    cert: Option<Cert>,
    id: string,
    bundles: map<string, seq<Leaf>>,
    haveSvid: bool,     // haveSVID has been closed
    haveBundle: bool,   // haveBundle has been closed
    rotated: bool,      // a token waits in `rotated`
    sent: nat           // history: tokens put into `rotated`
  )

  function Name(id: SpiffeId): string {
    "spiffe://" + id.trustDomain + id.path
  }

  predicate Acceptable(want: string, o: Offer) {
    o.id.Some? && (want == "" || Name(o.id.value) == want)
  }

  predicate Complete(o: Offer) {
    o.id.Some? && o.chain != [] && o.key.Parsed? && o.chain[0].Parsed?
  }

  function Names(offers: seq<Offer>): seq<string> {
    if offers == [] then []
    else Names(offers[..|offers| - 1])
         + (var o := offers[|offers| - 1]; if o.id.Some? then [Name(o.id.value)] else [])
  }

  /**
   * `pick`: the first offer that carries an id and is the one wanted, together with the
   * names seen up to it.
   */
  method Pick(want: string, offers: seq<Offer>) returns (chosen: Option<nat>, seen: seq<string>)
    ensures chosen.Some? ==> && chosen.value < |offers| && offers[chosen.value].id.Some?
                             && (var id := offers[chosen.value].id.value;
                                 want == "" || "spiffe://" + id.trustDomain + id.path == want)
                             && Acceptable(want, offers[chosen.value])
                             && (forall k :: 0 <= k < chosen.value ==> !Acceptable(want, offers[k]))
                             && seen == Names(offers[..chosen.value + 1])
    ensures chosen.None? ==> && (want == "" ==> forall k :: 0 <= k < |offers| ==> offers[k].id.None?)
                             && (forall k :: 0 <= k < |offers| ==> !Acceptable(want, offers[k]))
                             && seen == Names(offers)
  {
    seen := [];
    var i := 0;
    while i < |offers|
      invariant 0 <= i <= |offers|
      invariant seen == Names(offers[..i])
      invariant forall k :: 0 <= k < i ==> !Acceptable(want, offers[k])
    {
      assert offers[..i + 1][..i] == offers[..i];
      if offers[i].id.Some? {
        var name := Name(offers[i].id.value);
        seen := seen + [name];
        if want == "" || name == want {
          return Some(i), seen;
        }
      }
      i := i + 1;
    }
    assert offers[..|offers|] == offers;
    chosen := None;
  }

  /** The first acceptable offer, as a function of the message. */
  function Chosen(want: string, offers: seq<Offer>): (r: Option<Offer>)
    ensures r.Some? ==> Acceptable(want, r.value)
  {
    if offers == [] then None
    else if Acceptable(want, offers[0]) then Some(offers[0])
    else Chosen(want, offers[1..])
  }

  lemma {:induction false} ChosenIsFirst(want: string, offers: seq<Offer>, i: nat)
    requires i < |offers| && Acceptable(want, offers[i])
    requires forall k :: 0 <= k < i ==> !Acceptable(want, offers[k])
    ensures Chosen(want, offers) == Some(offers[i])
  {
    if i > 0 {
      assert !Acceptable(want, offers[0]);
      ChosenIsFirst(want, offers[1..], i - 1);
    }
  }

  lemma {:induction false} ChosenNone(want: string, offers: seq<Offer>)
    requires forall k :: 0 <= k < |offers| ==> !Acceptable(want, offers[k])
    ensures Chosen(want, offers).None?
  {
    if offers != [] {
      ChosenNone(want, offers[1..]);
    }
  }

  /** What a stream message makes the source present from now on, if anything. */
  function Accepted(want: string, offers: seq<Offer>): Option<Offer> {
    var c := Chosen(want, offers);
    if c.Some? && Complete(c.value) then c else None
  }

  predicate Renews(s: Identity, o: Offer)
    requires Complete(o)
  {
    s.cert.Some? && s.cert.value.leaf != o.chain[0].value
  }

  /** `applySVID` up to the release of its lock, and the one-shot ready signal. */
  function Publish(s: Identity, o: Offer): Identity
    requires Complete(o)
  {
    s.(cert := Some(Cert(o.chain[0].value, o.chain, o.key.value)), id := Name(o.id.value),
       haveSvid := true)
  }

  /** Its non-blocking send. */
  function Announce(s: Identity, renewed: bool): Identity {
    if renewed && !s.rotated then s.(rotated := true, sent := s.sent + 1) else s
  }

  function OnOffers(s: Identity, offers: seq<Offer>): Identity {
    var a := Accepted(s.want, offers);
    if a.None? then s else Announce(Publish(s, a.value), Renews(s, a.value))
  }

  function Collect(cas: seq<Ca>): map<string, seq<Leaf>> {
    if cas == [] then map[]
    else
      var rest := Collect(cas[..|cas| - 1]);
      var ca := cas[|cas| - 1];
      if Usable(ca) then rest[ca.name.value := ca.certs.value]
      else rest
  }

  predicate Usable(ca: Ca) {
    ca.name.Some? && ca.certs.Some? && ca.certs.value != []
  }

  /** The last usable authority given for a trust domain counts, and nothing else does. */
  lemma {:induction false} BundlesExactly(cas: seq<Ca>, name: string)
    ensures name in Collect(cas) <==> exists k :: 0 <= k < |cas| && Usable(cas[k]) && cas[k].name.value == name
    ensures name in Collect(cas) ==>
              exists k :: 0 <= k < |cas| && Usable(cas[k]) && cas[k].name.value == name
                          && Collect(cas)[name] == cas[k].certs.value
                          && forall l :: k < l < |cas| && Usable(cas[l]) ==> cas[l].name.value != name
    decreases |cas|
  {
    if cas != [] {
      var n := |cas| - 1;
      BundlesExactly(cas[..n], name);
      if Usable(cas[n]) && cas[n].name.value == name {
        assert Collect(cas)[name] == cas[n].certs.value;
      } else if name in Collect(cas[..n]) {
        var k :| 0 <= k < n && Usable(cas[..n][k]) && cas[..n][k].name.value == name
                 && Collect(cas[..n])[name] == cas[..n][k].certs.value
                 && forall l :: k < l < n && Usable(cas[..n][l]) ==> cas[..n][l].name.value != name;
        assert cas[..n][k] == cas[k];
        forall l | k < l < |cas| && Usable(cas[l]) ensures cas[l].name.value != name {
          if l < n {
            assert cas[..n][l] == cas[l];
          }
        }
      }
    }
  }

  function OnCas(s: Identity, cas: seq<Ca>): Identity {
    var next := Collect(cas);
    if next == map[] then s else s.(bundles := next, haveBundle := true)
  }

  class DelegatedSource {
    const want: string
    var cert: Option<Cert>
    var id: string
    var bundles: map<string, seq<Leaf>>
    var haveSvid: bool
    var haveBundle: bool
    var rotated: bool
    ghost var sent: nat

    ghost function Value(): Identity
      reads this
    {
      Identity(want, cert, id, bundles, haveSvid, haveBundle, rotated, sent)
    }

    constructor (want: string)
      ensures Value() == Start(want)
    {
      this.want := want;
      cert, id, bundles := None, "", map[];
      haveSvid, haveBundle, rotated := false, false, false;
      sent := 0;
    }

    /** `applySVID`; false is the error return, which leaves the source as it was. */
    method ApplySvid(o: Offer) returns (ok: bool)
      modifies this
      ensures ok <==> Complete(o)
      ensures ok <==> o.id.Some? && |o.chain| > 0 && o.chain[0].Parsed? && o.key.Parsed?
      ensures Value() == if ok then Announce(Publish(old(Value()), o), Renews(old(Value()), o))
                         else old(Value())
    {
      if o.id.None? || |o.chain| == 0 || o.key.Missing? {
        return false;
      }
      if !o.key.Parsed? || !o.chain[0].Parsed? {
        return false;
      }
      var leaf := o.chain[0].value;
      var first := cert.None?;
      var renewed := !first && leaf != cert.value.leaf;
      cert, id := Some(Cert(leaf, o.chain, o.key.value)), Name(o.id.value);
      haveSvid := true;
      if renewed && !rotated {
        rotated := true;
        sent := sent + 1;
      }
      ok := true;
    }

    /** One message of the SVID stream. */
    method OnSvidMessage(offers: seq<Offer>)
      modifies this
      ensures Value() == OnOffers(old(Value()), offers)
    {
      var chosen, seen := Pick(want, offers);
      if chosen.Some? {
        ChosenIsFirst(want, offers, chosen.value);
        var ok := ApplySvid(offers[chosen.value]);
      } else {
        ChosenNone(want, offers);
      }
    }

    /** `applyBundles`: unusable trust domains are skipped; an empty result is ignored. */
    method ApplyBundles(cas: seq<Ca>)
      modifies this`bundles, this`haveBundle
      ensures Value() == OnCas(old(Value()), cas)
    {
      var next: map<string, seq<Leaf>> := map[];
      for i := 0 to |cas|
        invariant next == Collect(cas[..i])
      {
        assert cas[..i + 1][..i] == cas[..i];
        var ca := cas[i];
        if ca.certs.None? || |ca.certs.value| == 0 {
          continue;
        }
        if ca.name.None? {
          continue;
        }
        next := next[ca.name.value := ca.certs.value];
      }
      assert cas[..|cas|] == cas;
      if next != map[] {
        bundles := next;
        haveBundle := true;
      }
    }

    /** The supervisor receives a token. */
    method TakeRotation()
      requires rotated
      modifies this`rotated
      ensures Value() == old(Value()).(rotated := false)
    {
      rotated := false;
    }
  }

  // ---------------------------------------------------------------- over whole streams

  datatype Message = Svids(offers: seq<Offer>) | Bundles(cas: seq<Ca>) | Taken

  function Start(want: string): Identity {
    Identity(want, None, "", map[], false, false, false, 0)
  }

  function On(s: Identity, m: Message): Identity {
    match m
    case Svids(offers) => OnOffers(s, offers)
    case Bundles(cas) => OnCas(s, cas)
    case Taken => s.(rotated := false)
  }

  function After(want: string, ms: seq<Message>): Identity {
    if ms == [] then Start(want) else On(After(want, ms[..|ms| - 1]), ms[|ms| - 1])
  }

  /** The leaf a message makes the source accept, if any. */
  function AcceptedLeaf(want: string, m: Message): seq<Leaf> {
    if m.Svids? && Accepted(want, m.offers).Some? then [Accepted(want, m.offers).value.chain[0].value]
    else []
  }

  /** The leaves accepted along a stream, oldest first. */
  function AcceptedLeaves(want: string, ms: seq<Message>): seq<Leaf> {
    if ms == [] then []
    else AcceptedLeaves(want, ms[..|ms| - 1]) + AcceptedLeaf(want, ms[|ms| - 1])
  }

  /** How often neighbours differ. */
  function Changes(s: seq<Leaf>): nat {
    if |s| < 2 then 0
    else Changes(s[..|s| - 1]) + (if s[|s| - 2] != s[|s| - 1] then 1 else 0)
  }

  lemma ChangesSnoc(s: seq<Leaf>, l: Leaf)
    ensures Changes(s + [l]) == Changes(s) + (if s != [] && s[|s| - 1] != l then 1 else 0)
  {
    assert (s + [l])[..|s|] == s;
  }

  /** Whether a message makes `applySVID` announce a renewal. */
  predicate Renewal(s: Identity, m: Message) {
    m.Svids? && Accepted(s.want, m.offers).Some? && Renews(s, Accepted(s.want, m.offers).value)
  }

  function Renewals(want: string, ms: seq<Message>): nat {
    if ms == [] then 0
    else
      Renewals(want, ms[..|ms| - 1])
      + (if Renewal(After(want, ms[..|ms| - 1]), ms[|ms| - 1]) then 1 else 0)
  }

  /** What `s` may be after the leaves `ls` were accepted with `renewals` announcements. */
  ghost predicate Consistent(s: Identity, ls: seq<Leaf>, renewals: nat) {
    && (s.cert.Some? <==> ls != [])
    && (ls != [] ==> s.cert.value.leaf == ls[|ls| - 1])
    && (s.haveSvid <==> s.cert.Some?)
    && (s.haveBundle <==> s.bundles != map[])
    && (s.cert.None? ==> s.id == "")
    && (s.cert.Some? && s.want != "" ==> s.id == s.want)
    && renewals == Changes(ls)
    && s.sent <= renewals
  }

  lemma ConsistentOffer(s: Identity, ls: seq<Leaf>, n: nat, o: Offer)
    requires Consistent(s, ls, n) && Complete(o) && Acceptable(s.want, o)
    ensures Consistent(Announce(Publish(s, o), Renews(s, o)), ls + [o.chain[0].value],
                       n + (if Renews(s, o) then 1 else 0))
  {
    ChangesSnoc(ls, o.chain[0].value);
  }

  lemma ConsistentMessage(s: Identity, ls: seq<Leaf>, n: nat, m: Message)
    requires Consistent(s, ls, n)
    ensures Consistent(On(s, m), ls + AcceptedLeaf(s.want, m), n + (if Renewal(s, m) then 1 else 0))
    ensures On(s, m).want == s.want
  {
    if m.Svids? && Accepted(s.want, m.offers).Some? {
      ConsistentOffer(s, ls, n, Accepted(s.want, m.offers).value);
    } else {
      assert ls + AcceptedLeaf(s.want, m) == ls;
    }
  }

  /**
   * For every stream of messages: the identity held is empty or the wanted one, the
   * certificate held is the last one accepted, renewals announced are exactly the
   * neighbouring leaf changes among the accepted SVIDs, and no more tokens than that are
   * ever sent.
   */
  lemma {:induction false} StreamBehaviour(want: string, ms: seq<Message>)
    ensures After(want, ms).want == want
    ensures Consistent(After(want, ms), AcceptedLeaves(want, ms), Renewals(want, ms))
    decreases |ms|
  {
    if ms != [] {
      var init := ms[..|ms| - 1];
      StreamBehaviour(want, init);
      ConsistentMessage(After(want, init), AcceptedLeaves(want, init), Renewals(want, init), ms[|ms| - 1]);
    }
  }

  // ---------------------------------------------------------------- what is held after a stream

  /** Offer `j` of the message is the first acceptable one, and it is complete. */
  ghost predicate AcceptsAt(want: string, m: Message, j: int) {
    && m.Svids? && 0 <= j < |m.offers| && Acceptable(want, m.offers[j]) && Complete(m.offers[j])
    && forall i :: 0 <= i < j ==> !Acceptable(want, m.offers[i])
  }

  ghost predicate Accepts(want: string, m: Message) {
    exists j :: AcceptsAt(want, m, j)
  }

  lemma {:induction false} ChosenAt(want: string, offers: seq<Offer>) returns (j: nat)
    requires Chosen(want, offers).Some?
    ensures j < |offers| && Acceptable(want, offers[j]) && Chosen(want, offers) == Some(offers[j])
    ensures forall i :: 0 <= i < j ==> !Acceptable(want, offers[i])
  {
    if Acceptable(want, offers[0]) {
      j := 0;
    } else {
      j := ChosenAt(want, offers[1..]);
      j := j + 1;
    }
  }

  /** What the source presents for an offer: its leaf, its whole chain and its own key. */
  predicate MadeOf(cert: Cert, id: string, o: Offer) {
    Complete(o) && cert == Cert(o.chain[0].value, o.chain, o.key.value) && id == Name(o.id.value)
  }

  lemma AcceptedStep(s: Identity, m: Message)
    ensures Accepts(s.want, m) ==> On(s, m).cert.Some?
    ensures forall j :: AcceptsAt(s.want, m, j) ==> MadeOf(On(s, m).cert.value, On(s, m).id, m.offers[j])
    ensures !Accepts(s.want, m) ==> On(s, m).cert == s.cert && On(s, m).id == s.id
  {
    forall j | AcceptsAt(s.want, m, j)
      ensures On(s, m).cert.Some? && MadeOf(On(s, m).cert.value, On(s, m).id, m.offers[j])
    {
      ChosenIsFirst(s.want, m.offers, j);
    }
    if m.Svids? && Accepted(s.want, m.offers).Some? {
      var j := ChosenAt(s.want, m.offers);
      assert AcceptsAt(s.want, m, j);
    }
  }

  /** The certificate is made of the offer accepted by the last message that has one. */
  ghost predicate Presents(want: string, ms: seq<Message>, cert: Cert, id: string) {
    exists k, j {:trigger AcceptsAt(want, ms[k], j)} ::
      && LastAt((m: Message) => Accepts(want, m), ms, k) && AcceptsAt(want, ms[k], j)
      && MadeOf(cert, id, ms[k].offers[j])
  }

  /**
   * What is presented after any stream: nothing before a message whose first acceptable offer
   * is complete, and from then on the last such offer, as it was received.
   */
  lemma {:induction false} PresentedExactly(want: string, ms: seq<Message>)
    ensures After(want, ms).cert.None? <==> forall m :: m in ms ==> !Accepts(want, m)
    ensures After(want, ms).cert.Some? ==> Presents(want, ms, After(want, ms).cert.value, After(want, ms).id)
    decreases |ms|
  {
    if ms != [] {
      var n := |ms| - 1;
      var s, init := After(want, ms[..n]), ms[..n];
      PresentedExactly(want, init);
      StreamBehaviour(want, init);
      AcceptedStep(s, ms[n]);
      assert ms == init + [ms[n]];
      if Accepts(want, ms[n]) {
        var j :| AcceptsAt(want, ms[n], j);
        LastAtSnoc((m: Message) => Accepts(want, m), ms, n);
      } else if s.cert.Some? {
        var k, j :| LastAt((m: Message) => Accepts(want, m), init, k) && AcceptsAt(want, init[k], j)
          && MadeOf(s.cert.value, s.id, init[k].offers[j]);
        LastAtSnoc((m: Message) => Accepts(want, m), ms, k);
        assert AcceptsAt(want, ms[k], j);
      }
    }
  }

  /** A bundle message in which some trust domain is usable; others are ignored. */
  ghost predicate Carries(m: Message) {
    m.Bundles? && exists i :: 0 <= i < |m.cas| && Usable(m.cas[i])
  }

  /** Authority `i` is the last usable one of the message for the trust domain. */
  ghost predicate GivesAt(m: Message, i: int, name: string) {
    && m.Bundles? && 0 <= i < |m.cas| && m.cas[i].name == Some(name)
    && m.cas[i].certs.Some? && |m.cas[i].certs.value| > 0
    && forall l :: i < l < |m.cas| && Usable(m.cas[l]) ==> m.cas[l].name.value != name
  }

  ghost predicate Gives(m: Message, name: string, certs: seq<Leaf>) {
    exists i :: GivesAt(m, i, name) && m.cas[i].certs.value == certs
  }

  /** The last message that carries any bundle gives the trust domain these certificates. */
  ghost predicate Trusts(ms: seq<Message>, name: string, certs: seq<Leaf>) {
    exists k {:trigger ms[k]} :: LastAt(Carries, ms, k) && Gives(ms[k], name, certs)
  }

  lemma CollectedExactly(m: Message, name: string, certs: seq<Leaf>)
    requires m.Bundles?
    ensures name in Collect(m.cas) && Collect(m.cas)[name] == certs <==> Gives(m, name, certs)
  {
    BundlesExactly(m.cas, name);
    if name in Collect(m.cas) {
      var i :| 0 <= i < |m.cas| && Usable(m.cas[i]) && m.cas[i].name.value == name
               && Collect(m.cas)[name] == m.cas[i].certs.value
               && forall l :: i < l < |m.cas| && Usable(m.cas[l]) ==> m.cas[l].name.value != name;
      assert GivesAt(m, i, name);
      forall i' | GivesAt(m, i', name) ensures i' == i {
      }
    }
  }

  lemma CarriesExactly(m: Message)
    requires m.Bundles?
    ensures Collect(m.cas) == map[] <==> !Carries(m)
  {
    if i :| 0 <= i < |m.cas| && Usable(m.cas[i]) {
      BundlesExactly(m.cas, m.cas[i].name.value);
    }
    if Collect(m.cas) != map[] {
      var name :| name in Collect(m.cas);
      BundlesExactly(m.cas, name);
    }
  }

  lemma TrustsNext(ms: seq<Message>, name: string, certs: seq<Leaf>)
    requires ms != []
    ensures var m := ms[|ms| - 1];
            Trusts(ms, name, certs)
            <==> if Carries(m) then Gives(m, name, certs) else Trusts(ms[..|ms| - 1], name, certs)
  {
    var n, init := |ms| - 1, ms[..|ms| - 1];
    forall k ensures LastAt(Carries, ms, k) <==> if Carries(ms[n]) then k == n else LastAt(Carries, init, k) {
      LastAtSnoc(Carries, ms, k);
    }
    if Carries(ms[n]) {
      assert LastAt(Carries, ms, n);
    } else if Trusts(init, name, certs) {
      var k :| LastAt(Carries, init, k) && Gives(init[k], name, certs);
      assert LastAt(Carries, ms, k) && ms[k] == init[k];
    }
    if !Carries(ms[n]) && Trusts(ms, name, certs) {
      var k :| LastAt(Carries, ms, k) && Gives(ms[k], name, certs);
      assert ms[k] == init[k];
    }
  }

  /**
   * Which bundles peers are verified against after any stream: exactly those of the last
   * message that carries any, so a trust domain left out of it is no longer trusted.
   */
  lemma {:induction false} TrustedExactly(want: string, ms: seq<Message>, name: string, certs: seq<Leaf>)
    ensures name in After(want, ms).bundles && After(want, ms).bundles[name] == certs <==> Trusts(ms, name, certs)
    decreases |ms|
  {
    if ms != [] {
      var m := ms[|ms| - 1];
      TrustedExactly(want, ms[..|ms| - 1], name, certs);
      TrustsNext(ms, name, certs);
      if m.Bundles? {
        CarriesExactly(m);
        CollectedExactly(m, name, certs);
      }
    }
  }

  /** Message `k` brings another leaf than the one accepted before it. */
  predicate Changed(want: string, ms: seq<Message>, k: int) {
    && 0 <= k < |ms|
    && var ls, next := AcceptedLeaves(want, ms[..k]), AcceptedLeaf(want, ms[k]);
       next != [] && ls != [] && ls[|ls| - 1] != next[0]
  }

  lemma ChangedPrefix(want: string, ms: seq<Message>, k: int)
    requires ms != [] && k < |ms| - 1
    ensures Changed(want, ms[..|ms| - 1], k) <==> Changed(want, ms, k)
  {
    if 0 <= k {
      assert ms[..|ms| - 1][..k] == ms[..k];
    }
  }

  predicate Untaken(ms: seq<Message>, k: int) {
    forall l :: k < l < |ms| && 0 <= l ==> !ms[l].Taken?
  }

  lemma UntakenPrefix(ms: seq<Message>, k: int)
    requires ms != [] && k < |ms| - 1
    ensures Untaken(ms, k) <==> Untaken(ms[..|ms| - 1], k) && !ms[|ms| - 1].Taken?
  {
    var init := ms[..|ms| - 1];
    assert forall l :: 0 <= l < |init| ==> init[l] == ms[l];
    if Untaken(init, k) && !ms[|ms| - 1].Taken? {
      forall l | k < l < |ms| && 0 <= l ensures !ms[l].Taken? {
        assert l < |init| ==> !init[l].Taken?;
      }
    }
  }

  /** A leaf has changed since the last token was taken. */
  ghost predicate Owed(want: string, ms: seq<Message>) {
    exists k :: Changed(want, ms, k) && Untaken(ms, k)
  }

  lemma OwedNext(want: string, ms: seq<Message>)
    requires ms != []
    ensures var n := |ms| - 1;
            Owed(want, ms) <==> Changed(want, ms, n) || (!ms[n].Taken? && Owed(want, ms[..n]))
  {
    var n, init := |ms| - 1, ms[..|ms| - 1];
    if Changed(want, ms, n) {
      assert Untaken(ms, n);
    } else if k :| Changed(want, ms, k) && Untaken(ms, k) {
      ChangedPrefix(want, ms, k);
      UntakenPrefix(ms, k);
    }
    if k :| Changed(want, init, k) && Untaken(init, k) {
      ChangedPrefix(want, ms, k);
      UntakenPrefix(ms, k);
    }
  }

  lemma TokenStep(want: string, ms: seq<Message>)
    requires ms != []
    ensures var init, n := ms[..|ms| - 1], |ms| - 1;
            After(want, ms).rotated <==> Changed(want, ms, n) || (!ms[n].Taken? && After(want, init).rotated)
  {
    var init := ms[..|ms| - 1];
    StreamBehaviour(want, init);
  }

  /** A token waits exactly when a leaf has changed since the last one was taken. */
  lemma {:induction false} TokenExactly(want: string, ms: seq<Message>)
    ensures After(want, ms).rotated <==> Owed(want, ms)
    decreases |ms|
  {
    if ms != [] {
      TokenExactly(want, ms[..|ms| - 1]);
      TokenStep(want, ms);
      OwedNext(want, ms);
    }
  }

  /** The names `pick` reports are those of the offers that have one. */
  lemma {:induction false} NamesExactly(offers: seq<Offer>, name: string)
    ensures name in Names(offers)
            <==> exists k :: 0 <= k < |offers| && offers[k].id.Some? && Name(offers[k].id.value) == name
    decreases |offers|
  {
    if offers != [] {
      var init := offers[..|offers| - 1];
      NamesExactly(init, name);
      assert forall k :: 0 <= k < |init| ==> init[k] == offers[k];
    }
  }

  /**
   * The source object over a whole stream, tokens being taken at any time: it presents the
   * last offer it accepted, verifies against the last bundles it was given, and has a token
   * waiting exactly when a leaf has changed since one was taken.
   */
  method Follow(want: string, ms: seq<Message>)
    returns (cert: Option<Cert>, id: string, bundles: map<string, seq<Leaf>>, rotated: bool)
    ensures cert.None? <==> forall m :: m in ms ==> !Accepts(want, m)
    ensures cert.Some? ==> Presents(want, ms, cert.value, id)
    ensures forall name, certs :: name in bundles && bundles[name] == certs <==> Trusts(ms, name, certs)
    ensures rotated <==> Owed(want, ms)
    ensures var ls := AcceptedLeaves(want, ms);
            && (cert.Some? <==> ls != []) && (cert.Some? ==> cert.value.leaf == ls[|ls| - 1])
            && (cert.Some? && want != "" ==> id == want)
  {
    var source := new DelegatedSource(want);
    for n := 0 to |ms|
      invariant fresh(source) && source.want == want && source.Value() == After(want, ms[..n])
    {
      assert ms[..n + 1][..n] == ms[..n];
      match ms[n] {
        case Svids(offers) => source.OnSvidMessage(offers);
        case Bundles(cas) => source.ApplyBundles(cas);
        case Taken =>
          if source.rotated {
            source.TakeRotation();
          }
      }
    }
    assert ms[..|ms|] == ms;
    cert, id, bundles, rotated := source.cert, source.id, source.bundles, source.rotated;
    StreamBehaviour(want, ms);
    PresentedExactly(want, ms);
    TokenExactly(want, ms);
    forall name, certs ensures name in bundles && bundles[name] == certs <==> Trusts(ms, name, certs) {
      TrustedExactly(want, ms, name, certs);
    }
  }

  /** What `s` has, `s'` has too. */
  predicate KeepsWhatItHas(s: Identity, s': Identity) {
    && (s.cert.Some? ==> s'.cert.Some?)
    && (s.bundles != map[] ==> s'.bundles != map[])
    && (s.haveSvid ==> s'.haveSvid)
    && (s.haveBundle ==> s'.haveBundle)
  }

  lemma MessageUnsetsNothing(s: Identity, m: Message)
    ensures KeepsWhatItHas(s, On(s, m))
  {
  }

  /** Once there, the certificate and the bundles stay; readiness is never taken back. */
  lemma {:induction false} NeverUnset(want: string, ms: seq<Message>, more: seq<Message>)
    ensures KeepsWhatItHas(After(want, ms), After(want, ms + more))
    decreases |more|
  {
    if more == [] {
      assert ms + more == ms;
    } else {
      NeverUnset(want, ms, more[..|more| - 1]);
      assert (ms + more)[..|ms + more| - 1] == ms + more[..|more| - 1];
      MessageUnsetsNothing(After(want, ms + more[..|more| - 1]), more[|more| - 1]);
    }
  }

  /**
   * `run` waits for the first SVID and then for the first bundle; when it succeeds, both
   * are in hand at that moment and the certificate is for the wanted identity.
   */
  lemma ReadyMeansBoth(want: string, ms: seq<Message>, more: seq<Message>)
    requires After(want, ms).haveSvid && After(want, ms + more).haveBundle
    ensures After(want, ms + more).cert.Some? && After(want, ms + more).bundles != map[]
    ensures want != "" ==> After(want, ms + more).id == want
  {
    StreamBehaviour(want, ms);
    StreamBehaviour(want, ms + more);
    NeverUnset(want, ms, more);
  }

  /** Sending the same set again announces nothing. */
  lemma ResendIsSilent(want: string, ms: seq<Message>, offers: seq<Offer>)
    ensures var once := ms + [Svids(offers)];
            After(want, once + [Svids(offers)]) == After(want, once)
            && Renewals(want, once + [Svids(offers)]) == Renewals(want, once)
  {
    var once := ms + [Svids(offers)];
    var twice := once + [Svids(offers)];
    StreamBehaviour(want, ms);
    StreamBehaviour(want, once);
    assert once[..|once| - 1] == ms;
    assert twice[..|twice| - 1] == once;
  }

  /**
   * To the session protocol, one accepted SVID after the first is its `Publish` step
   * followed by its `Signal` step: the same leaf is served and the same token is waiting.
   */
  lemma AcceptedIsPublishThenSignal(s: Identity, o: Offer, st: Session.State)
    requires Complete(o) && s.cert.Some?
    requires st.source.Delegated? && st.svid.SvidIdle? && st.leaf == s.cert.value.leaf && st.rotated == s.rotated
    ensures var st' := Session.ApplyStream(st, Session.Publish(o.chain[0].value));
            var st'' := Session.ApplyStream(st', Session.Signal);
            var s' := Announce(Publish(s, o), Renews(s, o));
            st''.leaf == s'.cert.value.leaf && st''.rotated == s'.rotated && st''.svid.SvidIdle?
  {
  }
}
