/**
 * The session replacement protocol: the SVID stream, the supervisor and the two users of
 * the session (sender and receiver) as one transition system.
 *
 * Every goroutine has a program counter; a step is one critical section, one channel
 * operation or one read of the shared connection. What the environment decides (a write
 * failing, `connect` failing, which ready case a `select` picks) is the choice of the event.
 */
module Session {
  import opened Common
  import Runs

  /** A `*dtls.Conn`; `None` is nil. Sessions are numbered in the order they are opened. */
  type Conn = Option<nat>

  /** A channel of capacity one. */
  datatype Slot = Empty | Full(token: Conn)

  /** The shared fields of a `connHolder`. */
  datatype Holder = Holder(conn: Conn, bad: Slot)

  /** Which identity path is configured. Only the delegated one ever signals a rotation. */
  datatype Source = Delegated | WorkloadApi

  /** `applySVID` between messages, or between releasing its lock and signalling. */
  datatype SvidPc = SvidIdle | SvidUnlocked(renewed: bool)

  /** Why the supervisor decided to replace the session. */
  datatype Reason = Rotation | Lost(report: Conn)

  /** Where the supervisor is; `Boot` and `BootDone` are `main` before it starts one. */
  datatype SupPc =
    | Boot
    | BootDone(made: nat)
    | AtSelect
    | GotBad(token: Conn)
    | Committed(why: Reason)
    | Have(why: Reason, prev: Conn)
    | Cleared(why: Reason, prev: Conn)
    | Connecting
    | Handshaken(made: nat)
    | Backoff
    | Stopped

  /** A user of the session: idle, using it, about to call `fail`, about to send the report. */
  datatype WorkerPc = Idle | Holding(s: nat) | Failing(s: nat) | Reporting(s: nat)

  datatype Who = Sender | Receiver

  /** One `Close` made by the supervisor, with the reason it acted on. */
  datatype Close = Close(s: nat, why: Reason)

  datatype State = State(
    source: Source,
    leaf: Leaf,             // leaf of the certificate served at the next handshake
    svid: SvidPc,
    rotated: bool,          // a token is waiting in `rotated`
    cancelled: bool,        // the context has ended
    holder: Holder,
    sup: SupPc,
    sender: WorkerPc,
    receiver: WorkerPc,
    leaves: seq<Leaf>,      // leaves[s]: the leaf session s was handshaken under
    closes: seq<Close>,     // history: the supervisor's closes, oldest first
    failed: set<nat>,       // history: sessions some user has called `fail` on
    handshakes: nat,
    rehandshakes: nat,
    mine: Conn,             // `main`'s own variable: the session it opened at start-up
    deferred: Conn          // what `main` has closed on returning; then everything has ended
  )

  /** The SVID source. */
  datatype StreamStep =
    | Publish(leaf: Leaf)   // applySVID stores the certificate and unlocks
    | Signal                // applySVID's non-blocking send, or nothing when not renewed
    | Refresh(leaf: Leaf)   // the Workload API source replaces its SVID in place

  /** `main`: bringing up the first session, the end of the context, and returning. */
  datatype MainStep = BootHandshake | BootInstall | Cancel | Return

  /** `superviseSession`; the `Take` steps are the cases of its select. */
  datatype SupStep =
    | TakeRotation | TakeBad | TakeDone
    | Compare | ReadOld | Clear | CloseOld
    | Handshake             // `connect` succeeds; the certificate is read here
    | ConnectFail           // it returns an error: resolving, listening or accepting failed
    | Install | PutBack

  /** A user of the session, one loop iteration of it. */
  datatype UserStep =
    | Get                   // h.get(), at the top of the iteration
    | Done                  // the read or write needed no report
    | IoError               // it did: fail(c) is about to run
    | FailRead              // fail's locked read and comparison
    | FailSend              // fail's non-blocking send

  datatype Event =
    | Stream(stream: StreamStep)
    | Main(main: MainStep)
    | Super(sup: SupStep)
    | User(who: Who, user: UserStep)

  function Init(source: Source, leaf: Leaf): State {
    State(source, leaf, SvidIdle, false, false, Holder(None, Empty), Boot, Idle, Idle,
          [], [], {}, 0, 0, None, None)
  }

  /** A non-blocking send on a channel of capacity one. */
  function Offer(slot: Slot, c: Conn): Slot {
    if slot.Empty? then Full(c) else slot
  }

  function Worker(st: State, who: Who): WorkerPc {
    if who.Sender? then st.sender else st.receiver
  }

  function SetWorker(st: State, who: Who, pc: WorkerPc): State {
    if who.Sender? then st.(sender := pc) else st.(receiver := pc)
  }

  /** The supervisor and its users run only once `main` has installed the first session. */
  predicate Started(st: State) {
    !st.sup.Boot? && !st.sup.BootDone?
  }

  predicate StreamEnabled(st: State, x: StreamStep) {
    match x
    case Publish(_) => st.source.Delegated? && st.svid.SvidIdle?
    case Signal => st.svid.SvidUnlocked?
    case Refresh(_) => st.source.WorkloadApi?
  }

  function ApplyStream(st: State, x: StreamStep): State
    requires StreamEnabled(st, x)
  {
    match x
    case Publish(l) => st.(leaf := l, svid := SvidUnlocked(l != st.leaf))
    case Signal => st.(svid := SvidIdle, rotated := st.rotated || st.svid.renewed)
    case Refresh(l) => st.(leaf := l)
  }

  predicate MainEnabled(st: State, x: MainStep) {
    match x
    case BootHandshake => st.sup.Boot?
    case BootInstall => st.sup.BootDone?
    case Cancel => true
    case Return => Started(st) && st.cancelled && st.mine.Some?
  }

  function ApplyMain(st: State, x: MainStep): State
    requires MainEnabled(st, x)
  {
    match x
    case BootHandshake => st.(sup := BootDone(|st.leaves|), leaves := st.leaves + [st.leaf],
                                mine := Some(|st.leaves|))
    case BootInstall =>
      st.(holder := st.holder.(conn := Some(st.sup.made)), sup := AtSelect, handshakes := st.handshakes + 1)
    case Cancel => st.(cancelled := true)
    case Return => st.(deferred := st.mine)
  }

  predicate SupEnabled(st: State, x: SupStep) {
    match x
    case TakeRotation => st.sup.AtSelect? && st.rotated
    case TakeBad => st.sup.AtSelect? && st.holder.bad.Full?
    case TakeDone => st.sup.AtSelect? && st.cancelled
    case Compare => st.sup.GotBad?
    case ReadOld => st.sup.Committed?
    case Clear => st.sup.Have?
    case CloseOld => st.sup.Cleared?
    case Handshake => st.sup.Connecting?
    case ConnectFail => st.sup.Connecting?
    case Install => st.sup.Handshaken?
    case PutBack => st.sup.Backoff?
  }

  function ApplySup(st: State, x: SupStep): State
    requires SupEnabled(st, x)
  {
    var h := st.holder;
    match x
    case TakeRotation => st.(rotated := false, sup := Committed(Rotation))
    case TakeBad => st.(holder := h.(bad := Empty), sup := GotBad(h.bad.token))
    case TakeDone => st.(sup := Stopped)
    case Compare =>
      st.(sup := if st.sup.token == h.conn then Committed(Lost(st.sup.token)) else AtSelect)
    case ReadOld => st.(sup := Have(st.sup.why, h.conn))
    case Clear => st.(holder := h.(conn := None), sup := Cleared(st.sup.why, st.sup.prev))
    case CloseOld =>
      st.(sup := Connecting,
          closes := if st.sup.prev.None? then st.closes
                    else st.closes + [Close(st.sup.prev.value, st.sup.why)])
    case Handshake => st.(sup := Handshaken(|st.leaves|), leaves := st.leaves + [st.leaf])
    case ConnectFail => st.(sup := if st.cancelled then Stopped else Backoff)
    case Install =>
      st.(holder := h.(conn := Some(st.sup.made)), sup := AtSelect,
          handshakes := st.handshakes + 1, rehandshakes := st.rehandshakes + 1)
    case PutBack => st.(holder := h.(bad := Offer(h.bad, None)), sup := AtSelect)
  }

  predicate UserEnabled(st: State, w: Who, x: UserStep) {
    match x
    case Get => Started(st) && Worker(st, w).Idle?
    case Done => Worker(st, w).Holding?
    case IoError => Worker(st, w).Holding?
    case FailRead => Worker(st, w).Failing?
    case FailSend => Worker(st, w).Reporting?
  }

  function ApplyUser(st: State, w: Who, x: UserStep): State
    requires UserEnabled(st, w, x)
  {
    var conn := st.holder.conn;
    match x
    case Get => SetWorker(st, w, if conn.Some? then Holding(conn.value) else Idle)
    case Done => SetWorker(st, w, Idle)
    case IoError =>
      var s := Worker(st, w).s;
      SetWorker(st.(failed := st.failed + {s}), w, Failing(s))
    case FailRead =>
      var s := Worker(st, w).s;
      SetWorker(st, w, if conn == Some(s) then Reporting(s) else Idle)
    case FailSend =>
      var report := Offer(st.holder.bad, Some(Worker(st, w).s));
      SetWorker(st.(holder := st.holder.(bad := report)), w, Idle)
  }

  predicate Enabled(st: State, e: Event) {
    && st.deferred.None?
    && match e
       case Stream(x) => StreamEnabled(st, x)
       case Main(x) => MainEnabled(st, x)
       case Super(x) => SupEnabled(st, x)
       case User(w, x) => UserEnabled(st, w, x)
  }

  function Apply(st: State, e: Event): State
    requires Enabled(st, e)
  {
    match e
    case Stream(x) => ApplyStream(st, x)
    case Main(x) => ApplyMain(st, x)
    case Super(x) => ApplySup(st, x)
    case User(w, x) => ApplyUser(st, w, x)
  }

  ghost predicate Step(st: State, e: Event, st': State) {
    Enabled(st, e) && st' == Apply(st, e)
  }

  ghost predicate Initial(st: State) {
    st == Init(st.source, st.leaf)
  }

  ghost predicate IsRun(run: seq<State>, ev: seq<Event>) {
    Runs.IsRun(Initial, Step, run, ev)
  }

  /** Some run of the protocol ends in `st`. */
  ghost predicate Reachable(st: State) {
    Runs.Reachable(Initial, Step, st)
  }
}
