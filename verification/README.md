# n4dtls: a verified model of the DTLS sidecar

`n4dtls` puts mutually authenticated DTLS on the N4 link between an SMF and a UPF without
touching either. One process keeps a single DTLS session alive while four goroutines share it:
the SVID stream, the session supervisor, a sender and a receiver. This project models the parts
of it whose correctness depends on interleavings, buffer reuse, timing and first-match rules, and
proves what holds over every run.

| file | models |
|---|---|
| `Session.dfy`, `SessionSafety.dfy`, `SessionProgress.dfy`, `SessionWitness.dfy` | the session replacement protocol as a transition system with one program counter per goroutine; its invariants, a bound on replacement, and the runs where stronger claims fail |
| `SessionRuntime.dfy` | the `connHolder` object, the supervisor as the loop it is, and the other goroutines around it, under any schedule of that protocol |
| `Delegated.dfy` | the delegated identity source: `pick`, `applySVID`, `applyBundles`, rotation signals |
| `Frame.dfy`, `Datapath.dfy`, `Proxy.dfy` | the frame codec, two socket-mode sidecars over a lossy reordering network, and the same two on their reused buffers, refining it |
| `Nfq.dfy`, `NfqBuffers.dfy` | the NFQUEUE path with packets as values, and the same path on recycled heap buffers refining it |
| `Deadline.dfy`, `Liveness.dfy` | the coarse write deadline and the inference of a dead session |
| `NfqSidecar.dfy` | session, packets and liveness composed into one system, for what none of the three says alone |
| `Common.dfy`, `Runs.dfy` | shared datatypes, subsequences, and runs of a transition system: induction, ranking, components of a composed system |
| `Redirect.dfy` | the redirect rule set under connection tracking, and installing and removing rules |

A run is a sequence of states and a sequence of events; every step of the run is one critical
section, channel operation or system call of one goroutine. What the environment decides (a dial
failing, the case a `select` picks, a record being lost) is the choice of the event, so a
statement about every run is a statement about every interleaving.

## Findings

Properties that look true of the code and are not. Each has a run that shows it and the exact
condition under which it holds.

- The retry token is lost when a late second report of the old session fills the slot
  (`RetryCanBeLost`). The sidecar then has no session and opens none until the source publishes a
  different leaf (`ParkedUntilRotation`). The token is there in a run exactly when no failed
  re-establishment finds a report in the slot (`RetryArmedExactly`); with it the supervisor dials
  again within twelve of its own steps, unless it is stopped (`RetryHappens`).
- A report of the session in use is lost when a leftover retry token fills the slot
  (`ReportCanBeLost`, `ReportHeardExactly`).
- With the Workload API source a rotation leaves the session on the replaced SVID with nothing
  pending (`RotationUnnoticed`); only the delegated source keeps sessions current
  (`FreshnessExactly`).
- `main` closes the session it opened when it returns. Once that session has been replaced it is
  closed twice, and the one in use is not closed (`ClosedTwice`, `ClosesAtExit`).
- A packet above 2048 bytes that meets a full queue puts a nil buffer into the pool, and the next
  packet given that entry crashes the process (`Nfq.CrashReachable`, `PoolCleanExactly`).
- A session on which nothing is unanswered can be given up as one-way. The sender stands between
  a write and its count when the receiver takes its baseline, because the reply is read there
  (`AnsweredSessionReported`) or the session is replaced there (`UnusedSessionReported`), and
  twenty quiet seconds later the late count looks like an unanswered datagram. A report has a
  write since its baseline behind it except when the sender stood there, counted only that write
  since, and has no write under way (`ReportCauseExactly`); so an idle session is safe when it did
  not (`IdleNeverReported`).
- The liveness timer measures silence, not the age of the unanswered datagram: after an idle
  stretch a session is given up three seconds after the first datagram (`YoungSendReported`). The
  instant of the report, and so whether the datagram is younger than the limit then, is decided
  when it is counted (`YoungExactly`); a scheduler with delays leaves a window (`ReportWindow`).
- Captured packets do not wait for a session during a replacement, as the comment at
  cmd/n4dtls/session.go:17-19 says; `senderLoop` drops them (`LostInReplacement`). A packet is not
  sent if and only if it met a full queue, its turn fell between the emptying of the holder and
  the next installation, or its write failed (`NfqSidecar.NotSentExactly`).
- A `redirectPeer` equal to the DTLS peer's address leaves the established session alone and turns
  every later dial back into the sidecar (`RedialTurnedBack`, `FreshDialExactly`).
- An IPv6 peer address makes the encoder panic at the first write
  (`Datapath.CrashReachable`, `CrashExactly`).
- Removing the rules does not always restore a chain that already held some of them: leftovers of
  an earlier process move behind rules added since (`LeftoversMove`). `RestoredExactly` says when
  it does.

## Model

| member | source | states |
|---|---|---|
| SessionSafety.OneSessionAtATime | cmd/n4dtls/session.go:75-117 | in every reachable state at most one session is open; the supervisor closes 0, 1, 2, ... in that order, each before its successor exists; handshakes = 1 + re-handshakes |
| SessionSafety.ClosesAreJustified | cmd/n4dtls/session.go:82-96 | every close was for a rotation or acted on a report naming exactly the session closed, which a user had failed; a retry token closes nothing |
| SessionSafety.ClearTakesTheNamedSession | cmd/n4dtls/session.go:82-93 | the holder loses its session only at the supervisor's clear, and then the session the report named |
| SessionSafety.ClosesAtExit | cmd/n4dtls/main.go:108-113 | when `main` has returned, the first session has been closed twice exactly when it had been replaced and once otherwise; any other exactly when it is not the one in use |
| SessionSafety.NoRotationLost | cmd/n4dtls/delegated.go:177-194 | with the delegated source, in every interleaving, a session handshaken under another leaf than the current one has its rotation still announced or its replacement decided |
| SessionSafety.FreshAtRest | cmd/n4dtls/session.go:8-15 | whenever nothing is pending, the installed session was handshaken under the current leaf |
| SessionSafety.FreshKeptStep | cmd/n4dtls/identity.go:153-160 | every step of every goroutine keeps that, including a rotation between the handshake and the installation |
| SessionSafety.CancelledExactly | cmd/n4dtls/main.go:80 | the context has ended exactly when it was cancelled |
| SessionSafety.StoppedExactly | cmd/n4dtls/session.go:77-102 | the supervisor has returned exactly when it took the end at its select, or a `connect` failed after the end |
| SessionSafety.StoppedForGood | cmd/n4dtls/session.go:77-102 | and then takes no further step; no session is opened, closed or installed |
| SessionSafety.NoRetryAfterTheEnd | cmd/n4dtls/session.go:98-102 | a `connect` failing after the context ended is the last act: no token, no further dial, no session |
| SessionSafety.UsedWasInstalled | cmd/n4dtls/session.go:39-43 | whatever session a user uses or reports was the installed one when it last looked |
| SessionSafety.FailedExactly | cmd/n4dtls/main.go:233-239 | a session counts as failed exactly when some user found it broken while using it |
| SessionProgress.DialsWithinTwelveSteps | cmd/n4dtls/session.go:75-98 | once a rotation token, a report of the installed session or a retry token waits, the supervisor is dialling, or stopped, within twelve of its own steps, whatever the others do and whichever ready case each select picks |
| SessionProgress.GivenUpWithinElevenSteps | cmd/n4dtls/session.go:75-93 | such an installed session is out of the holder, or the supervisor stopped, within eleven |
| SessionProgress.DueStep | cmd/n4dtls/session.go:56-96 | no step of another goroutine takes the supervisor further from dialling, and every step of its own brings it nearer |
| SessionProgress.DueSupervisorRuns | cmd/n4dtls/session.go:77-87 | the supervisor is not blocked while something is due |
| SessionProgress.NeverReinstalled | cmd/n4dtls/session.go:98-114 | a session taken out of the holder never comes back |
| SessionProgress.OutdatedSessionReplaced | cmd/n4dtls/session.go:80-98 | unless stopped, the supervisor takes a session under an outdated leaf out for good and dials for another within twelve of its steps |
| SessionProgress.RetryArmedExactly | cmd/n4dtls/session.go:98-110 | over a run, no session at the select implies a waiting retry token, if and only if no put-back finds a report in the slot |
| SessionProgress.RetryHappens | cmd/n4dtls/session.go:77-110 | with the token waiting and no session, the supervisor dials again, or is stopped, within twelve of its steps |
| SessionProgress.DroppedForAClosedSession | cmd/n4dtls/session.go:106-109 | the report in the way always names a session that is already closed |
| SessionProgress.ParkedUntilRotation | cmd/n4dtls/session.go:77-87 | with the token lost, no session is installed or opened until the source publishes a different leaf |
| SessionProgress.ReportHeardExactly | cmd/n4dtls/session.go:63-66 | a report of the installed session makes it replaceable if and only if it already was or the slot is free |
| SessionProgress.ReportSentExactly | cmd/n4dtls/session.go:57-62 | a failure is reported exactly when the session is still the installed one |
| SessionProgress.ReportedGivenUp | cmd/n4dtls/session.go:56-93 | a report put into a free slot has its session out of the holder, or the supervisor stopped, within eleven supervisor steps |
| SessionWitness.RetryCanBeLost | cmd/n4dtls/session.go:56-110 | a reachable state in which the supervisor waits with no session and no token |
| SessionWitness.ReportCanBeLost | cmd/n4dtls/session.go:63-86 | a reachable state in which the installed session was reported and nothing is pending |
| SessionWitness.ClosedTwice | cmd/n4dtls/main.go:113 | a reachable state after `main` returned in which session 0 was closed twice and the installed session 1 never |
| SessionWitness.RotationUnnoticed | cmd/n4dtls/identity.go:84-86 | a reachable state in which the Workload API source has rotated and nothing is pending for the outdated session |
| SessionWitness.FreshnessExactly | cmd/n4dtls/identity.go:56-58 | rotations are never lost on an identity path if and only if it is the delegated one |
| SessionRuntime.ConnHolder.Set | cmd/n4dtls/session.go:45-52 | installing, at start-up or by the supervisor, has the effect of the protocol's step on the holder and keeps the slot |
| SessionRuntime.ConnHolder.FailRead | cmd/n4dtls/session.go:57-62 | the first half of `fail` goes on exactly when the protocol's user does |
| SessionRuntime.ConnHolder.FailSend | cmd/n4dtls/session.go:63-66 | the second half never blocks and never displaces a token |
| SessionRuntime.ConnHolder.Fail | cmd/n4dtls/session.go:54-67 | reporting a replaced session is a no-op, and reporting twice is reporting once |
| SessionRuntime.ConnHolder.TakeReport | cmd/n4dtls/session.go:82 | receiving empties the slot and hands over its token |
| SessionRuntime.ConnHolder.Vacate | cmd/n4dtls/session.go:91-93 | the holder is emptied, its slot untouched |
| SessionRuntime.ConnHolder.LeaveRetryToken | cmd/n4dtls/session.go:106-109 | the token is left exactly when the slot was empty |
| SessionRuntime.Process.Supervise | cmd/n4dtls/session.go:69-117 | the loop, with any steps of the others between its own, follows the protocol to the end of every schedule or until it is stopped, which happens exactly at the end of the context |
| SessionRuntime.Drive | cmd/n4dtls/session.go:69-117 | so under any schedule the session held, the number opened and the sequence of closes are the protocol's: 0, 1, 2, ... in order, and the first once more after `main` returned |
| DelegatedIdentity.Pick | cmd/n4dtls/delegated.go:146-159 | the first offer with an id that is the wanted one, or any if none is wanted; none if there is none; the names seen |
| DelegatedIdentity.NamesExactly | cmd/n4dtls/delegated.go:147-153 | the names reported are those of the offers that have an id |
| DelegatedIdentity.DelegatedSource.ApplySvid | cmd/n4dtls/delegated.go:161-196 | an incomplete or unparsable SVID changes nothing; otherwise certificate, id, readiness and signal |
| DelegatedIdentity.DelegatedSource.OnSvidMessage | cmd/n4dtls/delegated.go:121-130 | a stream message has the effect of its first acceptable offer |
| DelegatedIdentity.DelegatedSource.ApplyBundles | cmd/n4dtls/delegated.go:217-237 | unusable trust domains are skipped and an empty result is ignored |
| DelegatedIdentity.BundlesExactly | cmd/n4dtls/delegated.go:218-229 | a trust domain is present if and only if some usable authority names it, and then with the last one |
| DelegatedIdentity.StreamBehaviour | cmd/n4dtls/delegated.go:161-196 | for every stream: the identity is empty or the wanted one, the certificate is the last accepted, renewals are exactly the neighbouring leaf changes, tokens sent are no more |
| DelegatedIdentity.PresentedExactly | cmd/n4dtls/delegated.go:161-185 | after any stream the certificate has the leaf, the whole chain and the key of the offer accepted last, and its id; none before one was accepted |
| DelegatedIdentity.TrustedExactly | cmd/n4dtls/delegated.go:217-237 | after any stream the bundles are exactly those of the last message with a usable one, each from its last usable authority; a domain left out is no longer trusted |
| DelegatedIdentity.TokenExactly | cmd/n4dtls/delegated.go:182-194 | a token waits exactly when a leaf has changed since the last one was taken |
| DelegatedIdentity.Follow | cmd/n4dtls/delegated.go:111-237 | the source object over any stream ends up with exactly that certificate, id, bundles and token |
| DelegatedIdentity.NeverUnset | cmd/n4dtls/delegated.go:177-186 | certificate, bundles and readiness are never taken back |
| DelegatedIdentity.ReadyMeansBoth | cmd/n4dtls/delegated.go:96-108 | when both waits of `run` have ended, certificate and bundles are in hand, for the wanted identity |
| DelegatedIdentity.ResendIsSilent | cmd/n4dtls/delegated.go:179-182 | receiving the same set again changes nothing and announces nothing |
| DelegatedIdentity.AcceptedIsPublishThenSignal | cmd/n4dtls/delegated.go:177-194 | an accepted SVID is the protocol's publish step followed by its signal step |
| Frame.DecodeEncode | cmd/n4dtls/proxy.go:76-93 | decoding inverts encoding; mapped addresses come back as IPv4 |
| Frame.EncodeDecode | cmd/n4dtls/proxy.go:86-93 | a record decodes if and only if it holds a header, and re-encoding restores it |
| Frame.HeaderLayout | cmd/n4dtls/proxy.go:52-57 | the header is source, destination, ports big-endian, at the documented offsets, then the payload untouched |
| Frame.EncodeInjective | cmd/n4dtls/proxy.go:52-57 | two datagrams share a frame exactly when they differ at most in mapping |
| Frame.FrameFits | cmd/n4dtls/proxy.go:282-283 | any UDP payload gives a frame that fits both buffers |
| Frame.EncodeFrame | cmd/n4dtls/proxy.go:76-84 | the caller's buffer holds exactly the frame afterwards, whatever it held before |
| Datapath.DeliveredWasCaptured | cmd/n4dtls/proxy.go:281-363 | over a lossy reordering network, in every run, an injective trace maps each datagram delivered to a capture of the other side with the same bytes and the same endpoints |
| Datapath.CapturedExactly | cmd/n4dtls/proxy.go:115-132 | a datagram from the socket is captured with its source and bytes unchanged, for the configured or last heard destination, exactly when there is one |
| Datapath.DeliveredWasTaken | cmd/n4dtls/proxy.go:281-363 | an injective trace maps each datagram delivered to one the other side's socket handed over, from the same endpoint and with the same bytes |
| Datapath.TalliedAlong | cmd/n4dtls/proxy.go:285-363 | records written, datagrams dropped, counted, decoded and delivered are as many as the writes, failures, counts, decodes and sends that happened |
| Datapath.CountersConserved | cmd/n4dtls/proxy.go:293-306 | captured = sent + dropped at the loop head; written = in flight + lost + read; injected <= received <= the peer's writes |
| Datapath.CrashExactly | cmd/n4dtls/proxy.go:76-78 | a write on a live session panics if and only if the configured peer is IPv6 |
| Datapath.CrashReachable | cmd/n4dtls/proxy.go:76-78 | for every IPv6 peer there is a run that panics |
| Datapath.RepliesGoToTheLastHeard | cmd/n4dtls/proxy.go:115-141 | a side without a configured peer addresses every datagram to the source of the frame decoded last, and captures none before one is decoded |
| Datapath.RepliesComeBack | cmd/n4dtls/proxy.go:115-141 | with one control-plane endpoint, every reply is addressed to it and every control-plane delivery goes to it |
| ProxyLoops.ProxySender.Capture | cmd/n4dtls/proxy.go:115-132 | the datagram read over the old contents of the buffer is the one the datapath captures, refused when no destination is known |
| ProxyLoops.ProxySender.Write | cmd/n4dtls/proxy.go:285-305 | the datapath's step for every outcome; on success the record built in the reused frame buffer is the encoding of the datagram last captured |
| ProxyLoops.ProxyReceiver.Decode | cmd/n4dtls/proxy.go:351-357 | the datapath's step; of a frame the other side encoded, its source is the endpoint replies go to from then on; a record shorter than a header changes nothing |
| ProxyLoops.ProxyReceiver.Deliver | cmd/n4dtls/proxy.go:138-169 | what goes out of the read buffer is the datagram decoded into it, and the source stays remembered whether or not the send succeeds |
| ProxyLoops.Drive | cmd/n4dtls/proxy.go:281-363 | both sidecars, over any run of the datapath, write the run's records byte for byte and deliver its datagrams, from buffers every iteration overwrites |
| ProxyLoops.DriveEndToEnd | cmd/n4dtls/proxy.go:281-363 | so what they deliver was handed over by the other side's socket from the same endpoint with the same bytes, goes where it was captured for, and comes out once |
| Nfq.ExactlyOneVerdict | cmd/n4dtls/nfq.go:112-128 | of every packet, drops and undecided copies add up to the times it was handed over, and nothing but empty packets is accepted |
| Nfq.ArrivedAlong | cmd/n4dtls/nfq.go:112-128 | the packets accounted for are exactly those the kernel handed over, in order, and the accepts those without payload |
| Nfq.WrittenInOrder | cmd/n4dtls/main.go:203-244 | the packets written are an in-order selection of those handed over |
| Nfq.EveryPacketHasItsFate | cmd/n4dtls/main.go:203-244 | of every packet, hand-overs = copies on their way + times it met a full queue, came to its turn without a session, failed its write, or was sent; and the last is how often it was written |
| Nfq.NotSentExactly | cmd/n4dtls/main.go:218-244 | a packet no longer on its way was sent less often than handed over (for one handed over once: not at all) if and only if one of the three obstacles was met |
| Nfq.UnsentIsNeverSent | cmd/n4dtls/main.go:218-223 | a packet whose turn comes without a session is dropped there, and in every continuation has been sent less often than handed over |
| NfqSidecar.NoSessionExactly | cmd/n4dtls/session.go:89-117 | the sender finds no session exactly while the holder has been emptied and nothing installed since |
| NfqSidecar.NotSentExactly | cmd/n4dtls/session.go:17-19 | a captured packet no longer on its way was not sent as often as handed over if and only if it met a full queue, its turn fell into a replacement, or its write failed |
| NfqSidecar.LostInReplacement | cmd/n4dtls/session.go:17-19 | a run in which a packet waiting in the queue is dropped because its turn falls into a replacement by rotation, which then succeeds |
| NfqSidecar.LinkedAlong | cmd/n4dtls/main.go:203-244 | in every run what the receiver judges by is the number of packets written and counted, and sender and packet agree where they are |
| NfqSidecar.SenderRuns | cmd/n4dtls/main.go:215-244 | the sender has a step to take whenever there is a packet for it |
| NfqSidecar.SilenceIsReported | cmd/n4dtls/main.go:263-281 | after a packet was counted, without a record, a missing session or a report since, no more than max(last receipt + limit, count) + one polling interval has passed |
| NfqSidecar.OnlyAfterSilence | cmd/n4dtls/main.go:257-277 | a timeout accuses no session within the limit of a record, of a look that found none, or of the last accusation |
| NfqSidecar.AccusedExactly | cmd/n4dtls/main.go:231-285 | a session is accused exactly when a write on it failed, a read failed, or a read timed out on it after silence; otherwise its user goes on |
| NfqSidecar.AccusedSessionGivenUp | cmd/n4dtls/main.go:231-285 | an accused session, once the report goes into a free slot, is out of the holder or the supervisor stopped within eleven supervisor steps, whoever accused it and why |
| Nfq.CountersAlong | cmd/n4dtls/main.go:216-243 | captured = dropped at the loop head, sent is at most that and counts the writes |
| Nfq.PoolCleanExactly | cmd/n4dtls/nfq.go:95-121 | the pool never holds a nil buffer in a run if and only if no packet above 2048 bytes meets a full queue |
| Nfq.BuffersConserved | cmd/n4dtls/nfq.go:93-121 | in every run up to a crash, pooled buffers in the pool and in use = made - forgotten by the pool; nil entries = oversized packets met by a full queue - forgotten |
| Nfq.CrashNeedsPoison | cmd/n4dtls/nfq.go:95-101 | the callback dereferences nil only after such a meeting |
| Nfq.PoisonCrashes | cmd/n4dtls/nfq.go:99-121 | after one, the small packet that is given the entry crashes |
| Nfq.CrashReachable | cmd/n4dtls/nfq.go:84-121 | for every queue depth there is a run that crashes |
| NfqBuffers.Capture.OnEmpty | cmd/n4dtls/nfq.go:124-126 | an empty packet is accepted at once |
| NfqBuffers.Capture.Begin | cmd/n4dtls/nfq.go:95-114 | taking a buffer refines the value step: it has no other owner afterwards, and the nil case is the crash |
| NfqBuffers.Capture.Copy | cmd/n4dtls/nfq.go:115 | overwriting the recycled buffer changes no other packet |
| NfqBuffers.Capture.Enqueue | cmd/n4dtls/nfq.go:116-123 | the buffer goes to the queue or back to the pool, never both |
| NfqBuffers.Capture.Take | cmd/n4dtls/main.go:215-216 | the oldest packet moves from the queue to the sender |
| NfqBuffers.Capture.DropUnsent | cmd/n4dtls/main.go:218-223 | without a session the packet is dropped and exactly its pooled buffer goes back |
| NfqBuffers.Capture.WriteOut | cmd/n4dtls/main.go:231-232 | the record is exactly what the kernel handed over for the packet, however often its buffer was recycled, and that buffer goes back |
| NfqBuffers.Capture.Verdict | cmd/n4dtls/main.go:233-243 | the original is dropped whether or not the write succeeded |
| NfqBuffers.Drive | cmd/n4dtls/nfq.go:86-128 | over any schedule of callback, sender and pool, the records written from recycled buffers are, byte for byte and in order, the packets the value model writes, and the verdicts are its verdicts |
| WriteDeadline.SenderLoop | cmd/n4dtls/main.go:207-231 | the loop arms what the specification arms and calls SetWriteDeadline as often |
| WriteDeadline.DeadlineInForce | cmd/n4dtls/main.go:207-231 | at every write on any connection the deadline really armed lies between half a budget and a budget ahead |
| WriteDeadline.RefreshRate | cmd/n4dtls/main.go:207-230 | k refreshes of one connection span more than k - 1 half budgets |
| Liveness.Tracker.OnTimeout | cmd/n4dtls/proxy.go:335-345 | the judgement and the new baseline are those of the timed model |
| Liveness.Tracker.Rebase | cmd/n4dtls/proxy.go:324-350 | a record or a missing session starts a new baseline |
| Liveness.ReceiverLoop | cmd/n4dtls/proxy.go:312-350 | over any run the loop, from its two variables and the counter, reports at exactly the steps at which the timed model does |
| Liveness.BaselineMoves | cmd/n4dtls/proxy.go:320-350 | time and count of the baseline are taken at a record, a missing session and a report by timeout, and at nothing else |
| Liveness.ReportCauseExactly | cmd/n4dtls/proxy.go:335-343 | a report by timeout follows more than the limit without a record, a missing session or another such report; and something was written since the baseline if and only if not (the sender stood between write and count at the baseline, that count is the only one since, and no write is under way) |
| Liveness.IdleNeverReported | cmd/n4dtls/proxy.go:334-337 | a session on which nothing was written since the baseline is never given up for silence, unless the sender stood between write and count at the baseline |
| Liveness.SilentSenderNeverReported | cmd/n4dtls/proxy.go:316-319 | before the first write of the process no session is given up for silence |
| Liveness.AnsweredSessionReported | cmd/n4dtls/proxy.go:300-306 | a run in which a session is given up with no write after the last record received |
| Liveness.UnusedSessionReported | cmd/n4dtls/proxy.go:300-326 | a run in which a replacement session is given up with no write and no record on it |
| Liveness.SilenceIsReported | cmd/n4dtls/proxy.go:314-344 | a counted send followed by silence is reported by max(last receipt + limit, count) + one polling interval |
| Liveness.ReportInstant | cmd/n4dtls/proxy.go:328-337 | with a prompt scheduler the report comes at the first poll, from the read armed at the count, beyond the limit |
| Liveness.YoungExactly | cmd/n4dtls/proxy.go:337 | the send is younger than the limit at its report if and only if that poll is at most the limit after the send |
| Liveness.ReportWindow | cmd/n4dtls/proxy.go:328-337 | under any scheduler the report comes in a window known at the count, and the send is young when the window lies within its limit and not when it lies beyond |
| Liveness.YoungBounds | cmd/n4dtls/proxy.go:337 | under any scheduler: never for a send no later than the last receipt, always for one counted a polling interval after it |
| Liveness.YoungSendReported | cmd/n4dtls/proxy.go:337 | a reachable report whose send is younger than the limit |
| Redirect.NatDecides | cmd/n4dtls/proxy.go:252-276 | first match over the rule set redirects exactly the unmarked packets on the port or to the peer |
| Redirect.EveryPacketIntercepted | cmd/n4dtls/proxy.go:197-244 | after install and a flush by original-direction port, with no foreign NAT before and nothing tracked inbound on the port, every unmarked packet on the port is redirected in every run |
| Redirect.InterceptedFromTheStart | cmd/n4dtls/proxy.go:197-244 | the same from an empty connection table, whatever traffic passed before the install |
| Redirect.DeliveryNeverRedirected | cmd/n4dtls/proxy.go:254-265 | marked packets are never redirected and leave no state behind |
| Redirect.EscapesExactly | cmd/n4dtls/proxy.go:208-218 | an unmarked packet on the port escapes if and only if its tuple is tracked as a direct flow |
| Redirect.EscapesFlushExactly | cmd/n4dtls/proxy.go:222-227 | right after the flush it escapes if and only if it belongs to a direct flow whose first packet was not on the port |
| Redirect.InboundLetsTheReplyEscape | cmd/n4dtls/proxy.go:259-263 | a plain datagram tracked inbound lets the reply escape |
| Redirect.FreshDialExactly | cmd/n4dtls/proxy.go:188-195 | a DTLS dial from a fresh port leaves the host if and only if `redirectPeer` is not its address |
| Redirect.RedialTurnedBack | cmd/n4dtls/session.go:98 | with `redirectPeer` set to the DTLS peer the old session goes on and every new dial is turned back |
| Redirect.RemoveRules | cmd/n4dtls/proxy.go:246-250 | the removal loop deletes the first match of each rule |
| Redirect.RemoveAfterInstallCounts | cmd/n4dtls/proxy.go:197-250 | install and remove leave every prior chain with the same rules, counted |
| Redirect.RemoveUndoesInstall | cmd/n4dtls/proxy.go:197-250 | and in the same order when none of the rules was there before |
| Redirect.RemoveUndoesInstallExactly | cmd/n4dtls/proxy.go:246-250 | for one appended rule: restored if and only if nothing else stood behind an equal rule |
| Redirect.RemoveMovesPresent | cmd/n4dtls/proxy.go:197-250 | for any list of distinct rules: the rules the chain already held lose their first occurrence and stand at its end, in list order |
| Redirect.LeftoversMove | cmd/n4dtls/proxy.go:246-250 | rules left in front of others by an earlier process end up behind them after the next install and remove |
| Redirect.RestoredExactly | cmd/n4dtls/proxy.go:197-250 | for any list of distinct rules the chain is restored if and only if every rule but the first occurrences equals the one as many places before it as there are different installed rules in front of it, and the chain ends in the installed rules it holds |
| Redirect.RedirectRestoredExactly | cmd/n4dtls/proxy.go:246-276 | the same for the nat rules of the redirect |
| Redirect.NfqDecides | cmd/n4dtls/main.go:348-357 | a marked packet is accepted; of the others the prior chain decides first, and what it leaves goes to the queue exactly when it is on the port, in either direction |
| Redirect.RemoveUndoesNfqInstall | cmd/n4dtls/main.go:348-377 | the same for the NFQUEUE rules, where the rule in front needs no condition and the appended ones the exact one |

## Environment assumptions

- A handshake is one instant inside `connect` at which the current certificate is read
  (cmd/n4dtls/identity.go:153-160); a session is otherwise an opaque number.
- The network between two sidecars keeps record boundaries, as a DTLS record does (section 4.1.1 of
  RFC 6347), may lose and reorder records, and repeats none.
- The redirect socket is IPv4, so captured sources have an IPv4 form.
- Connection tracking is what cmd/n4dtls/proxy.go:208-218 and 259-263 say: nat rules decide the
  first packet of a flow, the flow's packets and replies follow it, untracked packets skip nat.
- `flushConntrack` deletes by original-direction port (cmd/n4dtls/proxy.go:226-227) and only warns
  when it fails. The results about what follows a flush are about one that succeeds;
  `EscapesExactly` covers the other case. That no flow is translated by anybody else before the
  flush is an assumption of `EveryPacketIntercepted`; it holds of everything tracked since an empty
  table (`InterceptedFromTheStart`), and `EscapesFlushExactly` says what it buys.
- `connect` retries a failed dial itself on the client (cmd/n4dtls/main.go:329-341), so a failed
  re-establishment is a failure to resolve the address, to listen or to accept.
- In `NfqSidecar` a packet that finds no session is dropped in the step that reads the session, and
  the receiver's clock starts when the receiver does.
- A `sync.Pool` hands out any entry or none, and may forget entries at any time.

## Left out

- SilenceIsReported: the bound carries the scheduler's delay as a parameter, which the source does
  not mention, and counts from `nSent.Add`, which is what the receiver sees.
- YoungExactly: is stated for a scheduler without delay; with delays the instant is not decided at
  the count, and `ReportWindow` bounds it.
- The DTLS handshake, record protection and certificate verification are foreign code.
- gRPC streams, SPIRE sockets and X.509 parsing appear only as messages that parse or do not.
- The TUN device, socket options and `sendto` appear only as a delivery that succeeds or fails; the
  receive loop of NFQUEUE mode adds nothing to the socket one except the TUN device.
- cgo, libnetfilter_queue, the verdict mutex and what `--queue-bypass` does while nobody listens: only
  the callback's contract with Go is kept.
- An `iptables` command that fails half way through an installation.
- Flags, logging, deployment scripts and manifests.
