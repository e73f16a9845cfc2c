# Demikernel in Dafny

A model of the core of Demikernel with proofs of what that core is for: the user-level TCP/IP
stack `catnip` (Rust), and the queue-token, in-memory-queue and message-framing parts of the C++
library operating systems.

Every component has the same two layers. Values and functions say what each operation computes,
with `Outcome` (`Done` or `Panic`) for operations that can abort the process: failed assertions,
`unwrap` and `expect` of nothing, and checked arithmetic that overflows. The theorems are about
these: invariants kept by every step, what holds in every state of every run, and what exactly each
step does to every field (`TcpEffects`, `TcpCalls`, `TcpTerms`, `WireSums`, `WireExact` and the other
lemmas named `...Exact`). Where the source updates objects in place, classes do the same with fields,
arrays and loops, and each method is proved to turn the old state into the one its function gives; a
method returns `ok`, false exactly where the source aborts.

| files | component |
|---|---|
| `Base`, `SeqNumbers` | options, outcomes, byte buffers, 32-bit sequence numbers |
| `TcpState`, `TcpNetwork`, `TcpSafety`, `TcpTheorems`, `TcpOrder`, `TcpAborts`, `TcpRuns`, `TcpEffects`, `TcpKarn`, `Rto`, `TcpControl` | the established connection: two endpoints over a network that loses, duplicates and reorders packets |
| `TcpOpen`, `TcpPeer`, `TcpTables`, `TcpCalls`, `TcpTerms`, `TcpHandshake`, `TcpCompletes`, `TcpOpenRuns`, `TcpSockets` | opening connections: handshakes among any number of hosts, and each host's tables |
| `WakerPage`, `Scheduler`, `SchedulerLoop`, `SchedulerRefines`, `Timer` | the scheduler of futures, its pages of bits, and the timer |
| `Checksum`, `Wire`, `TcpOptions`, `TcpWire`, `UdpWire`, `WireSums`, `WireExact`, `WireBuffers`, `ByteViews` | headers, options, frames and checksums as bytes |
| `TtlCache` | the cache with expiring records |
| `MemoryQueue`, `Framing` | queue tokens, the in-memory queue, messages over a split stream |

## What the theorems rest on

- Established connection. A step is one push, pop, packet, timer or turn of a background loop;
  link addresses come from the cache, so no `await` splits a step. A delivered packet is less
  than 2^32 bytes stale (`TcpNetwork.FreshPacket`), as section 3.3 of RFC 793 asks of every
  sequence number, and a window probe is not the byte that would put 2^32 bytes in flight
  (`TcpNetwork.Enabled`). Nothing is assumed of the packets' order, loss or duplication, of
  buffer sizes, windows or segment sizes. Where a stated property fails there is a run that shows
  it (`TcpRuns`, `TcpKarn.ProbeIsSampled`) and a theorem that says exactly when it holds
  (`TcpOrder.PushOrderExact`, `TcpAborts.AbortsExactly`, `TcpKarn.KarnsRule`).
- Packets carry a stamp that no operation reads: which segment of the sender they carry and how
  many of the peer's they acknowledge. It only lets the invariant name them.
- Opening. The file table hands out unused descriptors. Theorems about one host (`TcpTables`,
  `TcpCalls`, `TcpTerms`) hold on any calls and any segments; in those about several (`TcpHandshake`,
  `TcpCompletes`) all hosts run this code, and packets are those some host transmitted, in any
  number and order.
- Scheduler. Futures, wakers and owners insert, wake, drop and take while a future is polled. Three
  things are excluded, because they break the scheduler: a waker that fires for a free slot
  (`Scheduler.StrayWakeAborts`), taking a future that the pass under way still has to poll
  (`Scheduler.TakePendingAborts`), and taking the future that is being polled
  (`Scheduler.TakeCurrentMisleads`). A handle or the raw token made from it stands for one owner of
  a slot.
- Cache. A heap yields any tombstone that expires first, so what an eviction does among records and
  tombstones due at the same time is open; `TtlCache.AbortConditionsAgree` says that nothing else is.
- Memory queue. Callers poll tokens they have not dropped and drop tokens that have completed
  (`MemoryQueue.EarlyDropFails` shows why).
- Timeout values are real numbers where the source has 64-bit floats; instants and durations of
  cache and timer are natural numbers.

Where code and documentation disagree the model follows the code: the comment on the TCP checksum
counts 2^16 additions before overflow, and what is proved is that IPv4 cannot carry more than fits;
the smallest frame is measured with the Ethernet header included; a count of zero evicts without
bound; removing a cached record without expiry returns nothing.

## Model

| member | source | states |
|---|---|---|
| TcpTheorems.DeliveryIsPrefix | src/rust/catnip/src/protocols/tcp/established/state/receiver.rs:156-193 | In every run of two endpoints over a network that loses, duplicates and reorders, the buffers popped followed by those queued are, segment by segment and byte by byte, a prefix of what the other end assigned to sequence numbers; in both directions |
| TcpOrder.DeliveryIsPushOrder | src/rust/catnip/src/protocols/tcp/established/state/sender.rs:100-141 | In every run in which no push is sent ahead of queued bytes, what an application receives is a prefix of the bytes the other one pushed, in push order |
| TcpOrder.PushOrderExact | src/rust/catnip/src/protocols/tcp/established/state/sender.rs:113-141 | A push keeps push order if and only if it is queued, or the queued bytes and the new buffer read the same in either order; an empty unsent queue always does |
| TcpRuns.OvertakingRun | src/rust/catnip/src/protocols/tcp/established/state/sender.rs:113-141 | A concrete run in which a later push that fits the window is sent before an earlier one that waits |
| TcpTheorems.SenderAccounting | src/rust/catnip/src/protocols/tcp/established/background/sender.rs:41-124 | In every reachable state, sent minus base is the bytes in the queue of unacknowledged segments, unsent minus sent the bytes in the unsent queue (modulo 2^32), and every data packet ever transmitted carries the stream bytes at its sequence number |
| TcpTheorems.ReceiverAccounting | src/rust/catnip/src/protocols/tcp/established/state/receiver.rs:65-84 | In every reachable state, recv minus base is the bytes queued and within the maximum window, the advertised window does not underflow, the acknowledgement timer is set exactly if something is unacknowledged, and the piggybacked acknowledgement agrees with that exactly if [ack, recv] does not cross a multiple of 2^32 |
| TcpTheorems.UnacknowledgedBounded | src/rust/catnip/src/protocols/tcp/established/state/receiver.rs:65-84 | Less than 2^32 received bytes are unacknowledged, and the acknowledged position reaches the received one exactly if every segment is acknowledged |
| TcpTheorems.RunInv | src/rust/catnip/src/protocols/tcp/established/state/mod.rs:47-103 | The invariant of both endpoints and of both streams holds in every state of every run |
| TcpTheorems.StartInv | src/rust/catnip/src/protocols/tcp/established/state/sender.rs:81-98 | Two new endpoints that expect each other's first numbers satisfy the invariant |
| TcpSafety.StepKeepsInv | src/rust/catnip/src/protocols/tcp/established/state/mod.rs:47-103 | Every step of one endpoint, whatever the other has done, keeps the invariant; streams only grow and the base never moves back |
| TcpSafety.RemoteAckExact | src/rust/catnip/src/protocols/tcp/established/state/sender.rs:153-209 | The wrapping acknowledgement test on the segment index the number stands for: an acknowledgement ahead of the base moves the base to exactly that segment, and any other changes nothing in the queues; the branch for an acknowledgement inside a segment is not taken |
| TcpSafety.PopAckedExact | src/rust/catnip/src/protocols/tcp/established/state/sender.rs:186-205 | Acknowledging the bytes of the first k live segments removes exactly these |
| TcpSafety.AckStampInSender | src/rust/catnip/src/protocols/tcp/established/state/mod.rs:88-103 | Every acknowledgement an endpoint transmits is a boundary of the other end's segment list |
| TcpSafety.ReceiveDataExact | src/rust/catnip/src/protocols/tcp/established/state/receiver.rs:156-193 | A data segment that carries the expected number is the next segment of the peer's stream, with its bytes |
| TcpSafety.AssignedKeepsSender | src/rust/catnip/src/protocols/tcp/established/background/sender.rs:105-124 | Assigning a buffer to the next sequence numbers keeps sender accounting, and the packet carries the stream at its number |
| TcpSafety.PushShape | src/rust/catnip/src/protocols/tcp/established/state/sender.rs:100-141 | What a push does: refuse 2^32 bytes and more, send at once, or append to the unsent queue |
| TcpSafety.ProbeShape | src/rust/catnip/src/protocols/tcp/established/background/sender.rs:41-60 | A turn with a closed window sends exactly the first unsent byte as a new segment and starts probing |
| TcpSafety.WindowedShape | src/rust/catnip/src/protocols/tcp/established/background/sender.rs:79-124 | A turn with open window sends a non-empty prefix of the unsent bytes that fits the window |
| TcpSafety.RetransmitShape | src/rust/catnip/src/protocols/tcp/established/background/retransmitter.rs:25-54 | The retransmitter repeats the front segment unchanged at the base and takes its timestamp away |
| TcpSafety.NonReceiveShape | src/rust/catnip/src/protocols/tcp/established/state/mod.rs:88-103 | Every action but a receive or a pop transmits at most one packet and touches the receiver only by acknowledging |
| TcpSafety.TransmitDone | src/rust/catnip/src/protocols/tcp/established/state/mod.rs:77-103 | In a state with receiver accounting no transmission aborts, and it acknowledges everything received |
| TcpSafety.PushKeepsSending | src/rust/catnip/src/protocols/tcp/established/state/sender.rs:100-141 | A push keeps sender accounting, timer and probe invariants |
| TcpSafety.ProbeKeepsSending | src/rust/catnip/src/protocols/tcp/established/background/sender.rs:41-60 | Starting a window probe keeps them |
| TcpSafety.WindowedSendKeepsSending | src/rust/catnip/src/protocols/tcp/established/background/sender.rs:79-124 | A windowed send keeps them |
| TcpSafety.ProbeTimerKeepsSending | src/rust/catnip/src/protocols/tcp/established/background/sender.rs:65-76 | Repeating a probe keeps them: the probe still carries the stream at its number |
| TcpSafety.RetransmitKeepsSending | src/rust/catnip/src/protocols/tcp/established/background/retransmitter.rs:25-54 | A retransmission keeps them |
| TcpSafety.ReceiveKeepsSending | src/rust/catnip/src/protocols/tcp/established/state/mod.rs:47-71 | A received packet keeps them, and the base becomes the acknowledged boundary if that is ahead |
| TcpSafety.ReceiveKeepsReceiver | src/rust/catnip/src/protocols/tcp/established/state/mod.rs:47-71 | A received packet keeps receiver accounting, and what was accepted stays a prefix of the peer's stream |
| TcpSafety.PopKeepsReceiver | src/rust/catnip/src/protocols/tcp/established/state/receiver.rs:108-149 | Popping a buffer keeps receiver accounting and loses nothing |
| TcpAborts.AbortsExactly | src/rust/catnip/src/protocols/tcp/established/background/sender.rs:17-126 | In every state that satisfies the invariant an action aborts if and only if it is one of three: a push that overflows the bytes in flight, a sender turn with something to send that finds an empty buffer in front or a zero segment size, an acknowledgement timer across 2^32; the retransmitter's panic and the window underflow are unreachable |
| TcpAborts.TurnsNeverAbort | src/rust/catnip/src/protocols/tcp/established/background/sender.rs:17-126 | Over every run in which no empty buffer is pushed and no one-byte buffer is probed, no turn of a sender with a positive segment size aborts |
| TcpAborts.TimersNeverAbort | src/rust/catnip/src/protocols/tcp/established/background/retransmitter.rs:25-54 | The retransmission and probe timers never abort: an armed timer has a segment to resend |
| TcpAborts.AckTimerAborts | src/rust/catnip/src/protocols/tcp/established/background/acknowledger.rs:16-48 | The acknowledger aborts exactly if the acknowledgement is due and [ack, recv] crosses a multiple of 2^32 |
| TcpAborts.NewSendWithinWindow | src/rust/catnip/src/protocols/tcp/established/background/sender.rs:79-124 | A newly assigned segment other than a probe leaves the bytes in flight within the window field |
| TcpEffects.PushExact | src/rust/catnip/src/protocols/tcp/established/state/sender.rs:100-141 | A push is sent at once, as the next segment with its whole buffer, if and only if it fits the open window beside what is in flight and the link address is cached, and the timer then keeps its deadline or is due a timeout from now; otherwise it waits behind the others; nothing else changes |
| TcpEffects.WindowedExact | src/rust/catnip/src/protocols/tcp/established/background/sender.rs:79-124 | A turn with room sends as many bytes of the front buffer as window and segment size allow, the whole buffer if both do, and arms the timer the same way |
| TcpEffects.ProbeExact | src/rust/catnip/src/protocols/tcp/established/background/sender.rs:41-60 | A turn with closed window sends the first unsent byte, leaves the rest in front, leaves the timer alone and begins to probe |
| TcpEffects.IdleTurnExact | src/rust/catnip/src/protocols/tcp/established/background/sender.rs:17-40 | Every other turn only ends the probing once the window has been written |
| TcpEffects.ProbeTimerExact | src/rust/catnip/src/protocols/tcp/established/background/sender.rs:65-76 | The probe timer repeats the probe at its own number until the window is written |
| TcpEffects.RetransmitExact | src/rust/catnip/src/protocols/tcp/established/background/retransmitter.rs:25-54 | At or after its deadline, and not before, the retransmission timer transmits the front segment at the base, takes its timestamp away, doubles the timeout up to a minute and is due that long from now |
| TcpEffects.AckTimerExact | src/rust/catnip/src/protocols/tcp/established/background/acknowledger.rs:16-48 | At or after its deadline, and not before, the acknowledgement timer sends an empty segment that acknowledges everything received |
| TcpEffects.TransmitExact | src/rust/catnip/src/protocols/tcp/established/state/mod.rs:77-103 | Every segment advertises the receive window less what is queued, in 16 bits, and acknowledges everything received or carries no acknowledgement |
| TcpEffects.ReceiveExact | src/rust/catnip/src/protocols/tcp/established/state/receiver.rs:156-193 | A data packet is accepted, whole and at the end of what was accepted, if and only if it carries the next segment of the peer and fits the free window; its acknowledgement then falls due at the old deadline or half a second from now; any other packet leaves the receiver as it is |
| TcpEffects.NextExact | src/rust/catnip/src/protocols/tcp/established/state/receiver.rs:163-167 | A packet carries the expected number if and only if it carries the next segment |
| TcpEffects.ReceiveSendingExact | src/rust/catnip/src/protocols/tcp/established/state/sender.rs:153-247 | An acknowledgement of unacknowledged segments removes them, and stops the timer if nothing is left in flight or starts it a timeout from now; any other changes nothing; then the window is the advertised one, scaled, and a probing sender is told |
| TcpEffects.PopExact | src/rust/catnip/src/protocols/tcp/established/state/receiver.rs:108-149 | A pop hands out the oldest accepted buffer not handed out yet, whole, or nothing if there is none |
| TcpEffects.TimerGuards | src/rust/catnip/src/protocols/tcp/established/background/retransmitter.rs:25-54 | In every state of every run, while a segment that was not sent as a window probe is unacknowledged, the retransmission timer is armed |
| TcpEffects.WindowIsLastHeard | src/rust/catnip/src/protocols/tcp/established/state/sender.rs:231-247 | In every state of every run, the window a sender works with is the one it started with or that of the last packet it received, scaled |
| TcpKarn.AckExact | src/rust/catnip/src/protocols/tcp/established/state/sender.rs:153-209 | On any sender and any number: an acknowledgement changes nothing unless it covers bytes in flight; else it removes segments from the front until they hold what it covers and no more, feeds the estimator the round trips of those with a timestamp, moves the base to it unless it falls inside a segment, and sets the timer |
| TcpKarn.PopCovers | src/rust/catnip/src/protocols/tcp/established/state/sender.rs:186-205 | How many segments that is |
| TcpRuns.AckAcrossWrapRun | src/rust/catnip/src/protocols/tcp/established/state/receiver.rs:70-84 | A concrete run whose delayed acknowledgement crosses 2^32 and aborts the receiver |
| TcpRuns.PushOverflowRun | src/rust/catnip/src/protocols/tcp/established/state/sender.rs:113-116 | A concrete run in which a push of 2^32 - 1 bytes overflows the bytes in flight |
| TcpRuns.OneByteProbeRun | src/rust/catnip/src/protocols/tcp/established/state/sender.rs:211-217 | A concrete run in which probing a one-byte buffer leaves an empty buffer and a later turn aborts |
| SeqNumbers.AckTestExact | src/rust/catnip/src/protocols/tcp/established/state/sender.rs:161-172 | The u32 test accepts an acknowledgement if and only if base <= ack <= sent in unbounded positions, or the acknowledgement is a full 2^32 stale |
| SeqNumbers.PlainCompare | src/rust/catnip/src/protocols/tcp/established/state/receiver.rs:70-78 | Plain comparison of two sequence numbers tells their order exactly if no multiple of 2^32 lies between the positions |
| SeqNumbers.SubPositions | src/rust/catnip/src/protocols/tcp/established/state/sender.rs:161-172 | The wrapping difference of two positions is their distance modulo 2^32 |
| SeqNumbers.WrapInjective | src/rust/catnip/src/protocols/tcp/established/state/receiver.rs:163-167 | Positions less than 2^32 apart carry the same number only if they are equal |
| TcpKarn.KarnsRule | src/rust/catnip/src/protocols/tcp/established/background/retransmitter.rs:25-54 | Karn's rule exactly, over every run of one endpoint: a segment was sampled if and only if it has left the queue, the retransmitter did not resend it, and no acknowledgement cut it |
| TcpKarn.ProbesSampledExactly | src/rust/catnip/src/protocols/tcp/established/background/sender.rs:65-76 | A probe that the sender loop repeated and that left the queue uncut was sampled if and only if the retransmitter never resent it |
| TcpKarn.NothingCutBetweenPeers | src/rust/catnip/src/protocols/tcp/established/state/sender.rs:186-205 | No packet of a peer that runs this code cuts a segment, in any state of a run |
| TcpKarn.SampledAtExact | src/rust/catnip/src/protocols/tcp/established/state/sender.rs:186-205 | The estimator after an acknowledgement is the one before with the samples of the named positions added in order |
| TcpKarn.SampledAtComplete | src/rust/catnip/src/protocols/tcp/established/state/sender.rs:186-205 | Those positions are exactly the removed segments that still have their timestamp, but for a last one inside which the acknowledgement falls |
| TcpKarn.ProbeIsSampled | src/rust/catnip/src/protocols/tcp/established/background/sender.rs:65-76 | A concrete run in which a probe sent twice by the sender loop is still sampled |
| Rto.RtoStaysBounded | src/rust/catnip/src/protocols/tcp/established/state/rto.rs:28-68 | For every sequence of samples and failures the timeout stays within [0.001, 60], the smoothed time between the smallest and largest sample, the variation between zero and the largest |
| Rto.EstimatesAreMeans | src/rust/catnip/src/protocols/tcp/established/state/rto.rs:28-50 | Over every history, the smoothed estimate is the exponentially fading mean of the samples, an eighth for the newest, and the variation that of their deviations, a quarter for the newest |
| Rto.TimeoutAfterSample | src/rust/catnip/src/protocols/tcp/established/state/rto.rs:38-64 | After a sample the timeout is the smoothed estimate plus the variation, or a millisecond if four times the variation is less, within [0.001, 60] |
| Rto.FailuresDouble | src/rust/catnip/src/protocols/tcp/established/state/rto.rs:52-68 | After every history, n failures multiply the timeout by 2^n, up to a minute |
| Rto.FirstTimeouts | src/rust/catnip/src/protocols/tcp/established/state/rto.rs:18-26 | Before any sample the timeout is one second, and 2^n seconds after n failures, up to a minute |
| Rto.RtoCalculator.constructor | src/rust/catnip/src/protocols/tcp/established/state/rto.rs:18-26 | Starts as the fresh estimator |
| Rto.RtoCalculator.Add | src/rust/catnip/src/protocols/tcp/established/state/rto.rs:28-50 | Updates the fields as the estimator function says |
| Rto.RtoCalculator.Update | src/rust/catnip/src/protocols/tcp/established/state/rto.rs:52-64 | Clamps the new timeout |
| Rto.RtoCalculator.Fail | src/rust/catnip/src/protocols/tcp/established/state/rto.rs:66-68 | Doubles and clamps the timeout |
| TcpControl.Sender.constructor | src/rust/catnip/src/protocols/tcp/established/state/sender.rs:81-98 | Starts as the new sender of the specification |
| TcpControl.Sender.PopAcked | src/rust/catnip/src/protocols/tcp/established/state/sender.rs:186-205 | The pop loop leaves the queue, the estimator and the boundary flag of the specification |
| TcpControl.Sender.RemoteAck | src/rust/catnip/src/protocols/tcp/established/state/sender.rs:153-209 | The new sender is the specified one, for every acknowledgement |
| TcpControl.Sender.PopOneUnsentByte | src/rust/catnip/src/protocols/tcp/established/state/sender.rs:211-217 | Aborts exactly if specified, otherwise splits off the first byte |
| TcpControl.Sender.PopUnsent | src/rust/catnip/src/protocols/tcp/established/state/sender.rs:219-229 | Aborts exactly if specified, otherwise takes at most the given bytes from the front buffer |
| TcpControl.Sender.UpdateRemoteWindow | src/rust/catnip/src/protocols/tcp/established/state/sender.rs:231-247 | Writes the scaled window, or refuses a shift of 32 and more |
| TcpControl.Sender.Assign | src/rust/catnip/src/protocols/tcp/established/background/sender.rs:109-119 | Appends to the unacknowledged queue and moves the sent number |
| TcpControl.Sender.ArmTimer | src/rust/catnip/src/protocols/tcp/established/background/sender.rs:121-124 | Sets the retransmission deadline if none is set |
| TcpControl.Receiver.constructor | src/rust/catnip/src/protocols/tcp/established/state/receiver.rs:52-63 | Starts as the new receiver of the specification |
| TcpControl.Receiver.AckSent | src/rust/catnip/src/protocols/tcp/established/state/receiver.rs:80-84 | Aborts exactly if the number is not the received one |
| TcpControl.Receiver.UnreadBytes | src/rust/catnip/src/protocols/tcp/established/state/receiver.rs:169-174 | The bytes of the queued buffers, added up |
| TcpControl.Receiver.ReceiveData | src/rust/catnip/src/protocols/tcp/established/state/receiver.rs:156-193 | Accepts a whole segment at the expected number that fits the window, and nothing else |
| TcpControl.ControlBlock.constructor | src/rust/catnip/src/protocols/tcp/established/state/mod.rs:35-44 | Joins a sender and a receiver |
| TcpControl.ControlBlock.TcpHeader | src/rust/catnip/src/protocols/tcp/established/state/mod.rs:77-86 | Builds the specified header, or aborts exactly if specified |
| TcpControl.ControlBlock.Emit | src/rust/catnip/src/protocols/tcp/established/state/mod.rs:88-103 | Transmits and records the acknowledgement, or aborts exactly if specified |
| TcpControl.ControlBlock.Transmit | src/rust/catnip/src/protocols/tcp/established/background/sender.rs:105-107 | Header, number and data as specified |
| TcpControl.ControlBlock.Send | src/rust/catnip/src/protocols/tcp/established/state/sender.rs:100-141 | The push of the specification, with the segment it sends |
| TcpControl.ControlBlock.SenderTurn | src/rust/catnip/src/protocols/tcp/established/background/sender.rs:18-124 | One turn of the sender loop as specified |
| TcpControl.ControlBlock.ProbeTimer | src/rust/catnip/src/protocols/tcp/established/background/sender.rs:65-76 | One repetition of a probe as specified |
| TcpControl.ControlBlock.RetransmitTimer | src/rust/catnip/src/protocols/tcp/established/background/retransmitter.rs:15-57 | One wake-up of the retransmitter as specified |
| TcpControl.ControlBlock.AckTimer | src/rust/catnip/src/protocols/tcp/established/background/acknowledger.rs:16-48 | One wake-up of the acknowledger as specified |
| TcpControl.ControlBlock.Receive | src/rust/catnip/src/protocols/tcp/established/state/mod.rs:47-71 | An incoming segment, handled as specified |
| TcpControl.ControlBlock.Recv | src/rust/catnip/src/protocols/tcp/established/state/receiver.rs:108-127 | Hands out the front buffer as specified |
| TcpHandshake.HandshakeAgreement | src/rust/catnip/src/protocols/tcp/active_open.rs:122-190 | In every run of hosts that exchange lost, duplicated and reordered SYN, SYN+ACK and ACK packets, if both ends of an endpoint pair hold a control block then each sender starts where the other's receiver does |
| TcpHandshake.OnlyUncachedSynAckAborts | src/rust/catnip/src/protocols/tcp/active_open.rs:122-190 | Among hosts running this code the only step that can abort is a SYN+ACK whose sender's link address is not cached |
| TcpCompletes.HandshakeCompletes | src/rust/catnip/src/protocols/tcp/active_open.rs:122-190 | For any two consistent hosts, one connecting and one with room in the backlog of the listener named: if SYN, SYN+ACK and ACK arrive and link addresses are cached, the client's socket is established, the server's connection waits behind those before it, each starts from the other's numbers, and the segment sizes are the client's offer and 536 |
| TcpCompletes.HandshakeStartsConnection | src/rust/catnip/src/protocols/tcp/passive_open.rs:169-184 | In every run, two ends that hold control blocks for one endpoint pair are a start of the two-endpoint system, with the terms of their blocks |
| TcpCompletes.OwnHostsArePlain | src/rust/catnip/src/protocols/tcp/passive_open.rs:210-239 | In every run of hosts with this code every block has window scale 1 and window 2048, twice what was offered, and every client sends segments of 536 bytes |
| TcpTerms.ListenerTerms | src/rust/catnip/src/protocols/tcp/passive_open.rs:139-239 | In every run of a host, on any calls and any segments: a block that a listener holds, from the handshake on until it is established and after, has the numbers, window, window scale and segment size of the SYN that started its handshake |
| TcpTerms.ClientTerms | src/rust/catnip/src/protocols/tcp/active_open.rs:122-190 | And a client's block those of the SYN+ACK that its attempt accepted |
| TcpTerms.EstablishedHasBlock | src/rust/catnip/src/protocols/tcp/peer.rs:121-160 | In every run of a host, every established socket, connected or accepted, has a control block for its endpoints, with the terms of that segment |
| TcpTerms.ListenerStep | src/rust/catnip/src/protocols/tcp/passive_open.rs:139-239 | A listener's block was held before the event, or the event is the SYN that started its handshake |
| TcpTerms.ClientStep | src/rust/catnip/src/protocols/tcp/active_open.rs:122-190 | A client's block was held before the event, or the event is the SYN+ACK that completed its attempt |
| TcpCalls.NegotiatedIsLast | src/rust/catnip/src/protocols/tcp/active_open.rs:156-168 | The window scale is that of the last such option, or 1; the segment size that of the last such option, or 536 |
| TcpCalls.PassiveReceiveExact | src/rust/catnip/src/protocols/tcp/passive_open.rs:139-239 | A segment starts a handshake if and only if it is a first SYN within the backlog, with its terms and three retries; completes one if and only if it acknowledges the listener's number, which queues a block with the recorded numbers and terms; and changes nothing otherwise |
| TcpCalls.ActiveReceiveExact | src/rust/catnip/src/protocols/tcp/active_open.rs:122-190 | A reset refuses an attempt; the SYN+ACK for its number completes it, with the numbers and terms of that segment, and is acknowledged; anything else changes nothing |
| TcpCalls.ThreeSyns | src/rust/catnip/src/protocols/tcp/active_open.rs:192-239 | An attempt sends its SYN three times, with the same number and its segment size, and times out at the fourth wake-up |
| TcpCalls.ThreeSynAcks | src/rust/catnip/src/protocols/tcp/passive_open.rs:241-286 | A listener sends its SYN+ACK three times and reports one time-out |
| TcpCalls.ReadyIsQueue | src/rust/catnip/src/protocols/tcp/passive_open.rs:72-101 | Connections are accepted first come, first served |
| TcpCalls.FinishExact | src/rust/catnip/src/protocols/tcp/peer.rs:504-545 | Finishing a connected attempt makes its block the connection of the endpoint pair, removes the attempt and makes the socket established; a refused or timed-out one changes neither the connections nor the socket; an unfinished one changes nothing |
| TcpCalls.AcceptExact | src/rust/catnip/src/protocols/tcp/peer.rs:121-160 | Accepting takes the oldest entry of the listener; a connection becomes that of its endpoint pair and the new descriptor an established socket for it; a time-out or nothing changes neither |
| TcpCalls.ConnectExact | src/rust/catnip/src/protocols/tcp/peer.rs:169-211 | A connect takes the lowest free private port and starts an attempt with three SYNs left, and does nothing if and only if the socket is not inactive or no private port is free |
| TcpCalls.BindListenExact | src/rust/catnip/src/protocols/tcp/peer.rs:76-119 | A bind below the private ports and a listen make an inactive socket the listener of its endpoint, with nothing pending, unless there is one |
| TcpCalls.ListenExact | src/rust/catnip/src/protocols/tcp/peer.rs:98-119 | A listen on any other socket changes nothing |
| TcpCalls.OpenExact | src/rust/catnip/src/protocols/tcp/peer.rs:66-74 | A new socket is inactive and unbound, and no other changes |
| TcpCalls.DispatchExact | src/rust/catnip/src/protocols/tcp/peer.rs:446-502 | A segment goes to the connection, the attempt or the listener of its endpoints, in this order, and changes no other entry; one for nobody is answered with a reset |
| TcpHandshake.MoveKeepsInv | src/rust/catnip/src/protocols/tcp/peer.rs:446-475 | Every call, timer and packet at every host keeps the invariant that ties blocks, attempts, handshakes and packets to the recorded initial numbers |
| TcpHandshake.RunInv | src/rust/catnip/src/protocols/tcp/peer.rs:446-475 | That invariant holds in every state of every run |
| TcpHandshake.AttemptReceives | src/rust/catnip/src/protocols/tcp/active_open.rs:122-190 | An attempt to connect is completed only by the listener's SYN+ACK for it, with the recorded numbers |
| TcpHandshake.ListenerReceives | src/rust/catnip/src/protocols/tcp/passive_open.rs:139-185 | A listener's handshakes and ready connections keep the recorded numbers |
| TcpHandshake.ListenerStarts | src/rust/catnip/src/protocols/tcp/passive_open.rs:188-239 | A SYN starts one handshake with its own number and the generated one |
| TcpHandshake.AcceptMoves | src/rust/catnip/src/protocols/tcp/peer.rs:121-160 | Accepting moves a block from the listener to the table of established connections |
| TcpHandshake.FinishMoves | src/rust/catnip/src/protocols/tcp/peer.rs:504-545 | A finished attempt moves to the table with its numbers |
| TcpHandshake.ConnectMoves | src/rust/catnip/src/protocols/tcp/peer.rs:169-211 | A connect uses a port never used before, so its endpoint pair is new |
| TcpTables.TablesStayConsistent | src/rust/catnip/src/protocols/tcp/peer.rs:76-211 | For every call and segment the four tables stay consistent and no assertion on them fires: the call aborts if and only if it is a segment that completes an attempt without cached link address or negotiates a window shift of 16 and more |
| TcpTables.RunStaysConsistent | src/rust/catnip/src/protocols/tcp/peer.rs:60-211 | In every state of every run of a peer from its creation, on any calls and any segments, the tables are consistent and a further call aborts exactly as above |
| TcpOpenRuns.UncachedSynAckRun | src/rust/catnip/src/protocols/tcp/active_open.rs:122-190 | A concrete run of two hosts to that abort |
| TcpTables.SocketKeeps | src/rust/catnip/src/protocols/tcp/peer.rs:66-74 | Opening a socket never aborts and keeps the tables consistent |
| TcpTables.BindKeeps | src/rust/catnip/src/protocols/tcp/peer.rs:76-92 | Binding keeps the tables consistent |
| TcpTables.ListenKeeps | src/rust/catnip/src/protocols/tcp/peer.rs:98-119 | Listening keeps the tables consistent, and every listening socket has its entry |
| TcpTables.AcceptKeeps | src/rust/catnip/src/protocols/tcp/peer.rs:121-160 | Accepting finds its listener, a new descriptor and a new endpoint pair |
| TcpTables.ConnectKeeps | src/rust/catnip/src/protocols/tcp/peer.rs:169-211 | Connecting never aborts: the pair is new because ephemeral ports are not reused |
| TcpTables.FinishKeeps | src/rust/catnip/src/protocols/tcp/peer.rs:504-545 | Finishing a connect never aborts: the pair is not established yet |
| TcpTables.ReceiveKeeps | src/rust/catnip/src/protocols/tcp/peer.rs:446-475 | A segment aborts exactly if named, and otherwise keeps the tables consistent |
| TcpOpen.BacklogHolds | src/rust/catnip/src/protocols/tcp/passive_open.rs:72-101 | After every history of segments, time-outs and accepts, the recorded endpoints are exactly the remotes of the ready connections, without repeats and apart from the handshakes in flight, and both together respect the backlog |
| TcpOpen.ReceiveKeepsBacklog | src/rust/catnip/src/protocols/tcp/passive_open.rs:139-239 | A segment at a listener aborts if and only if it is a first SYN within the backlog with a window scale of 16 or more; otherwise the backlog invariant is kept |
| TcpOpen.TimerKeepsBacklog | src/rust/catnip/src/protocols/tcp/passive_open.rs:241-286 | A handshake time-out adds an error entry and keeps the backlog invariant |
| TcpOpen.PollKeepsBacklog | src/rust/catnip/src/protocols/tcp/passive_open.rs:84-96 | Accepting never trips its assertion and keeps the backlog invariant |
| TcpOpen.CompleteKeepsBacklog | src/rust/catnip/src/protocols/tcp/passive_open.rs:73-77 | Completing a handshake never trips the assertion that the endpoint is new |
| TcpSockets.Negotiate | src/rust/catnip/src/protocols/tcp/passive_open.rs:210-222 | The option loop chooses the last window scale and segment size |
| TcpSockets.PassiveSocket.constructor | src/rust/catnip/src/protocols/tcp/passive_open.rs:116-133 | Starts without handshakes |
| TcpSockets.PassiveSocket.PushReady | src/rust/catnip/src/protocols/tcp/passive_open.rs:73-77 | Records an accepted endpoint, or aborts exactly if it is recorded already |
| TcpSockets.PassiveSocket.Receive | src/rust/catnip/src/protocols/tcp/passive_open.rs:139-239 | Handles a segment as specified, or aborts exactly if specified |
| TcpSockets.PassiveSocket.Poll | src/rust/catnip/src/protocols/tcp/passive_open.rs:84-96 | Hands out the oldest ready entry as specified |
| TcpSockets.ActiveOpenSocket.constructor | src/rust/catnip/src/protocols/tcp/active_open.rs:69-103 | Starts as a new attempt |
| TcpSockets.ActiveOpenSocket.Receive | src/rust/catnip/src/protocols/tcp/active_open.rs:122-190 | Handles a segment as specified, with the reply it sends, or aborts exactly if specified |
| TcpSockets.EphemeralPorts.constructor | src/rust/catnip/src/protocols/ip/port.rs:47-54 | All private ports but the last are free |
| TcpSockets.EphemeralPorts.Alloc | src/rust/catnip/src/protocols/ip/port.rs:56-68 | Allocates the first free port, or fails if there is none |
| TcpSockets.Peer.constructor | src/rust/catnip/src/protocols/tcp/peer.rs:432-444 | Starts with empty tables |
| TcpSockets.Peer.OpenSocket | src/rust/catnip/src/protocols/tcp/peer.rs:66-74 | As specified, or aborts exactly if specified |
| TcpSockets.Peer.Bind | src/rust/catnip/src/protocols/tcp/peer.rs:76-92 | As specified |
| TcpSockets.Peer.Listen | src/rust/catnip/src/protocols/tcp/peer.rs:98-119 | As specified |
| TcpSockets.Peer.Accept | src/rust/catnip/src/protocols/tcp/peer.rs:121-160 | As specified, or aborts exactly if specified |
| TcpSockets.Peer.Connect | src/rust/catnip/src/protocols/tcp/peer.rs:169-211 | As specified, or aborts exactly if specified |
| TcpSockets.Peer.FinishConnect | src/rust/catnip/src/protocols/tcp/peer.rs:504-545 | As specified, or aborts exactly if specified |
| TcpSockets.Peer.Receive | src/rust/catnip/src/protocols/tcp/peer.rs:446-502 | As specified, with the reply it sends, or aborts exactly if specified |
| Scheduler.NoLostWakeUp | src/rust/catnip/src/scheduler.rs:154-195 | In every run, a future inserted or woken at some step is polled at a later step no further than the end of the next pass, unless it completed before that pass or its owner gave it up |
| Scheduler.DroppedIsFreed | src/rust/catnip/src/scheduler.rs:173-195 | In every run, a future whose handle is dropped is removed from the slab no later than the end of the next pass |
| Scheduler.PollsAreCaused | src/rust/catnip/src/scheduler.rs:154-171 | In every run, a future is polled only if it was inserted or woken before the pass took the bits of its page and after any earlier pass did |
| Scheduler.PolledTwiceCausedTwice | src/rust/catnip/src/scheduler.rs:154-171 | In every run, two polls of a slot have two causes, the second after the bits were taken for the first |
| Scheduler.NeverPolledAgain | src/rust/catnip/src/scheduler.rs:154-195 | In every run, a future that returned ready, or whose drop a pass observed, is not polled again; later polls of its slot follow an insertion |
| Scheduler.CompletedExactly | src/rust/catnip/src/scheduler.rs:79-82 | After every run, the completed bit of a slot is set if and only if the future now in it has returned ready |
| Scheduler.NeverAborts | src/rust/catnip/src/scheduler.rs:122-195 | After every run, no call aborts: neither the unwrap on the slab nor the assertion of take fires |
| Scheduler.StepKeepsInv | src/rust/catnip/src/scheduler.rs:122-195 | Every step of a pass and everything futures, wakers and owners may do between steps keeps the invariant |
| Scheduler.TakeSucceeds | src/rust/catnip/src/scheduler.rs:122-129 | After every run, taking a future whose handle is live succeeds, also while another is polled |
| Scheduler.TakePendingAborts | src/rust/catnip/src/scheduler.rs:164-171 | After every run, once a future that the pass still has to poll is taken, and until its slot is filled again, the pass stays on its page and the poll of the slot aborts |
| Scheduler.TakeCurrentMisleads | src/rust/catnip/src/scheduler.rs:173-182 | After every run, taking the future being polled and filling its slot before the poll returns ready marks the new future as completed |
| Scheduler.StrayWakeAborts | src/rust/catnip/src/scheduler.rs:164-171 | The hypothesis on wakers is needed: after any run, a waker that fires for a free slot makes the pass abort once its bit is the lowest |
| Scheduler.KeySlotRoundTrip | src/rust/catnip/src/scheduler.rs:204-208 | Keys and pairs of page and index determine each other |
| SchedulerLoop.Scheduler.constructor | src/rust/catnip/src/scheduler.rs:111-120 | Starts empty |
| SchedulerLoop.Scheduler.Insert | src/rust/catnip/src/scheduler.rs:210-218 | Adds just enough empty pages, stores the key, and sets its slot to notified and neither completed nor dropped; every other slot is unchanged |
| SchedulerLoop.Scheduler.Take | src/rust/catnip/src/scheduler.rs:122-129 | Fails exactly if the slot is empty or dropped; otherwise frees and clears it and nothing else |
| SchedulerLoop.Scheduler.PollSlots | src/rust/catnip/src/scheduler.rs:164-183 | Polls the given slots in order and marks those that return ready; aborts exactly if one is empty |
| SchedulerLoop.Scheduler.RemoveSlots | src/rust/catnip/src/scheduler.rs:186-192 | Removes the given slots and clears their bits |
| SchedulerLoop.Scheduler.PollPage | src/rust/catnip/src/scheduler.rs:158-193 | Polls each notified slot that is neither completed nor dropped once, in ascending order, then removes the dropped ones |
| SchedulerLoop.Scheduler.Poll | src/rust/catnip/src/scheduler.rs:154-195 | An uninterrupted pass: aborts if and only if a future to poll is missing; otherwise polls exactly those due, once and in ascending key order, and removes exactly the dropped ones |
| SchedulerRefines.PollIsARun | src/rust/catnip/src/scheduler.rs:154-195 | A pass of the scheduler object is a run of the state machine: from the same slab and pages, with no future to poll missing, some steps lead to an idle state with the slab and pages that Poll leaves |
| SchedulerRefines.PassRefines | src/rust/catnip/src/scheduler.rs:154-195 | A whole pass of the state machine that nothing interrupts turns every page into what the object makes of it and removes exactly the dropped slots |
| SchedulerRefines.PageRefines | src/rust/catnip/src/scheduler.rs:158-193 | The same for one page |
| WakerPages.IterSetBits | src/rust/catnip/src/scheduler.rs:62-71 | Yields each set bit once, in ascending order |
| WakerPages.RemoveLowest | src/rust/catnip/src/scheduler.rs:64-69 | Exclusive or with the isolated lowest bit removes exactly that bit, at the index of trailing zeros |
| WakerPages.TrailingZerosFinds | src/rust/catnip/src/scheduler.rs:67-67 | Trailing zeros finds the lowest set bit |
| WakerPages.WakerPtrDecodes | src/rust/catnip/src/collections/waker_page.rs:164-175 | Decoding a waker address recovers the page and the bit it was made from |
| WakerPages.WakerPage.constructor | src/rust/catnip/src/collections/waker_page.rs:36-49 | No bit is set |
| WakerPages.WakerPage.Notify | src/rust/catnip/src/collections/waker_page.rs:51-55 | Sets the notified bit and no other |
| WakerPages.WakerPage.TakeNotified | src/rust/catnip/src/collections/waker_page.rs:57-64 | Returns the notified bits without the completed and dropped ones and clears the notified word |
| WakerPages.WakerPage.TakeDropped | src/rust/catnip/src/collections/waker_page.rs:82-84 | Returns and clears the dropped word |
| WakerPages.WakerPage.HasCompleted | src/rust/catnip/src/collections/waker_page.rs:66-69 | Tells whether the completed bit is set |
| WakerPages.WakerPage.WasDropped | src/rust/catnip/src/collections/waker_page.rs:86-89 | Tells whether the dropped bit is set |
| WakerPages.WakerPage.MarkCompleted | src/rust/catnip/src/collections/waker_page.rs:71-74 | Sets the completed bit and no other |
| WakerPages.WakerPage.MarkDropped | src/rust/catnip/src/collections/waker_page.rs:76-80 | Sets the dropped bit and no other |
| WakerPages.WakerPage.Initialize | src/rust/catnip/src/collections/waker_page.rs:91-96 | Notified, not completed, not dropped, for this slot only |
| WakerPages.WakerPage.Clear | src/rust/catnip/src/collections/waker_page.rs:98-104 | Clears the three bits of this slot only |
| TcpWire.TcpFrameRoundTrip | src/rust/catnip/src/protocols/tcp/segment.rs:57-88 | Parsing a serialised TCP frame through Ethernet, IPv4 and TCP gives back the same headers without no-operations and exactly the data if and only if every field fits: six-bit DSCP, two-bit ECN, three flag bits, no fragment offset, total length below 65536, header at most 60 bytes, no selective acknowledgement without ranges |
| TcpWire.TcpRoundTrip | src/rust/catnip/src/protocols/tcp/segment.rs:236-398 | A segment with a header of at most 60 bytes parses back to its header without no-operations and its data; with an empty selective acknowledgement it is refused |
| TcpWire.TcpHeaderReads | src/rust/catnip/src/protocols/tcp/segment.rs:400-462 | Every field of a serialised header is where the parser reads it, and the checksum is the one the parser computes |
| TcpWire.FlagsRoundTrip | src/rust/catnip/src/protocols/tcp/segment.rs:412-436 | Reading the flag byte undoes writing it |
| TcpWire.FrameReads | src/rust/catnip/src/protocols/tcp/segment.rs:57-88 | The Ethernet and IPv4 layers of a frame give back their headers and the payload cut at the length field |
| TcpWire.CorruptionIsRefused | src/rust/catnip/src/protocols/tcp/segment.rs:279-284 | A segment that parses is refused once any one word but the checksum is changed, unless between all zeros and all ones |
| TcpWire.TcpSumBounded | src/rust/catnip/src/protocols/tcp/segment.rs:488-565 | The 32-bit accumulator of the checksum does not overflow on anything IPv4 can carry |
| TcpWire.HeaderSize | src/rust/catnip/src/protocols/tcp/segment.rs:464-476 | A multiple of four with room for options and end marker |
| TcpWire.ParseTcp | src/rust/catnip/src/protocols/tcp/segment.rs:236-398 | On every byte string: a parsed header holds at most five valid options, and the data are the bytes after the data offset |
| TcpOptions.OptionsRoundTrip | src/rust/catnip/src/protocols/tcp/segment.rs:291-375 | Reading a written option list gives the options without no-operations, or an error if a selective acknowledgement has no ranges |
| TcpOptions.OptionRoundTrip | src/rust/catnip/src/protocols/tcp/segment.rs:126-176 | Reading one written option gives it back and leaves the rest |
| TcpOptions.SacksRoundTrip | src/rust/catnip/src/protocols/tcp/segment.rs:150-164 | Reading the ranges of a selective acknowledgement undoes writing them |
| TcpOptions.ReadOption | src/rust/catnip/src/protocols/tcp/segment.rs:294-366 | On every input, one option consumes at least one byte and is valid |
| TcpOptions.ReadOptions | src/rust/catnip/src/protocols/tcp/segment.rs:291-375 | On every input, at most five valid options are returned |
| TcpOptions.ParseOptions | src/rust/catnip/src/protocols/tcp/segment.rs:291-375 | The loop ends on every input, by the bytes remaining, with the specified options or error |
| UdpWire.UdpFrameRoundTrip | src/rust/catnip/src/protocols/udp/datagram.rs:57-138 | Parsing a serialised UDP frame gives back the datagram, padding stripped, if and only if the IPv4 fields and the length fit |
| UdpWire.UdpRoundTrip | src/rust/catnip/src/protocols/udp/datagram.rs:96-138 | A serialised datagram below 65536 bytes parses back to itself |
| UdpWire.CorruptionIsRefused | src/rust/catnip/src/protocols/udp/datagram.rs:114-119 | A datagram with a checksum that parses is refused once any one word but the checksum is changed, unless between all zeros and all ones |
| UdpWire.UdpSumBounded | src/rust/catnip/src/protocols/udp/datagram.rs:141-191 | The 32-bit accumulator of the checksum does not overflow on anything IPv4 can carry |
| UdpWire.ZeroChecksumIsUnchecked | src/rust/catnip/src/protocols/udp/datagram.rs:114-119 | A zero checksum field is accepted with any data of the right length |
| WireSums.SegmentAccepted | src/rust/catnip/src/protocols/tcp/segment.rs:236-398 | A segment is accepted if and only if its data offset lies inside it, both ports are nonzero, its options parse, and pseudo header and segment add up to all ones with a checksum field that is not all ones |
| WireSums.SegmentVerifies | src/rust/catnip/src/protocols/tcp/segment.rs:488-565 | Source and destination address, a zero byte, 6, the length and a serialised segment add up to all ones, section 3.1 of RFC 793 |
| WireSums.PseudoSumIsHeader | src/rust/catnip/src/protocols/tcp/segment.rs:488-507 | What the checksum starts from is the sum of that pseudo header's words |
| WireSums.AddressesCounted | src/rust/catnip/src/protocols/tcp/segment.rs:279-284 | An accepted segment is accepted with other addresses if and only if they add up to the same modulo 0xFFFF |
| WireSums.MisaddressedSegment | src/rust/catnip/src/protocols/tcp/segment.rs:279-284 | A segment is refused once any one word of an address is changed, unless between all zeros and all ones |
| WireSums.LastByteCorruption | src/rust/catnip/src/protocols/tcp/segment.rs:279-284 | A segment of odd length is refused once its last byte is changed |
| WireSums.DatagramAccepted | src/rust/catnip/src/protocols/udp/datagram.rs:96-123 | A datagram is accepted if and only if its destination port is nonzero, its length field is its length, and it has no checksum or adds up to all ones |
| WireSums.DatagramVerifies | src/rust/catnip/src/protocols/udp/datagram.rs:141-191 | The pseudo header with 17 and a serialised datagram add up to all ones, RFC 768 |
| WireSums.DatagramAddressesCounted | src/rust/catnip/src/protocols/udp/datagram.rs:114-119 | A datagram with a checksum is accepted with other addresses if and only if they add up to the same modulo 0xFFFF |
| WireSums.MisaddressedDatagram | src/rust/catnip/src/protocols/udp/datagram.rs:114-119 | Such a datagram is refused once any one word of an address is changed, unless between all zeros and all ones |
| WireSums.DatagramLastByteCorruption | src/rust/catnip/src/protocols/udp/datagram.rs:114-119 | Such a datagram of odd length is refused once its last byte is changed |
| WireSums.HeaderVerifies | src/rust/catnip/src/protocols/ipv4/datagram.rs:74-88 | A serialised IPv4 header adds up to all ones, and every accepted one does |
| WireSums.HeaderCorruptionIsRefused | src/rust/catnip/src/protocols/ipv4/datagram.rs:111-197 | An IPv4 header is refused once any one word is changed, unless between all zeros and all ones |
| WireSums.AllOnes | src/rust/catnip/src/protocols/tcp/segment.rs:540-564 | Bytes add up to all ones if and only if, padded and read as one number in network order, they are a multiple of 0xFFFF |
| WireSums.SumIsNumber | src/rust/catnip/src/protocols/tcp/segment.rs:540-555 | The sum of the words is that number modulo 0xFFFF |
| WireSums.NetworkOrder | src/rust/catnip/src/protocols/tcp/segment.rs:400-462 | Fields are written most significant byte first |
| WireExact.TcpLayout | src/rust/catnip/src/protocols/tcp/segment.rs:236-398 | In whatever parses, every field has its place of section 3.1 of RFC 793 |
| WireExact.FlagLayout | src/rust/catnip/src/protocols/tcp/segment.rs:412-436 | And every flag its bit |
| WireExact.OptionsExact | src/rust/catnip/src/protocols/tcp/segment.rs:291-375 | An option area parses to a list if and only if it is well-formed options followed by the end marker and anything, and the list is these without the no-operations, at most five |
| WireExact.OptionExact | src/rust/catnip/src/protocols/tcp/segment.rs:294-366 | One option is read if and only if its bytes stand there |
| WireExact.UdpLayout | src/rust/catnip/src/protocols/udp/datagram.rs:96-123 | In whatever parses, every field has its place of RFC 768 |
| WireExact.Ipv4Layout | src/rust/catnip/src/protocols/ipv4/datagram.rs:111-197 | In whatever parses, every field has its place of section 3.1 of RFC 791, and the payload is as long as the total length says |
| WireExact.EthernetLayout | src/rust/catnip/src/protocols/ethernet2/frame.rs:54-71 | In whatever parses, destination, source and type are the first fourteen bytes |
| WireExact.FrameLayout | src/rust/catnip/src/protocols/tcp/segment.rs:57-88 | A frame is its headers and payload, padded with zeros to 46 bytes |
| Wire.Ipv4RoundTrip | src/rust/catnip/src/protocols/ipv4/datagram.rs:111-218 | Parsing a serialised header gives back the header and the payload without padding if and only if the fields fit; the check for checksum 0xFFFF never refuses it |
| Wire.Ipv4Reserialises | src/rust/catnip/src/protocols/ipv4/datagram.rs:111-197 | Whatever parses re-serialises to the very bytes it came from, and its fields fit |
| Wire.HeaderReads | src/rust/catnip/src/protocols/ipv4/datagram.rs:199-218 | Every field of a serialised header is where the parser reads it, and its checksum is not 0xFFFF |
| Wire.EthernetExact | src/rust/catnip/src/protocols/ethernet2/frame.rs:54-78 | A frame parses to a header and payload if and only if it is that header's bytes followed by that payload |
| Checksum.SubtractingLoop | src/rust/catnip/src/protocols/ipv4/datagram.rs:85-88 | Subtracting 0xFFFF until at most 0xFFFF is left and complementing yields the complement of the one's complement residue |
| Checksum.SubtractingIsFolding | src/rust/catnip/src/protocols/tcp/segment.rs:561-564 | The subtracting loop agrees with the carry folding of section 4.1 of RFC 1071 if and only if the sum is not zero |
| Checksum.Complement | src/rust/catnip/src/protocols/ipv4/datagram.rs:85-88 | The checksum is never 0xFFFF |
| Checksum.ResidueIsModulo | src/rust/catnip/src/protocols/ipv4/datagram.rs:85-88 | What repeated subtraction leaves is the sum modulo 0xFFFF, with 0xFFFF standing for zero |
| Checksum.ChecksumVerifies | src/rust/catnip/src/protocols/tcp/segment.rs:561-564 | Adding the checksum to the sum it covers gives all ones |
| Checksum.ChecksumDetects | src/rust/catnip/src/protocols/tcp/segment.rs:279-284 | Two sums have the same checksum if and only if they agree modulo 0xFFFF |
| Checksum.AddWords | src/rust/catnip/src/protocols/tcp/segment.rs:540-555 | The chunk loop adds up all 16-bit words, the last one padded; it overflows 32 bits exactly if the sum does |
| Checksum.IpSum | src/c++/libos/lwip/lwip_queue.cc:172-190 | The C++ loop with early folding returns the complement of the folded host-order sum |
| Checksum.FoldEarly | src/c++/libos/lwip/lwip_queue.cc:177-180 | Folding part of a sum early does not change the result |
| Checksum.FoldByteSwapped | src/c++/libos/lwip/lwip_queue.cc:172-190 | Adding byte-swapped words gives the byte-swapped sum, section 2 of RFC 1071 |
| Checksum.IpSumIsByteSwapped | src/c++/libos/lwip/lwip_queue.cc:172-190 | On every nonzero input of even length the C++ routine returns the byte-swapped Rust checksum |
| WireBuffers.SerializeTcp | src/rust/catnip/src/protocols/tcp/segment.rs:57-88 | Writing in place: every byte of the buffer becomes the frame's, whatever it held before |
| WireBuffers.SerializeUdp | src/rust/catnip/src/protocols/udp/datagram.rs:57-88 | Writing in place: every byte of the buffer becomes the frame's |
| WireBuffers.WriteTcp | src/rust/catnip/src/protocols/tcp/segment.rs:400-462 | Writes exactly the header's bytes at its place, checksum last |
| WireBuffers.WriteOptions | src/rust/catnip/src/protocols/tcp/segment.rs:444-457 | The option loop, the end marker and the zero loop write exactly the option area |
| WireBuffers.WriteUdp | src/rust/catnip/src/protocols/udp/datagram.rs:125-138 | Writes exactly the header's bytes at its place |
| WireBuffers.WriteIpv4 | src/rust/catnip/src/protocols/ipv4/datagram.rs:199-218 | Writes exactly the header's bytes at its place, checksum last |
| WireBuffers.AddHeaderWords | src/rust/catnip/src/protocols/ipv4/datagram.rs:74-89 | The two loops add every word of the header but the checksum |
| WireBuffers.AddSegmentWords | src/rust/catnip/src/protocols/tcp/segment.rs:488-565 | Computes the TCP checksum, and overflows exactly if the sum does |
| WireBuffers.AddDatagramWords | src/rust/catnip/src/protocols/udp/datagram.rs:141-191 | Computes the UDP checksum, and overflows exactly if the sum does |
| ByteViews.SplitExact | src/rust/catnip/src/sync/threadunsafe.rs:134-151 | Splitting a view aborts exactly beyond its end, and otherwise the halves show the bytes before and after the cut |
| TtlCache.LookupsAreExact | src/rust/catnip/src/collections/hashttlcache/mod.rs:179-206 | After every run of insertions, removals, clock advances, evictions and clears, each lookup is that of a plain expiring map, and a removal returns that value unless the record has no expiry; every record with an expiry has its tombstone |
| TtlCache.EvictionIsInvisible | src/rust/catnip/src/collections/hashttlcache/mod.rs:213-271 | Eviction changes no lookup, now or after any later clock advance |
| TtlCache.InsertReturnsLookup | src/rust/catnip/src/collections/hashttlcache/mod.rs:119-161 | An insertion returns what a lookup would have, and is looked up after |
| TtlCache.RecordLives | src/rust/catnip/src/collections/hashttlcache/mod.rs:119-206 | A record is found at exactly the times before its time to live is over, and other keys as without it |
| TtlCache.StepRepresents | src/rust/catnip/src/collections/hashttlcache/mod.rs:119-211 | Every operation acts on the plain expiring map as it does on the cache |
| TtlCache.ReinsertionDooms | src/rust/catnip/src/collections/hashttlcache/mod.rs:251-266 | A key inserted twice, the second time with a longer or no expiry, and the clock past both, meet the condition under which an eviction of any count must abort |
| TtlCache.ReinsertionAborts | src/rust/catnip/src/collections/hashttlcache/mod.rs:251-266 | And there the eviction does abort, whatever its count |
| TtlCache.AbortConditionsAgree | src/rust/catnip/src/collections/hashttlcache/mod.rs:213-271 | The conditions under which an eviction may and must abort are one, unless a record is due at the very time of a tombstone that trips; without a count they say that some tombstone trips |
| TtlCache.TripsOver | src/rust/catnip/src/collections/hashttlcache/mod.rs:251-266 | The unwrap or the assertion aborts only over an older tombstone of a replaced record, with no expired record due before it |
| TtlCache.NothingDue | src/rust/catnip/src/collections/hashttlcache/mod.rs:233-246 | If no tombstone is due then no record has expired |
| TtlCache.EvictOne | src/rust/catnip/src/collections/hashttlcache/mod.rs:257-261 | Evicting the record of the first tombstone due keeps every other record's tombstone |
| TtlCache.HashTtlCache.constructor | src/rust/catnip/src/collections/hashttlcache/mod.rs:106-117 | Starts empty |
| TtlCache.HashTtlCache.Insert | src/rust/catnip/src/collections/hashttlcache/mod.rs:119-161 | As specified, or aborts exactly on a zero time to live |
| TtlCache.HashTtlCache.Lookup | src/rust/catnip/src/collections/hashttlcache/mod.rs:179-206 | As specified |
| TtlCache.HashTtlCache.Delete | src/rust/catnip/src/collections/hashttlcache/mod.rs:167-177 | As specified |
| TtlCache.HashTtlCache.Advance | src/rust/catnip/src/collections/hashttlcache/mod.rs:208-211 | Moves the clock, or aborts exactly if it would run backwards |
| TtlCache.HashTtlCache.TryEvictOnce | src/rust/catnip/src/collections/hashttlcache/mod.rs:232-271 | Evicts a record that expired first, or finds that none is left; aborts if a tombstone that trips is due before every expired record, and only if none is due before it |
| TtlCache.HashTtlCache.TryEvict | src/rust/catnip/src/collections/hashttlcache/mod.rs:213-230 | Evicts at most count records, those that expired first; aborts if fewer than count records are due by the time of a tombstone that trips, and only if fewer than count are due before it; if it stops short of its count no expired record remains; reports exactly what it evicted, each once |
| Timer.PollIsExact | src/rust/catnip/src/timer.rs:154-198 | After every run, polling an unfinished wait future answers ready if and only if the clock has reached its expiry, and aborts exactly if it is finished |
| Timer.WaitEndsOnTime | src/rust/catnip/src/timer.rs:127-198 | In every run, a poll of a wait future aborts if and only if it has answered ready before, and otherwise answers ready if and only if the clock has reached the expiry asked for |
| Timer.StepAborts | src/rust/catnip/src/timer.rs:102-121 | Only moving the clock back and polling a finished future abort |
| Timer.LatestWakerIsWoken | src/rust/catnip/src/timer.rs:102-121 | A future polled early is in the heap, and the first advance that reaches its expiry fires it with the waker of its latest poll |
| Timer.StepKeepsInv | src/rust/catnip/src/timer.rs:102-225 | Registered holds exactly for entries in the heap, those expire after now, and what fired had expired; kept by every wait, poll, drop and advance |
| Timer.RunInv | src/rust/catnip/src/timer.rs:102-225 | That invariant holds in every state of every run |
| Timer.TimerQueue.constructor | src/rust/catnip/src/timer.rs:91-100 | Starts with an empty heap |
| Timer.TimerQueue.AdvanceClock | src/rust/catnip/src/timer.rs:102-121 | The drain loop fires exactly the entries due, each once, in order of expiry and with its stored waker |
| Timer.TimerQueue.PeekMin | src/rust/catnip/src/timer.rs:106-111 | An entry that expires first |
| Timer.TimerQueue.PollFuture | src/rust/catnip/src/timer.rs:154-198 | As specified |
| Timer.TimerQueue.DropFuture | src/rust/catnip/src/timer.rs:208-225 | As specified |
| MemoryQueue.FirstInFirstOut | src/c++/libos/common/memory_queue.cc:25-122 | After every run in which tokens are dropped only once completed, polling the k-th pop answers the k-th array pushed if that has been moved to the ready queue and asks to try again otherwise; polling a push answers its own array; no poll fails |
| MemoryQueue.PopsCompleteInOrder | src/c++/libos/common/memory_queue.cc:68-89 | After every run, a pop that has completed has all earlier pops completed |
| MemoryQueue.CallsAreGranted | src/c++/libos/common/memory_queue.cc:25-66 | After every run, with fewer than 1024 live tokens, a push of a nonempty array and a pop get a token larger than all before, with its task pending and queued; a push of an empty array is refused and queues nothing |
| MemoryQueue.DroppedTokens | src/c++/libos/common/io_queue.cc:213-247 | After every run, a dropped token is unknown until its slot is given to another, and from then on stands for that one |
| MemoryQueue.DistinctSlots | src/c++/libos/common/io_queue.cc:213-242 | After every run, live tokens occupy distinct slots |
| MemoryQueue.TokenSearchEnds | src/c++/libos/common/io_queue.cc:165-184 | With fewer than 1024 live tokens the search for a token ends within 1024 steps |
| MemoryQueue.NextFreeExact | src/c++/libos/common/io_queue.cc:165-184 | The search aborts if and only if no counter that is left has a free slot |
| MemoryQueue.FreeSlot | src/c++/libos/common/io_queue.cc:213-242 | Fewer than 1024 live tokens leave a slot free |
| MemoryQueue.StepKeepsInv | src/c++/libos/common/memory_queue.cc:25-129 | Every push, pop, poll and drop keeps the slot array a map from live tokens to tasks and the three queues in step with the history |
| MemoryQueue.RunPushKeeps | src/c++/libos/common/memory_queue.cc:37-56 | Serving the push coroutine never fails and moves every push to the ready queue |
| MemoryQueue.RunPopKeeps | src/c++/libos/common/memory_queue.cc:68-89 | Serving the pop coroutine never fails and completes pops until pops or arrays run out |
| MemoryQueue.EarlyDropFails | src/c++/libos/common/io_queue.cc:243-247 | After every run, dropping a push that has not completed makes the push coroutine fail, and dropping a queued pop makes the pop coroutine fail once there are arrays for the pops before it |
| MemoryQueue.MemoryQueue.constructor | src/c++/libos/common/memory_queue.cc:12-23 | Starts with all slots free |
| MemoryQueue.MemoryQueue.NewQToken | src/c++/libos/common/io_queue.cc:165-184 | The search loop stops at the next counter with a free slot, or aborts at the last counter |
| MemoryQueue.MemoryQueue.PushArray | src/c++/libos/common/memory_queue.cc:25-35 | As specified; an array without segments is refused |
| MemoryQueue.MemoryQueue.PopArray | src/c++/libos/common/memory_queue.cc:58-66 | As specified |
| MemoryQueue.MemoryQueue.ServePush | src/c++/libos/common/memory_queue.cc:37-56 | The push coroutine from one yield to the next |
| MemoryQueue.MemoryQueue.ServePop | src/c++/libos/common/memory_queue.cc:68-89 | The pop coroutine from one yield to the next, also when it yields holding a task |
| MemoryQueue.MemoryQueue.PollToken | src/c++/libos/common/memory_queue.cc:91-122 | Serves the coroutine of the token's task and answers as specified |
| MemoryQueue.MemoryQueue.DropToken | src/c++/libos/common/io_queue.cc:243-247 | Frees the slot and nothing else |
| Framing.DecodeEncode | src/c++/libos/posix/posix_queue.cc:356-428 | Decoding undoes encoding and stops at the end of the message if and only if the message has a segment and its size fits 32 bits |
| Framing.DecodeExact | src/c++/libos/posix/posix_queue.cc:519-638 | On every input: a pop returns a message if and only if magic number, size and count are right and the message's segments stand within the size; it leaves what is behind the size |
| Framing.SegmentsAt | src/c++/libos/posix/posix_queue.cc:624-634 | Walking a body, with anything behind it, gives back its segments |
| Framing.SegmentsParsed | src/c++/libos/posix/posix_queue.cc:624-634 | Whatever the walk returns stands in the buffer |
| Framing.Socket.ReadExactly | src/c++/libos/posix/posix_queue.cc:530-559 | The read loop returns exactly the next n bytes however reads split them or would block, or the end of the stream |
| Framing.Socket.NetPop | src/c++/libos/posix/posix_queue.cc:519-638 | However reads split the stream, a pop that ends has decoded the bytes at the front of the stream and left the rest |
| Framing.Socket.PopAll | src/c++/libos/posix/posix_queue.cc:519-638 | Successive pops return the messages pushed, in order |
| Framing.WalkSegments | src/c++/libos/posix/posix_queue.cc:624-634 | The segment loop gives the segments of a body, or finds a length that leads out of it |
| Framing.NetPush | src/c++/libos/posix/posix_queue.cc:356-428 | The vector it fills, written whole, is the encoded message |

## Left out

- Closing a connection: FIN, the closer, and RST on an established connection; the closer acknowledges one past what was received, which the receiver's assertion on acknowledgements refuses, so there is no invariant to prove as written.
- Liveness of delivery: a duplicate segment is ignored without another acknowledgement, so only safety is claimed.
- ARP queries that have to wait: an `await` in the middle of a send would let the window and the sent number it has read go stale.
- `WatchedValue`: a plain field; who is woken by a change is the sender loop's turn, which may happen at any time.
- Agreement of the sender's window with the peer's real window: both opens default the window scale to 1 while the advertised window is unscaled; window bounds are against the local field.
- TcpAborts.NewSendWithinWindow: speaks of the local window field only, for the reason above.
- Rto.TimeoutAfterSample: states the code's timeout and not that of RFC 6298, because the code adds the variation once and not four times.
- TcpTheorems.DeliveryIsPrefix: packets that are a full 2^32 bytes stale are not delivered in a run; the 32-bit numbers cannot tell them from fresh ones.
- The data path of an established connection inside `TcpPeer`: a host's tables hold what a control block starts from, and what it sends later is any segment without SYN.
- The retry loops of both opens as objects: `TcpPeer.ConnectTimer` and `TcpPeer.AcceptTimer` are the steps of the background futures, which may come at any time.
- `TcpOpen` keeps of a header only what opening reads, and of its options only window scale and segment size; `TcpState` keeps numbers, ACK flag and window; `TcpWire` has all fields.
- SchedulerLoop.Scheduler.Poll: a pass during which no future acts on the scheduler; passes with interleaved actions are the state machine of `Scheduler`, which does the same page by page when nothing interleaves (`SchedulerRefines`).
- Pinning, reference counts, the raw waker table and the pages' memory: futures and pages are values; the address arithmetic of wakers is `WakerPages.WakerPtrDecodes`.
- Slab, hash map, binary heap and pairing heap: by their specification; a heap yields any entry that comes first.
- Framing: the sender's partial writes, which the source refuses; and the array of segments in `dmtr_sgarray_t`, which has room for one segment while the format and the theorems allow any number.
- Framing.Socket.NetPop: a segment length that leads out of the buffer is the answer `Overrun`; the source has no such check.
- Which error a malformed header, segment or option is refused with: the parsers' theorems say what is accepted, and everything else is an error.
- Framing.WalkSegments: answers `Overrun` there too; what the source reads beyond its buffer is not modelled.
- TtlCache.HashTtlCache.TryEvict: between its two conditions, for a record due at the very time of a tombstone that trips, the heap decides.
- Closing a memory queue, and the other queue kinds that share the task slots.
- RDMA, SPDK, ICMP, the ARP peer, DPDK, library wrappers, applications, configuration, logging and latency recording: foreign calls or plumbing without an invariant of this kind.
