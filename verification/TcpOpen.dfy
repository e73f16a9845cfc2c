/** Opening a connection: the active side, and the passive side with its backlog. */
module TcpOpen {
  import opened Base
  import opened SeqNumbers

  datatype Endpoint = Endpoint(addr: U32, port: Port)

  datatype TcpOption = WindowScale(shift: nat) | MaximumSegmentSize(size: nat) | OtherOption

  datatype Header = Header(syn: bool, ack: bool, rst: bool, seqNum: U32, ackNum: U32, windowSize: nat, options: seq<TcpOption>)

  /** What a new control block starts from. */
  datatype Block = Block(
    local: Endpoint, remote: Endpoint, sndBase: U32, rcvBase: U32,
    windowSize: nat, windowScale: nat, mss: nat)

  const FALLBACK_MSS: nat := 536
  const HANDSHAKE_RETRIES: nat := 3
  const HANDSHAKE_WINDOW: nat := 1024

  /** Window scale and segment size chosen from a header's options; the last of each wins. */
  function Negotiated(options: seq<TcpOption>): (nat, nat) {
    if options == [] then (1, FALLBACK_MSS)
    else
      var (scale, mss) := Negotiated(options[..|options| - 1]);
      match options[|options| - 1]
      case WindowScale(w) => (w, mss)
      case MaximumSegmentSize(m) => (scale, m)
      case OtherOption => (scale, mss)
  }

  /** A checked left shift of a 16-bit window: shifts of 16 or more abort, bits shifted out are lost. */
  function ScaledWindow(window: nat, scale: nat): Outcome<nat> {
    if scale >= 16 then Panic else Done(window * Power2(scale) % 0x1_0000)
  }

  // ----- Active side -----

  datatype ConnectResult = Connected(block: Block) | Refused | TimedOut

  /** `left` counts the SYNs still to send; it is gone once the attempt has timed out. */
  datatype Active = Active(local: Endpoint, remote: Endpoint, isn: U32, left: Option<nat>, result: Option<ConnectResult>)

  function NewActive(local: Endpoint, remote: Endpoint, isn: U32): Active {
    Active(local, remote, isn, Some(HANDSHAKE_RETRIES), None)
  }

  function Syn(isn: U32, mss: nat): Header {
    Header(true, false, false, isn, 0, HANDSHAKE_WINDOW, [MaximumSegmentSize(mss)])
  }

  function Acknowledgement(ackNum: U32): Header { Header(false, true, false, 0, ackNum, 0, []) }

  /** A segment arrives while connecting; the link address must be cached when it completes. */
  function ActiveReceive(a: Active, h: Header, arpHit: bool): Outcome<(Active, Option<Header>)> {
    if h.rst then Done((a.(result := Some(Refused)), None))
    else if !(h.ack && h.syn && h.ackNum == WrappingAdd(a.isn, 1)) then Done((a, None))
    else if !arpHit then Panic
    else
      var (scale, mss) := Negotiated(h.options);
      var window :- ScaledWindow(h.windowSize, scale);
      var rcvBase := WrappingAdd(h.seqNum, 1);
      Done((a.(result := Some(Connected(Block(a.local, a.remote, WrappingAdd(a.isn, 1), rcvBase, window, scale, mss)))),
            Some(Acknowledgement(rcvBase))))
  }

  /** The retry loop wakes: send a SYN, or give up once none is left. */
  function ActiveTimer(a: Active, arpHit: bool, mss: nat): (Active, Option<Header>) {
    match a.left
    case None => (a, None)
    case Some(n) =>
      if n == 0 then (a.(left := None, result := Some(TimedOut)), None)
      else (a.(left := Some(n - 1)), if arpHit then Some(Syn(a.isn, mss)) else None)
  }

  // ----- Passive side -----

  datatype Inflight = Inflight(
    localIsn: U32, remoteIsn: U32, windowSize: nat, windowScale: nat, mss: nat, left: Option<nat>)

  datatype Ready = Accepted(block: Block) | HandshakeTimeout

  datatype Passive = Passive(
    local: Endpoint, inflight: map<Endpoint, Inflight>, ready: seq<Ready>, endpoints: set<Endpoint>, maxBacklog: nat)

  function NewPassive(local: Endpoint, maxBacklog: nat): Passive {
    Passive(local, map[], [], {}, maxBacklog)
  }

  function SynAck(f: Inflight): Header {
    Header(true, true, false, f.localIsn, WrappingAdd(f.remoteIsn, 1), HANDSHAKE_WINDOW, [])
  }

  function InflightBlock(local: Endpoint, remote: Endpoint, f: Inflight): Block {
    Block(local, remote, WrappingAdd(f.localIsn, 1), WrappingAdd(f.remoteIsn, 1), f.windowSize, f.windowScale, f.mss)
  }

  /** `ReadySockets::push_ok`, which asserts that the endpoint is new. */
  function PushOk(p: Passive, b: Block): Outcome<Passive> {
    if b.remote in p.endpoints then Panic
    else Done(p.(endpoints := p.endpoints + {b.remote}, ready := p.ready + [Accepted(b)]))
  }

  /** A segment arrives at a listening socket; `isn` is what the generator would return. */
  function PassiveReceive(p: Passive, remote: Endpoint, h: Header, isn: U32): Outcome<Passive> {
    if remote in p.endpoints then Done(p)
    else if remote in p.inflight then
      var f := p.inflight[remote];
      if !h.ack || h.ackNum != WrappingAdd(f.localIsn, 1) then Done(p)
      else PushOk(p.(inflight := p.inflight - {remote}), InflightBlock(p.local, remote, f))
    else if !h.syn || h.ack || h.rst then Done(p)
    else if |p.inflight| + |p.ready| >= p.maxBacklog then Done(p)
    else
      var (scale, mss) := Negotiated(h.options);
      var window :- ScaledWindow(h.windowSize, scale);
      Done(p.(inflight := p.inflight[remote := Inflight(isn, h.seqNum, window, scale, mss, Some(HANDSHAKE_RETRIES))]))
  }

  /** The retry loop of one handshake wakes: send a SYN+ACK, or report a timeout. */
  function PassiveTimer(p: Passive, remote: Endpoint, arpHit: bool): (Passive, Option<Header>) {
    if remote !in p.inflight || p.inflight[remote].left.None? then (p, None)
    else
      var f := p.inflight[remote];
      if f.left.value == 0 then
        (p.(inflight := p.inflight[remote := f.(left := None)], ready := p.ready + [HandshakeTimeout]), None)
      else
        (p.(inflight := p.inflight[remote := f.(left := Some(f.left.value - 1))]),
         if arpHit then Some(SynAck(f)) else None)
  }

  /** `ReadySockets::poll`, which asserts that an accepted endpoint was recorded. */
  function PollAccept(p: Passive): Outcome<(Passive, Option<Ready>)> {
    if p.ready == [] then Done((p, None))
    else
      var r := p.ready[0];
      var q := p.(ready := p.ready[1..]);
      if r.HandshakeTimeout? then Done((q, Some(r)))
      else if r.block.remote !in p.endpoints then Panic
      else Done((q.(endpoints := p.endpoints - {r.block.remote}), Some(r)))
  }

  // ----- Backlog -----

  function OkCount(ready: seq<Ready>): nat {
    if ready == [] then 0 else (if ready[0].Accepted? then 1 else 0) + OkCount(ready[1..])
  }

  function RemoteOf(r: Ready): set<Endpoint> { if r.Accepted? then {r.block.remote} else {} }

  /** The remotes of the accepted entries. */
  function Remotes(ready: seq<Ready>): set<Endpoint> {
    if ready == [] then {} else RemoteOf(ready[0]) + Remotes(ready[1..])
  }

  predicate NoRepeats(ready: seq<Ready>) {
    ready != [] ==> RemoteOf(ready[0]) !! Remotes(ready[1..]) && NoRepeats(ready[1..])
  }

  /** `endpoints` is exactly the remotes of accepted entries, without repeats and apart from
      the handshakes in flight, and both together respect the backlog. */
  predicate BacklogOk(p: Passive) {
    && p.endpoints == Remotes(p.ready)
    && NoRepeats(p.ready)
    && p.endpoints !! p.inflight.Keys
    && |p.inflight| + OkCount(p.ready) <= p.maxBacklog
  }

  lemma {:induction false} ReadySnoc(ready: seq<Ready>, r: Ready)
    ensures OkCount(ready + [r]) == OkCount(ready) + if r.Accepted? then 1 else 0
    ensures Remotes(ready + [r]) == Remotes(ready) + RemoteOf(r)
    ensures NoRepeats(ready) && RemoteOf(r) !! Remotes(ready) ==> NoRepeats(ready + [r])
  {
    if ready == [] {
      assert ready + [r] == [r];
    } else {
      assert (ready + [r])[1..] == ready[1..] + [r];
      ReadySnoc(ready[1..], r);
    }
  }

  lemma {:induction false} OkCountBound(ready: seq<Ready>)
    ensures OkCount(ready) <= |ready|
  {
    if ready != [] {
      OkCountBound(ready[1..]);
    }
  }

  /** Completing a handshake moves one endpoint from the handshakes to the accepted ones. */
  lemma CompleteKeepsBacklog(p: Passive, remote: Endpoint, b: Block)
    requires BacklogOk(p) && remote in p.inflight && b.remote == remote
    ensures PushOk(p.(inflight := p.inflight - {remote}), b).Done?
    ensures BacklogOk(PushOk(p.(inflight := p.inflight - {remote}), b).value)
  {
    ReadySnoc(p.ready, Accepted(b));
    assert (p.inflight - {remote}).Keys == p.inflight.Keys - {remote};
  }

  lemma StartKeepsBacklog(p: Passive, remote: Endpoint, f: Inflight)
    requires BacklogOk(p) && remote !in p.inflight && remote !in p.endpoints
    requires |p.inflight| + |p.ready| < p.maxBacklog
    ensures BacklogOk(p.(inflight := p.inflight[remote := f]))
  {
    OkCountBound(p.ready);
    assert p.inflight[remote := f].Keys == p.inflight.Keys + {remote};
  }

  /** A listening socket never trips the assertion on new endpoints, and its only abort is a
      first SYN whose window scale is 16 or more. */
  lemma ReceiveKeepsBacklog(p: Passive, remote: Endpoint, h: Header, isn: U32)
    requires BacklogOk(p)
    ensures PassiveReceive(p, remote, h, isn).Panic? <==>
              && remote !in p.endpoints && remote !in p.inflight && h.syn && !h.ack && !h.rst
              && |p.inflight| + |p.ready| < p.maxBacklog && Negotiated(h.options).0 >= 16
    ensures PassiveReceive(p, remote, h, isn).Done? ==> BacklogOk(PassiveReceive(p, remote, h, isn).value)
  {
    hide Negotiated, Power2, BacklogOk, PushOk;
    if remote in p.endpoints {
    } else if remote in p.inflight {
      CompleteKeepsBacklog(p, remote, InflightBlock(p.local, remote, p.inflight[remote]));
    } else if |p.inflight| + |p.ready| < p.maxBacklog {
      var r := PassiveReceive(p, remote, h, isn);
      if r.Done? && r.value != p {
        StartKeepsBacklog(p, remote, r.value.inflight[remote]);
      }
    }
  }

  lemma TimerKeepsBacklog(p: Passive, remote: Endpoint, arpHit: bool)
    requires BacklogOk(p)
    ensures BacklogOk(PassiveTimer(p, remote, arpHit).0)
  {
    ReadySnoc(p.ready, HandshakeTimeout);
    assert PassiveTimer(p, remote, arpHit).0.inflight.Keys == p.inflight.Keys;
  }

  /** Accepting never trips the assertion that the endpoint was recorded. */
  lemma PollKeepsBacklog(p: Passive)
    requires BacklogOk(p)
    ensures PollAccept(p).Done? && BacklogOk(PollAccept(p).value.0)
  {}

  datatype PassiveEvent =
    | Arrives(remote: Endpoint, header: Header, isn: U32)
    | Timer(of: Endpoint, arpHit: bool)
    | AcceptOne

  function PassiveStep(p: Passive, e: PassiveEvent): Outcome<Passive> {
    match e
    case Arrives(remote, header, isn) => PassiveReceive(p, remote, header, isn)
    case Timer(of, arpHit) => Done(PassiveTimer(p, of, arpHit).0)
    case AcceptOne =>
      var r :- PollAccept(p);
      Done(r.0)
  }

  function PassiveRun(p: Passive, events: seq<PassiveEvent>): Outcome<Passive>
    decreases |events|
  {
    if events == [] then Done(p)
    else
      var q :- PassiveRun(p, events[..|events| - 1]);
      PassiveStep(q, events[|events| - 1])
  }

  /** The backlog invariant holds after every history of segments, timeouts and accepts. */
  lemma {:induction false} BacklogHolds(local: Endpoint, maxBacklog: nat, events: seq<PassiveEvent>)
    requires PassiveRun(NewPassive(local, maxBacklog), events).Done?
    ensures BacklogOk(PassiveRun(NewPassive(local, maxBacklog), events).value)
    decreases |events|
  {
    if events != [] {
      var before := events[..|events| - 1];
      BacklogHolds(local, maxBacklog, before);
      hide BacklogOk, PassiveReceive, PassiveTimer, PollAccept;
      var q := PassiveRun(NewPassive(local, maxBacklog), before).value;
      match events[|events| - 1] {
        case Arrives(remote, header, isn) => ReceiveKeepsBacklog(q, remote, header, isn);
        case Timer(of, arpHit) => TimerKeepsBacklog(q, of, arpHit);
        case AcceptOne => PollKeepsBacklog(q);
      }
    }
  }
}
