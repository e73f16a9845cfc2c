/** Where the window, window scale and segment size of a control block come from: the header
    that the handshake negotiated them with. */
module TcpTerms {
  import opened Base
  import opened SeqNumbers
  import opened TcpOpen
  import opened TcpPeer
  import opened TcpTables
  import opened TcpCalls

  // ----- What a host holds -----

  /** The numbers and terms that handshake `f` has recorded are those of block `b`. */
  predicate Records(f: Inflight, b: Block) {
    && b.sndBase == WrappingAdd(f.localIsn, 1) && b.rcvBase == WrappingAdd(f.remoteIsn, 1)
    && b.windowSize == f.windowSize && b.windowScale == f.windowScale && b.mss == f.mss
  }

  /** A listener's block for pair `k`: of a handshake in flight, waiting to be accepted, or accepted. */
  ghost predicate ListenerHolds(p: Peer, k: Key, b: Block) {
    || (k.local in p.passive && k.remote in p.passive[k.local].inflight &&
        Records(p.passive[k.local].inflight[k.remote], b))
    || (k.local in p.passive && b.remote == k.remote && Accepted(b) in p.passive[k.local].ready)
    || (k.local.port < FIRST_PRIVATE_PORT && k in p.established && p.established[k] == b)
  }

  /** A client's block for pair `k`: offered to the application, or taken by it. */
  ghost predicate ClientHolds(p: Peer, k: Key, b: Block) {
    || (k in p.connecting && p.connecting[k].result == Some(Connected(b)))
    || (FIRST_PRIVATE_PORT <= k.local.port && k in p.established && p.established[k] == b)
  }

  /** Event `e` is the SYN that starts the handshake for `k` at a listener of `p`, and `b` has
      the numbers and terms that this SYN and the generator give. */
  ghost predicate StartedBy(p: Peer, e: Event, k: Key, b: Block) {
    && e.DoReceive? && e.packet.to == k.local && e.packet.from == k.remote
    && k.local in p.passive && Starts(p.passive[k.local], k.remote, e.packet.header)
    && b.sndBase == WrappingAdd(e.isn, 1) && b.rcvBase == WrappingAdd(e.packet.header.seqNum, 1)
    && Terms(e.packet.header, b.windowSize, b.windowScale, b.mss)
  }

  /** Event `e` is the SYN+ACK that completes the attempt for `k`, and `b` has its numbers and terms. */
  ghost predicate CompletedBy(p: Peer, e: Event, k: Key, b: Block) {
    && e.DoReceive? && e.packet.to == k.local && e.packet.from == k.remote
    && k in p.connecting && Completes(p.connecting[k], e.packet.header)
    && b.sndBase == WrappingAdd(p.connecting[k].isn, 1) && b.rcvBase == WrappingAdd(e.packet.header.seqNum, 1)
    && Terms(e.packet.header, b.windowSize, b.windowScale, b.mss)
  }

  // ----- One event -----

  lemma ListenerReceives(p: Peer, e: Event, k: Key, b: Block, p': Peer, out: Option<Packet>)
    requires PeerOk(p) && e.DoReceive? && Receive(p, e.packet, e.isn, e.arpHit) == Done((p', out))
    requires ListenerHolds(p', k, b)
    ensures ListenerHolds(p, k, b) || StartedBy(p, e, k, b)
  {
    hide PeerOk, PassiveReceive, ActiveReceive, Terms, Starts, BacklogOk, WrappingAdd;
    var x := e.packet;
    DispatchExact(p, x, e.isn, e.arpHit, p', out);
    hide Receive;
    if p'.passive != p.passive && k.local == x.to {
      PeerListener(p, x.to);
      PassiveReceiveExact(p.passive[x.to], x.from, x.header, e.isn, p'.passive[x.to]);
    }
  }

  lemma ListenerAccepts(p: Peer, e: Event, k: Key, b: Block, p': Peer)
    requires PeerOk(p) && e.DoAccept? && Accept(p, e.fd, e.newFd) == Done(p')
    requires ListenerHolds(p', k, b)
    ensures ListenerHolds(p, k, b)
  {
    hide PeerOk, Records;
    AcceptExact(p, e.fd, e.newFd, p');
    if e.fd in p.sockets && p.sockets[e.fd].Listening? {
      AcceptKeepsHandshakes(p, e.fd, e.newFd, p');
      hide Accept;
    }
  }

  lemma AcceptKeepsHandshakes(p: Peer, fd: nat, newFd: nat, p': Peer)
    requires PeerOk(p) && Accept(p, fd, newFd) == Done(p') && fd in p.sockets && p.sockets[fd].Listening?
    requires p.sockets[fd].local in p.passive && p.sockets[fd].local in p'.passive
    ensures p'.passive[p.sockets[fd].local].inflight == p.passive[p.sockets[fd].local].inflight
  {
    hide PeerOk;
  }

  lemma ListenerOther(p: Peer, e: Event, k: Key, b: Block, p': Peer, out: Option<Packet>)
    requires PeerOk(p) && Step(p, e) == Done((p', out)) && !e.DoReceive? && !e.DoAccept?
    requires ListenerHolds(p', k, b)
    ensures ListenerHolds(p, k, b)
  {
    hide PeerOk, Receive, Accept, WrappingAdd, FirstFree;
    if e.DoFinish? && p' != p { PeerAttempt(p, p.sockets[e.fd].key); }
  }

  /** A listener's block was held before, or this is the SYN that started its handshake. */
  lemma ListenerStep(p: Peer, e: Event, k: Key, b: Block, p': Peer, out: Option<Packet>)
    requires PeerOk(p) && Step(p, e) == Done((p', out)) && ListenerHolds(p', k, b)
    ensures ListenerHolds(p, k, b) || StartedBy(p, e, k, b)
  {
    hide PeerOk, ListenerHolds, StartedBy, Accept, Receive;
    if e.DoReceive? {
      ListenerReceives(p, e, k, b, p', out);
    } else if e.DoAccept? {
      ListenerAccepts(p, e, k, b, p');
    } else {
      hide Step;
      ListenerOther(p, e, k, b, p', out);
    }
  }

  lemma ClientReceives(p: Peer, e: Event, k: Key, b: Block, p': Peer, out: Option<Packet>)
    requires PeerOk(p) && e.DoReceive? && Receive(p, e.packet, e.isn, e.arpHit) == Done((p', out))
    requires ClientHolds(p', k, b)
    ensures ClientHolds(p, k, b) || CompletedBy(p, e, k, b)
  {
    hide PeerOk, PassiveReceive, ActiveReceive, Terms, Completes, WrappingAdd;
    var x := e.packet;
    DispatchExact(p, x, e.isn, e.arpHit, p', out);
    hide Receive;
    if p'.connecting != p.connecting && k == Key(x.to, x.from) {
      var (a, reply) := ActiveReceive(p.connecting[k], x.header, e.arpHit).value;
      ActiveReceiveExact(p.connecting[k], x.header, e.arpHit, a, reply);
    }
  }

  lemma ClientOther(p: Peer, e: Event, k: Key, b: Block, p': Peer, out: Option<Packet>)
    requires PeerOk(p) && Step(p, e) == Done((p', out)) && !e.DoReceive? && !e.DoAccept?
    requires ClientHolds(p', k, b)
    ensures ClientHolds(p, k, b)
  {
    hide PeerOk, Receive, Accept, WrappingAdd, FirstFree;
    if e.DoFinish? && p' != p { PeerAttempt(p, p.sockets[e.fd].key); }
  }

  lemma ClientAccepts(p: Peer, e: Event, k: Key, b: Block, p': Peer)
    requires PeerOk(p) && e.DoAccept? && Accept(p, e.fd, e.newFd) == Done(p')
    requires ClientHolds(p', k, b)
    ensures ClientHolds(p, k, b)
  {
    hide PeerOk;
    AcceptExact(p, e.fd, e.newFd, p');
    hide Accept;
    if e.fd in p.sockets && p.sockets[e.fd].Listening? { PeerListener(p, p.sockets[e.fd].local); }
  }

  /** A client's block was held before, or this is the SYN+ACK that its attempt accepted. */
  lemma ClientStep(p: Peer, e: Event, k: Key, b: Block, p': Peer, out: Option<Packet>)
    requires PeerOk(p) && Step(p, e) == Done((p', out)) && ClientHolds(p', k, b)
    ensures ClientHolds(p, k, b) || CompletedBy(p, e, k, b)
  {
    hide PeerOk, ClientHolds, CompletedBy, Accept, Receive;
    if e.DoReceive? {
      ClientReceives(p, e, k, b, p', out);
    } else if e.DoAccept? {
      ClientAccepts(p, e, k, b, p');
    } else {
      hide Step;
      ClientOther(p, e, k, b, p', out);
    }
  }

  // ----- Every run -----

  lemma RunOk(states: seq<Peer>, events: seq<Event>, i: nat)
    requires PeerRun(states, events) && i <= |events|
    ensures PeerOk(states[i])
  {
    hide PeerRun, PeerOk, Step, AbortsPeer;
    var e := DoBind(0, Endpoint(0, 1));
    PeerRunStep(states, events, i);
    assert Possible(states[i], e);
    RunStaysConsistent(states, events, i, e);
  }

  lemma NewHoldsNothing(addr: U32, k: Key, b: Block)
    ensures !ListenerHolds(NewPeer(addr), k, b) && !ClientHolds(NewPeer(addr), k, b)
  {
  }

  /** A listener's terms. On any calls and any segments whatsoever: the numbers, window, window
      scale and segment size of a block that a listener holds, from the handshake on, are those
      of the SYN that started the handshake. */
  lemma {:induction false} ListenerTerms(states: seq<Peer>, events: seq<Event>, i: nat, k: Key, b: Block)
    requires PeerRun(states, events) && i <= |events| && ListenerHolds(states[i], k, b)
    ensures exists j | 0 <= j < i :: StartedBy(states[j], events[j], k, b)
  {
    hide PeerRun, PeerOk, Step, Possible, NewPeer, ListenerHolds, StartedBy;
    PeerRunStep(states, events, if i == 0 then 0 else i - 1);
    NewHoldsNothing(states[0].addr, k, b);
    if i > 0 {
      RunOk(states, events, i - 1);
      ListenerStep(states[i - 1], events[i - 1], k, b, states[i], Step(states[i - 1], events[i - 1]).value.1);
      if ListenerHolds(states[i - 1], k, b) { ListenerTerms(states, events, i - 1, k, b); }
    }
  }

  /** A client's terms are those of the SYN+ACK that its attempt accepted. */
  lemma {:induction false} ClientTerms(states: seq<Peer>, events: seq<Event>, i: nat, k: Key, b: Block)
    requires PeerRun(states, events) && i <= |events| && ClientHolds(states[i], k, b)
    ensures exists j | 0 <= j < i :: CompletedBy(states[j], events[j], k, b)
  {
    hide PeerRun, PeerOk, Step, Possible, NewPeer, ClientHolds, CompletedBy;
    PeerRunStep(states, events, if i == 0 then 0 else i - 1);
    NewHoldsNothing(states[0].addr, k, b);
    if i > 0 {
      RunOk(states, events, i - 1);
      ClientStep(states[i - 1], events[i - 1], k, b, states[i], Step(states[i - 1], events[i - 1]).value.1);
      if ClientHolds(states[i - 1], k, b) { ClientTerms(states, events, i - 1, k, b); }
    }
  }

  /** In every such run an established socket has a control block, and so has the descriptor
      that an accept handed out; the block belongs to the socket's endpoints and came from
      the SYN+ACK of its attempt or the SYN of its handshake. */
  lemma EstablishedHasBlock(states: seq<Peer>, events: seq<Event>, i: nat, fd: nat)
    requires PeerRun(states, events) && i <= |events|
    requires fd in states[i].sockets && states[i].sockets[fd].Established?
    ensures var k := states[i].sockets[fd].key;
      && k in states[i].established
      && var b := states[i].established[k];
         && b.local == k.local && b.remote == k.remote
         && exists j | 0 <= j < i ::
           if FIRST_PRIVATE_PORT <= k.local.port then CompletedBy(states[j], events[j], k, b)
           else StartedBy(states[j], events[j], k, b)
  {
    hide PeerRun, CompletedBy, StartedBy;
    PeerRunStep(states, events, i);
    RunOk(states, events, i);
    var k := states[i].sockets[fd].key;
    assert EstablishedOk(states[i], k);
    hide PeerOk;
    if FIRST_PRIVATE_PORT <= k.local.port {
      ClientTerms(states, events, i, k, states[i].established[k]);
    } else {
      ListenerTerms(states, events, i, k, states[i].established[k]);
    }
  }
}
