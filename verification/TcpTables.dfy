/** The tables of a TCP peer stay consistent and none of their assertions fires, for every
    sequence of calls and incoming segments. */
module TcpTables {
  import opened Base
  import opened SeqNumbers
  import opened TcpOpen
  import opened TcpPeer

  lemma SocketKeeps(p: Peer, newFd: nat)
    requires PeerOk(p) && newFd !in p.files
    ensures OpenSocket(p, newFd).Done? && PeerOk(OpenSocket(p, newFd).value)
  {
    hide ListenerOk, ConnectingOk, EstablishedOk;
    ConnectionsKept(p, OpenSocket(p, newFd).value);
    ListenersKept(p, OpenSocket(p, newFd).value);
  }

  lemma BindKeeps(p: Peer, fd: nat, addr: Endpoint)
    requires PeerOk(p)
    ensures PeerOk(Bind(p, fd, addr))
  {
    hide ListenerOk, ConnectingOk, EstablishedOk;
    var q := Bind(p, fd, addr);
    if q != p {
      ConnectionsKept(p, q);
      ListenersKept(p, q);
      assert q.sockets.Keys == p.sockets.Keys;
    }
  }

  lemma PeerAttempt(p: Peer, k: Key)
    requires PeerOk(p) && k in p.connecting
    ensures ConnectingOk(p, k)
  {}

  lemma PeerListener(p: Peer, l: Endpoint)
    requires PeerOk(p) && l in p.passive
    ensures ListenerOk(p, l)
  {}

  /** One socket changes, or is new. */
  lemma SocketChanges(p: Peer, p': Peer, fd: nat, s: Socket)
    requires SocketsOk(p) && p'.sockets == p.sockets[fd := s] && p.files <= p'.files && fd in p'.files
    requires p.passive.Keys <= p'.passive.Keys && p.established.Keys <= p'.established.Keys
    requires s.Established? ==> s.key in p'.established
    requires s.Listening? ==> s.local in p'.passive
    requires s.Inactive? && s.bound.Some? ==> s.bound.value.port < FIRST_PRIVATE_PORT
    ensures SocketsOk(p')
  {
  }

  lemma ListenKeeps(p: Peer, fd: nat, backlog: nat)
    requires PeerOk(p)
    ensures PeerOk(Listen(p, fd, backlog))
  {
    var q := Listen(p, fd, backlog);
    if q != p {
      var local := p.sockets[fd].bound.value;
      assert local.port < FIRST_PRIVATE_PORT && fd in p.files;
      hide SocketsOk, ListenerOk, ConnectingOk, EstablishedOk;
      ConnectionsKept(p, q);
      SocketChanges(p, q, fd, Listening(local));
      forall l | l in q.passive
        ensures ListenerOk(q, l)
      {
        if l == local {
          NewListener(p, q, local, backlog);
        } else {
          PeerListener(p, l);
          SameListener(p, q, l);
        }
      }
    }
  }

  lemma SameListener(p: Peer, q: Peer, l: Endpoint)
    requires l in p.passive && l in q.passive && ListenerOk(p, l) && q.passive[l] == p.passive[l]
    requires q.established == p.established
    ensures ListenerOk(q, l)
  {
    hide BacklogOk;
  }

  lemma NewListener(p: Peer, q: Peer, l: Endpoint, backlog: nat)
    requires l in q.passive && q.passive[l] == NewPassive(l, backlog) && l.port < FIRST_PRIVATE_PORT
    ensures ListenerOk(q, l)
  {
    NewPassiveOk(l, backlog);
    hide BacklogOk;
  }

  lemma NewPassiveOk(local: Endpoint, backlog: nat)
    ensures BacklogOk(NewPassive(local, backlog))
  {}

  lemma ConnectionsKept(p: Peer, q: Peer)
    requires PeerOk(p) && q.ports == p.ports && q.connecting == p.connecting && q.established == p.established
    ensures forall k | k in q.connecting :: ConnectingOk(q, k)
    ensures forall k | k in q.established :: EstablishedOk(q, k)
  {
    forall k | k in q.connecting ensures ConnectingOk(q, k) { assert ConnectingOk(p, k); }
    forall k | k in q.established ensures EstablishedOk(q, k) { assert EstablishedOk(p, k); }
  }

  lemma ListenersKept(p: Peer, q: Peer)
    requires PeerOk(p) && q.passive == p.passive
    requires forall k | k in q.established :: k in p.established || k.local.port >= FIRST_PRIVATE_PORT
    ensures forall l | l in q.passive :: ListenerOk(q, l)
  {
    hide BacklogOk;
    forall l | l in q.passive
      ensures ListenerOk(q, l)
    {
      assert ListenerOk(p, l);
    }
  }

  /** One listening socket changes; the others and the connections stay. */
  lemma ListenerChanges(p: Peer, l: Endpoint, q: Passive, p': Peer)
    requires PeerOk(p) && l in p.passive && p'.passive == p.passive[l := q]
    requires p'.ports == p.ports && p'.connecting == p.connecting
    requires q.local == l && BacklogOk(q)
    requires forall x | x in q.ready && x.Accepted? :: x.block.local == l
    requires forall r | Key(l, r) in p'.established :: !Pending(q, r)
    requires forall k | k in p'.established && k.local != l :: k in p.established
    ensures forall m | m in p'.passive :: ListenerOk(p', m)
  {
    hide BacklogOk;
    forall m | m in p'.passive
      ensures ListenerOk(p', m)
    {
      assert ListenerOk(p, m);
    }
  }

  /** Polling a listener removes at most the endpoint it hands out. */
  lemma PollAcceptShape(q: Passive)
    requires BacklogOk(q)
    ensures PollAccept(q).Done?
    ensures var (q', r) := PollAccept(q).value;
      && BacklogOk(q') && q'.local == q.local
      && (forall x | x in q'.ready :: x in q.ready)
      && (forall e | Pending(q', e) :: Pending(q, e))
      && (r.Some? && r.value.Accepted? ==>
            && r.value in q.ready && Pending(q, r.value.block.remote) && !Pending(q', r.value.block.remote))
  {
    PollKeepsBacklog(q);
  }

  /** Accepting finds the listener's entry, a new descriptor and a new endpoint pair. */
  lemma AcceptKeeps(p: Peer, fd: nat, newFd: nat)
    requires PeerOk(p) && newFd !in p.files
    ensures Accept(p, fd, newFd).Done? && PeerOk(Accept(p, fd, newFd).value)
  {
    hide BacklogOk, PollAccept, ListenerOk, ConnectingOk, EstablishedOk, Pending;
    if fd in p.sockets && p.sockets[fd].Listening? {
      var l := p.sockets[fd].local;
      PeerListener(p, l);
      AcceptPoll(p, l);
      var q, r := PollAccept(p.passive[l]).value.0, PollAccept(p.passive[l]).value.1;
      var p' := Accept(p, fd, newFd).value;
      if r.None? || r.value.HandshakeTimeout? {
        hide SocketsOk;
        AcceptNothing(p, l, q, p');
      } else {
        hide PeerOk;
        AcceptOneBlock(p, l, q, r.value.block, newFd, p');
      }
    }
  }

  /** What polling the listener at `l` gives. */
  lemma AcceptPoll(p: Peer, l: Endpoint)
    requires PeerOk(p) && l in p.passive
    ensures PollAccept(p.passive[l]).Done?
    ensures var (q, r) := PollAccept(p.passive[l]).value;
      && q.local == l && BacklogOk(q)
      && (forall x | x in q.ready && x.Accepted? :: x.block.local == l)
      && (forall e | Pending(q, e) :: Pending(p.passive[l], e))
      && (r.Some? && r.value.Accepted? ==>
            && r.value.block.local == l && Key(l, r.value.block.remote) !in p.established
            && !Pending(q, r.value.block.remote))
  {
    PeerListener(p, l);
    PollAcceptShape(p.passive[l]);
    hide BacklogOk, PollAccept, PeerOk, Pending;
  }

  lemma AcceptNothing(p: Peer, l: Endpoint, q: Passive, p': Peer)
    requires PeerOk(p) && l in p.passive && p' == p.(passive := p.passive[l := q])
    requires q.local == l && BacklogOk(q)
    requires forall x | x in q.ready && x.Accepted? :: x.block.local == l
    requires forall e | Pending(q, e) :: Pending(p.passive[l], e)
    ensures PeerOk(p')
  {
    PeerListener(p, l);
    NotPendingYet(p, l, q);
    hide BacklogOk, ListenerOk, ConnectingOk, EstablishedOk, Pending;
    ListenerChanges(p, l, q, p');
    ConnectionsKept(p, p');
  }

  lemma NotPendingYet(p: Peer, l: Endpoint, q: Passive)
    requires l in p.passive && ListenerOk(p, l) && forall e | Pending(q, e) :: Pending(p.passive[l], e)
    ensures forall r | Key(l, r) in p.established :: !Pending(q, r)
  {
    hide BacklogOk, Pending;
  }

  lemma AcceptOneBlock(p: Peer, l: Endpoint, q: Passive, b: Block, newFd: nat, p': Peer)
    requires PeerOk(p) && newFd !in p.files && l in p.passive && b.local == l && Key(l, b.remote) !in p.established
    requires p' == p.(passive := p.passive[l := q], files := p.files + {newFd},
                      sockets := p.sockets[newFd := Established(Key(l, b.remote))],
                      established := p.established[Key(l, b.remote) := b])
    requires q.local == l && BacklogOk(q) && !Pending(q, b.remote)
    requires forall x | x in q.ready && x.Accepted? :: x.block.local == l
    requires forall e | Pending(q, e) :: Pending(p.passive[l], e)
    ensures PeerOk(p')
  {
    hide BacklogOk, ListenerOk, ConnectingOk, EstablishedOk, Pending, SocketsOk;
    SocketChanges(p, p', newFd, Established(Key(l, b.remote)));
    AcceptEstablishes(p, l, q, b, p');
  }

  lemma AcceptEstablishes(p: Peer, l: Endpoint, q: Passive, b: Block, p': Peer)
    requires PeerOk(p) && l in p.passive && b.local == l && Key(l, b.remote) !in p.established
    requires p'.passive == p.passive[l := q] && p'.established == p.established[Key(l, b.remote) := b]
    requires p'.ports == p.ports && p'.connecting == p.connecting
    requires q.local == l && BacklogOk(q) && !Pending(q, b.remote)
    requires forall x | x in q.ready && x.Accepted? :: x.block.local == l
    requires forall e | Pending(q, e) :: Pending(p.passive[l], e)
    ensures forall m | m in p'.passive :: ListenerOk(p', m)
    ensures forall k | k in p'.connecting :: ConnectingOk(p', k)
    ensures forall k | k in p'.established :: EstablishedOk(p', k)
  {
    hide BacklogOk, Pending;
    assert ListenerOk(p, l);
    ListenerChanges(p, l, q, p');
    AcceptedConnections(p, p');
  }

  lemma AcceptedConnections(p: Peer, p': Peer)
    requires PeerOk(p) && p'.ports == p.ports && p'.connecting == p.connecting
    requires forall k | k in p'.established ::
               || (k in p.established && p'.established[k] == p.established[k])
               || (k.local.port < FIRST_PRIVATE_PORT && p'.established[k].local == k.local && p'.established[k].remote == k.remote)
    ensures forall k | k in p'.connecting :: ConnectingOk(p', k)
    ensures forall k | k in p'.established :: EstablishedOk(p', k)
  {
    hide BacklogOk;
    forall k | k in p'.connecting ensures ConnectingOk(p', k) { assert ConnectingOk(p, k); }
    forall k | k in p'.established ensures EstablishedOk(p', k) {
      if k in p.established { assert EstablishedOk(p, k); }
    }
  }

  /** Connecting allocates a port no pair has used, so the new pair is new. */
  lemma ConnectKeeps(p: Peer, fd: nat, remote: Endpoint, isn: U32)
    requires PeerOk(p)
    ensures Connect(p, fd, remote, isn).Done? && PeerOk(Connect(p, fd, remote, isn).value)
  {
    hide BacklogOk, ListenerOk, ConnectingOk, EstablishedOk, FirstFree;
    var r := FirstFree(p.ports, 0);
    if fd in p.sockets && p.sockets[fd].Inactive? && r.Some? {
      var key := Key(Endpoint(p.addr, FIRST_PRIVATE_PORT + r.value), remote);
      FreePort(p, key);
      var p' := Connect(p, fd, remote, isn).value;
      assert fd in p.files;
      hide SocketsOk;
      SocketChanges(p, p', fd, Connecting(key));
      ListenersKept(p, p');
      ConnectionsAfter(p, p', key, isn, r.value);
    }
  }

  /** A free port is in no pair. */
  lemma FreePort(p: Peer, key: Key)
    requires PeerOk(p) && key.local.port >= FIRST_PRIVATE_PORT && !Allocated(p, key.local.port)
    ensures key !in p.connecting && key !in p.established
  {
    assert key in p.connecting ==> ConnectingOk(p, key);
    assert key in p.established ==> EstablishedOk(p, key);
  }

  lemma ConnectionsAfter(p: Peer, p': Peer, key: Key, isn: U32, i: nat)
    requires PeerOk(p) && i < |p.ports| && p.ports[i] && key.local == Endpoint(p.addr, FIRST_PRIVATE_PORT + i)
    requires key !in p.connecting && key !in p.established && p'.ports == p.ports[i := false]
    requires p'.connecting == p.connecting[key := NewActive(key.local, key.remote, isn)]
    requires p'.established == p.established && p'.addr == p.addr
    ensures forall k | k in p'.connecting :: ConnectingOk(p', k)
    ensures forall k | k in p'.established :: EstablishedOk(p', k)
  {
    hide BacklogOk, ListenerOk, SocketsOk;
    forall k | k in p'.connecting ensures ConnectingOk(p', k) {
      if k != key { assert ConnectingOk(p, k); }
    }
    forall k | k in p'.established ensures EstablishedOk(p', k) { assert EstablishedOk(p, k); }
  }

  lemma FinishKeeps(p: Peer, fd: nat)
    requires PeerOk(p)
    ensures FinishConnect(p, fd).Done? && PeerOk(FinishConnect(p, fd).value)
  {
    hide BacklogOk, ListenerOk, EstablishedOk, ConnectingOk;
    if fd in p.sockets && p.sockets[fd].Connecting? && p.sockets[fd].key in p.connecting {
      var key := p.sockets[fd].key;
      AttemptIsNew(p, key);
      var p' := FinishConnect(p, fd).value;
      FinishConnections(p, p', key);
      ListenersKept(p, p');
      assert fd in p.files;
      hide SocketsOk;
      if p'.sockets != p.sockets {
        SocketChanges(p, p', fd, Established(key));
      } else {
        SameSockets(p, p');
      }
    }
  }

  lemma SameSockets(p: Peer, p': Peer)
    requires SocketsOk(p) && p'.sockets == p.sockets && p'.files == p.files && p'.passive == p.passive
    requires p.established.Keys <= p'.established.Keys
    ensures SocketsOk(p')
  {
  }

  lemma AttemptIsNew(p: Peer, key: Key)
    requires PeerOk(p) && key in p.connecting
    ensures key !in p.established && key.local.port >= FIRST_PRIVATE_PORT
  {
    PeerAttempt(p, key);
  }

  lemma FinishConnections(p: Peer, p': Peer, key: Key)
    requires PeerOk(p) && key in p.connecting && p'.ports == p.ports && p'.addr == p.addr
    requires p'.connecting == p.connecting || p'.connecting == p.connecting - {key}
    requires
      || p'.established == p.established
      || (&& p'.connecting == p.connecting - {key}
          && p.connecting[key].result.Some? && p.connecting[key].result.value.Connected?
          && p'.established == p.established[key := p.connecting[key].result.value.block])
    ensures forall k | k in p'.connecting :: ConnectingOk(p', k)
    ensures forall k | k in p'.established :: EstablishedOk(p', k)
  {
    hide BacklogOk, ListenerOk, SocketsOk;
    assert ConnectingOk(p, key);
    forall k | k in p'.connecting ensures ConnectingOk(p', k) { assert ConnectingOk(p, k); }
    forall k | k in p'.established ensures EstablishedOk(p', k) {
      if k in p.established { assert EstablishedOk(p, k); }
    }
  }

  /** An attempt in progress changes without losing its endpoints. */
  lemma AttemptChanges(p: Peer, key: Key, a: Active, p': Peer)
    requires PeerOk(p) && key in p.connecting && p' == p.(connecting := p.connecting[key := a])
    requires a.local == key.local && a.remote == key.remote
    requires a.result.Some? && a.result.value.Connected? ==>
               a.result.value.block.local == key.local && a.result.value.block.remote == key.remote
    ensures PeerOk(p')
  {
    hide BacklogOk;
    ListenersKept(p, p');
    assert ConnectingOk(p, key);
    forall k | k in p'.connecting ensures ConnectingOk(p', k) { assert ConnectingOk(p, k); }
    forall k | k in p'.established ensures EstablishedOk(p', k) { assert EstablishedOk(p, k); }
  }

  /** The header would complete an attempt to connect. */
  predicate Completes(a: Active, h: Header) {
    !h.rst && h.ack && h.syn && h.ackNum == WrappingAdd(a.isn, 1)
  }

  /** A segment that aborts the peer: it completes a connection whose link address is unknown,
      or negotiates a window scale of 16 or more. */
  predicate AbortsPeer(p: Peer, k: Packet, arpHit: bool) {
    var key := Key(k.to, k.from);
    && !BadSource(k.from.addr) && key !in p.established
    && if key in p.connecting then
         Completes(p.connecting[key], k.header) && (!arpHit || Negotiated(k.header.options).0 >= 16)
       else
         && k.to in p.passive && !Pending(p.passive[k.to], k.from)
         && k.header.syn && !k.header.ack && !k.header.rst
         && |p.passive[k.to].inflight| + |p.passive[k.to].ready| < p.passive[k.to].maxBacklog
         && Negotiated(k.header.options).0 >= 16
  }

  lemma PassiveReceiveShape(q: Passive, remote: Endpoint, h: Header, isn: U32, q': Passive)
    requires PassiveReceive(q, remote, h, isn) == Done(q')
    ensures q'.local == q.local
    ensures forall r | Pending(q', r) && !Pending(q, r) :: r == remote
    ensures forall x | x in q'.ready && x.Accepted? :: x in q.ready || x.block.local == q.local
  {
    hide Negotiated, Power2, ScaledWindow;
  }

  lemma ReceiveKeeps(p: Peer, k: Packet, isn: U32, arpHit: bool)
    requires PeerOk(p)
    ensures Receive(p, k, isn, arpHit).Panic? <==> AbortsPeer(p, k, arpHit)
    ensures Receive(p, k, isn, arpHit).Done? ==> PeerOk(Receive(p, k, isn, arpHit).value.0)
  {
    var key := Key(k.to, k.from);
    hide Negotiated, Power2, BacklogOk;
    if BadSource(k.from.addr) || key in p.established {
    } else if key in p.connecting {
      assert ConnectingOk(p, key);
      var r := ActiveReceive(p.connecting[key], k.header, arpHit);
      if r.Done? {
        AttemptChanges(p, key, r.value.0, Receive(p, k, isn, arpHit).value.0);
      }
    } else if k.to in p.passive {
      assert ListenerOk(p, k.to);
      var q := p.passive[k.to];
      ReceiveKeepsBacklog(q, k.from, k.header, isn);
      var r := PassiveReceive(q, k.from, k.header, isn);
      if r.Done? {
        var p' := Receive(p, k, isn, arpHit).value.0;
        hide PassiveReceive;
        PassiveReceiveShape(q, k.from, k.header, isn, r.value);
        ListenerChanges(p, k.to, r.value, p');
        ConnectionsKept(p, p');
      }
    }
  }

  lemma ConnectTimerKeeps(p: Peer, key: Key, arpHit: bool, mss: nat)
    requires PeerOk(p)
    ensures PeerOk(ConnectTimer(p, key, arpHit, mss).0)
  {
    if key in p.connecting {
      assert ConnectingOk(p, key);
      AttemptChanges(p, key, ActiveTimer(p.connecting[key], arpHit, mss).0, ConnectTimer(p, key, arpHit, mss).0);
    }
  }

  lemma PassiveTimerShape(q: Passive, remote: Endpoint, arpHit: bool)
    requires BacklogOk(q)
    ensures var q' := PassiveTimer(q, remote, arpHit).0;
      && BacklogOk(q') && q'.local == q.local
      && (forall x | x in q'.ready && x.Accepted? :: x in q.ready)
      && (forall e | Pending(q', e) :: Pending(q, e))
  {
    TimerKeepsBacklog(q, remote, arpHit);
  }

  lemma AcceptTimerKeeps(p: Peer, key: Key, arpHit: bool)
    requires PeerOk(p)
    ensures PeerOk(AcceptTimer(p, key, arpHit).0)
  {
    hide BacklogOk, PassiveTimer;
    if key.local in p.passive {
      assert ListenerOk(p, key.local);
      var q := p.passive[key.local];
      PassiveTimerShape(q, key.remote, arpHit);
      hide Pending;
      var p' := AcceptTimer(p, key, arpHit).0;
      ListenerChanges(p, key.local, PassiveTimer(q, key.remote, arpHit).0, p');
      ConnectionsKept(p, p');
      hide ListenerOk, ConnectingOk, EstablishedOk;
    }
  }

  /** Every call and every segment keeps the tables consistent. No assertion on the tables ever
      fires: the only aborts are the segments of `AbortsPeer`. */
  lemma TablesStayConsistent(p: Peer, e: Event)
    requires PeerOk(p) && Possible(p, e)
    ensures Step(p, e).Panic? <==> e.DoReceive? && AbortsPeer(p, e.packet, e.arpHit)
    ensures Step(p, e).Done? ==> PeerOk(Step(p, e).value.0)
  {
    hide PeerOk, AbortsPeer, Accept, Connect, FinishConnect, Receive, ConnectTimer, AcceptTimer, Listen, Bind;
    match e {
      case OtherFile(fd, inUse) => OtherFileKeeps(p, e);
      case DoSocket(newFd) => SocketKeeps(p, newFd);
      case DoBind(fd, addr) => BindKeeps(p, fd, addr);
      case DoListen(fd, backlog) => ListenKeeps(p, fd, backlog);
      case DoAccept(fd, newFd) => AcceptKeeps(p, fd, newFd);
      case DoConnect(fd, remote, isn) => ConnectKeeps(p, fd, remote, isn);
      case DoFinish(fd) => FinishKeeps(p, fd);
      case DoReceive(packet, isn, arpHit) => ReceiveKeeps(p, packet, isn, arpHit);
      case DoConnectTimer(key, arpHit, mss) => ConnectTimerKeeps(p, key, arpHit, mss);
      case DoAcceptTimer(key, arpHit) => AcceptTimerKeeps(p, key, arpHit);
    }
  }

  lemma OtherFileKeeps(p: Peer, e: Event)
    requires PeerOk(p) && e.OtherFile? && Possible(p, e)
    ensures Step(p, e).Done? && PeerOk(Step(p, e).value.0)
  {
    hide ListenerOk, ConnectingOk, EstablishedOk;
    var p' := Step(p, e).value.0;
    ConnectionsKept(p, p');
    ListenersKept(p, p');
  }

  /** A peer's run from its creation, on any calls and any segments whatsoever. */
  predicate PeerRun(states: seq<Peer>, events: seq<Event>) {
    && |states| == |events| + 1 && states[0] == NewPeer(states[0].addr)
    && forall i | 0 <= i < |events| ::
        && Possible(states[i], events[i]) && Step(states[i], events[i]).Done?
        && states[i + 1] == Step(states[i], events[i]).value.0
  }

  lemma NewPeerOk(addr: U32)
    ensures PeerOk(NewPeer(addr))
  {
  }

  lemma PeerRunStep(states: seq<Peer>, events: seq<Event>, i: nat)
    requires PeerRun(states, events)
    ensures |states| == |events| + 1 && states[0] == NewPeer(states[0].addr)
    ensures i < |events| ==>
      && Possible(states[i], events[i]) && Step(states[i], events[i]).Done?
      && states[i + 1] == Step(states[i], events[i]).value.0
  {
    hide Step, Possible, NewPeer;
  }

  /** In every state of every such run the tables are consistent, and a further call or segment
      aborts if and only if it is a segment of `AbortsPeer`. */
  lemma {:induction false} RunStaysConsistent(states: seq<Peer>, events: seq<Event>, i: nat, e: Event)
    requires PeerRun(states, events) && i <= |events| && Possible(states[i], e)
    ensures PeerOk(states[i])
    ensures Step(states[i], e).Panic? <==> e.DoReceive? && AbortsPeer(states[i], e.packet, e.arpHit)
  {
    hide PeerRun, Step, PeerOk, Possible, AbortsPeer, NewPeer;
    PeerRunStep(states, events, if i == 0 then 0 else i - 1);
    if i == 0 {
      NewPeerOk(states[0].addr);
    } else {
      RunStaysConsistent(states, events, i - 1, events[i - 1]);
      TablesStayConsistent(states[i - 1], events[i - 1]);
    }
    TablesStayConsistent(states[i], e);
  }
}
