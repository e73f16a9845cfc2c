/** Any number of hosts running the TCP peer over a network that loses, duplicates and
    reorders segments: the two ends of a connection agree on their sequence numbers. */
module TcpHandshake {
  import opened Base
  import opened SeqNumbers
  import opened TcpOpen
  import opened TcpPeer
  import opened TcpTables

  /** The two initial sequence numbers a listener recorded for one handshake. */
  datatype Isns = Isns(mine: U32, theirs: U32)

  /** Hosts by address, every packet ever transmitted, and two histories: the number each
      attempt to connect chose, and the numbers each listener recorded. */
  datatype Net = Net(hosts: map<U32, Peer>, packets: set<Packet>, act: map<Key, U32>, pas: map<Key, Isns>)

  datatype Move =
    | At(host: U32, event: Event)
    | Talk(host: U32, key: Key, header: Header)

  /** The history of connection attempts after host `p` became `p'`. */
  function ActAfter(act: map<Key, U32>, p: Peer, e: Event, p': Peer): map<Key, U32> {
    if e.DoConnect? && e.fd in p'.sockets && p'.sockets[e.fd].Connecting? && p'.connecting != p.connecting
    then act[p'.sockets[e.fd].key := e.isn] else act
  }

  predicate StartsHandshake(p: Peer, e: Event, p': Peer) {
    && e.DoReceive? && e.packet.to in p.passive && e.packet.to in p'.passive
    && e.packet.from !in p.passive[e.packet.to].inflight && e.packet.from in p'.passive[e.packet.to].inflight
  }

  function PasAfter(pas: map<Key, Isns>, p: Peer, e: Event, p': Peer): map<Key, Isns> {
    if StartsHandshake(p, e, p') then
      var f := p'.passive[e.packet.to].inflight[e.packet.from];
      pas[Key(e.packet.to, e.packet.from) := Isns(f.localIsn, f.remoteIsn)]
    else pas
  }

  function Sent(out: Option<Packet>): set<Packet> { if out.Some? then {out.value} else {} }

  /** One move: a host handles an event, with packets for it taken from the network; or an
      established connection transmits any segment that is not a SYN or a reset. */
  predicate Next(n: Net, m: Move, n': Net) {
    && m.host in n.hosts
    && var p := n.hosts[m.host];
       match m
       case At(h, e) =>
         && Possible(p, e)
         && (e.DoReceive? ==> e.packet in n.packets && e.packet.to.addr == h)
         && Step(p, e).Done?
         && var (p', out) := Step(p, e).value;
            n' == Net(n.hosts[h := p'], n.packets + Sent(out), ActAfter(n.act, p, e, p'), PasAfter(n.pas, p, e, p'))
       case Talk(h, key, header) =>
         && key in p.established && !header.syn && !header.rst
         && n' == n.(packets := n.packets + {Packet(key.local, key.remote, header)})
  }

  predicate Start(n: Net) {
    && n.packets == {} && n.act == map[] && n.pas == map[]
    && forall h | h in n.hosts :: n.hosts[h] == NewPeer(h)
  }

  predicate Run(states: seq<Net>, moves: seq<Move>) {
    && |states| == |moves| + 1
    && Start(states[0])
    && forall i | 0 <= i < |moves| :: Next(states[i], moves[i], states[i + 1])
  }

  // ----- Invariant -----

  /** A control block built by an attempt to connect, and one built by a listener. */
  predicate ActiveBlock(n: Net, k: Key, b: Block) {
    && k in n.act && Reverse(k) in n.pas
    && b.sndBase == WrappingAdd(n.act[k], 1) && b.rcvBase == WrappingAdd(n.pas[Reverse(k)].mine, 1)
  }

  predicate PassiveBlock(n: Net, k: Key, b: Block) {
    && k in n.pas
    && b.sndBase == WrappingAdd(n.pas[k].mine, 1) && b.rcvBase == WrappingAdd(n.pas[k].theirs, 1)
  }

  predicate BlockOk(n: Net, k: Key, b: Block) {
    if k.local.port >= FIRST_PRIVATE_PORT then ActiveBlock(n, k, b) else PassiveBlock(n, k, b)
  }

  predicate AttemptOk(n: Net, h: U32, k: Key, a: Active) {
    && k.local.addr == h && k in n.act && n.act[k] == a.isn
    && (a.result.Some? && a.result.value.Connected? ==> ActiveBlock(n, k, a.result.value.block))
  }

  predicate ListenOk(n: Net, q: Passive) {
    && (forall r | r in q.inflight ::
          var k := Key(q.local, r);
          k in n.pas && n.pas[k] == Isns(q.inflight[r].localIsn, q.inflight[r].remoteIsn))
    && (forall x | x in q.ready && x.Accepted? :: PassiveBlock(n, Key(x.block.local, x.block.remote), x.block))
  }

  ghost predicate HostOk(n: Net, h: U32, p: Peer) {
    && p.addr == h && PeerOk(p)
    && (forall k | k in p.connecting :: AttemptOk(n, h, k, p.connecting[k]))
    && (forall l | l in p.passive :: ListenOk(n, p.passive[l]))
    && (forall k | k in p.established :: BlockOk(n, k, p.established[k]))
  }

  /** A recorded attempt keeps its port; a recorded handshake came from the recorded attempt
      of the other end, and is pending or established ever after. */
  predicate ActOk(n: Net, k: Key)
    requires k in n.act
  {
    && k.local.port >= FIRST_PRIVATE_PORT
    && k.local.addr in n.hosts && Allocated(n.hosts[k.local.addr], k.local.port)
  }

  predicate PasOk(n: Net, k: Key)
    requires k in n.pas
  {
    && k.local.port < FIRST_PRIVATE_PORT
    && Reverse(k) in n.act && n.pas[k].theirs == n.act[Reverse(k)]
    && k.local.addr in n.hosts && Known(n.hosts[k.local.addr], k)
  }

  predicate Known(p: Peer, k: Key) {
    k in p.established || (k.local in p.passive && Pending(p.passive[k.local], k.remote))
  }

  predicate PacketOk(n: Net, x: Packet) {
    var k := Key(x.from, x.to);
    x.header.syn ==>
      && Negotiated(x.header.options).0 < 16
      && if x.header.ack then
        k in n.pas && x.header.seqNum == n.pas[k].mine && x.header.ackNum == WrappingAdd(n.pas[k].theirs, 1)
      else
        k in n.act && x.header.seqNum == n.act[k]
  }

  ghost predicate Inv(n: Net) {
    && (forall h | h in n.hosts :: HostOk(n, h, n.hosts[h]))
    && (forall k | k in n.act :: ActOk(n, k))
    && (forall k | k in n.pas :: PasOk(n, k))
    && (forall x | x in n.packets :: PacketOk(n, x))
  }

  /** The histories only grow. */
  predicate Grows(n: Net, n': Net) {
    && (forall k | k in n.act :: k in n'.act && n'.act[k] == n.act[k])
    && (forall k | k in n.pas :: k in n'.pas && n'.pas[k] == n.pas[k])
  }

  lemma GrowthKeepsHost(n: Net, n': Net, h: U32, p: Peer)
    requires HostOk(n, h, p) && Grows(n, n')
    ensures HostOk(n', h, p)
  {
    hide PeerOk, WrappingAdd;
    forall k | k in p.connecting ensures AttemptOk(n', h, k, p.connecting[k]) {
      assert AttemptOk(n, h, k, p.connecting[k]);
    }
    forall l | l in p.passive ensures ListenOk(n', p.passive[l]) {
      assert ListenOk(n, p.passive[l]);
    }
    forall k | k in p.established ensures BlockOk(n', k, p.established[k]) {
      assert BlockOk(n, k, p.established[k]);
    }
  }

  lemma GrowthKeepsPackets(n: Net, n': Net)
    requires Grows(n, n') && forall x | x in n.packets :: PacketOk(n, x)
    ensures forall x | x in n.packets :: PacketOk(n', x)
  {
    forall x | x in n.packets ensures PacketOk(n', x) { assert PacketOk(n, x); }
  }

  /** What is left to show of a move at host `h`, given that the histories only grew. */
  lemma MoveKeepsRest(n: Net, h: U32, p': Peer, n': Net)
    requires Inv(n) && h in n.hosts && n'.hosts == n.hosts[h := p'] && Grows(n, n')
    requires HostOk(n', h, p')
    requires forall x | x in n'.packets && x !in n.packets :: PacketOk(n', x)
    requires forall k | k in n'.act && k !in n.act :: ActOk(n', k)
    requires forall k | k in n'.pas && k !in n.pas :: PasOk(n', k)
    requires forall port: Port | Allocated(n.hosts[h], port) :: Allocated(p', port)
    requires forall k | Known(n.hosts[h], k) :: Known(p', k)
    ensures Inv(n')
  {
    hide HostOk, Known, Allocated;
    forall g | g in n'.hosts ensures HostOk(n', g, n'.hosts[g]) {
      if g != h { GrowthKeepsHost(n, n', g, n.hosts[g]); }
    }
    GrowthKeepsPackets(n, n');
    forall k | k in n'.act ensures ActOk(n', k) {
      if k in n.act { assert ActOk(n, k); }
    }
    forall k | k in n'.pas ensures PasOk(n', k) {
      if k in n.pas { assert PasOk(n, k); }
    }
  }

  // ----- One host -----

  /** Ports stay allocated and handshakes stay known. */
  ghost predicate Advances(p: Peer, p': Peer) {
    && (forall port: Port | Allocated(p, port) :: Allocated(p', port))
    && (forall k | Known(p, k) :: Known(p', k))
  }

  lemma SameTables(n: Net, h: U32, p: Peer, p': Peer)
    requires HostOk(n, h, p) && PeerOk(p') && p'.addr == p.addr && p'.ports == p.ports
    requires p'.connecting == p.connecting && p'.passive == p.passive && p'.established == p.established
    ensures HostOk(n, h, p') && Advances(p, p')
  {
    hide PeerOk, AttemptOk, ListenOk, BlockOk;
  }

  lemma ListenMoves(n: Net, h: U32, p: Peer, fd: nat, backlog: nat, p': Peer)
    requires HostOk(n, h, p) && PeerOk(p') && p' == Listen(p, fd, backlog)
    ensures HostOk(n, h, p') && Advances(p, p')
  {
    hide PeerOk, AttemptOk, BlockOk, PassiveBlock;
  }

  lemma AcceptShape(p: Peer, fd: nat, newFd: nat, p': Peer) returns (l: Endpoint, b: Option<Block>)
    requires PeerOk(p) && newFd !in p.files && Accept(p, fd, newFd) == Done(p')
    ensures p'.connecting == p.connecting && p'.ports == p.ports && p'.addr == p.addr
    ensures p' != p ==>
              && l in p.passive && p'.passive.Keys == p.passive.Keys
              && (forall m | m in p.passive && m != l :: p'.passive[m] == p.passive[m])
              && p'.passive[l].inflight == p.passive[l].inflight && p'.passive[l].local == p.passive[l].local == l
              && (forall x | x in p'.passive[l].ready :: x in p.passive[l].ready)
    ensures p' != p && b.None? ==>
              p'.established == p.established && p'.passive[l].endpoints == p.passive[l].endpoints
    ensures p' != p && b.Some? ==>
              && Accepted(b.value) in p.passive[l].ready && b.value.local == l
              && p'.established == p.established[Key(l, b.value.remote) := b.value]
              && p'.passive[l].endpoints == p.passive[l].endpoints - {b.value.remote}
  {
    hide BacklogOk, ConnectingOk, EstablishedOk;
    l, b := Endpoint(0, 1), None;
    if p' != p {
      l := p.sockets[fd].local;
      assert ListenerOk(p, l);
      var r := PollAccept(p.passive[l]).value.1;
      if r.Some? && r.value.Accepted? {
        b := Some(r.value.block);
      }
    }
  }

  /** Blocks of the table, when one is added. */
  lemma BlocksKept(n: Net, p: Peer, p': Peer, key: Key, b: Block)
    requires forall k | k in p.established :: BlockOk(n, k, p.established[k])
    requires p'.established == p.established[key := b] && BlockOk(n, key, b)
    ensures forall k | k in p'.established :: BlockOk(n, k, p'.established[k])
  {
    hide BlockOk;
  }

  /** Accepting moves a block from the listener to the table, and the handshake stays known. */
  lemma AcceptMoves(n: Net, h: U32, p: Peer, fd: nat, newFd: nat, p': Peer)
    requires HostOk(n, h, p) && PeerOk(p') && newFd !in p.files && Accept(p, fd, newFd) == Done(p')
    ensures HostOk(n, h, p') && Advances(p, p')
  {
    hide BacklogOk, WrappingAdd, AttemptOk, Accept, PollAccept, PeerOk;
    var l, b := AcceptShape(p, fd, newFd, p');
    if p' != p {
      assert ListenOk(n, p.passive[l]);
      PeerListener(p, l);
      if b.Some? {
        assert PassiveBlock(n, Key(l, b.value.remote), b.value);
        BlocksKept(n, p, p', Key(l, b.value.remote), b.value);
      }
      forall m | m in p'.passive ensures ListenOk(n, p'.passive[m]) {
        assert ListenOk(n, p.passive[m]);
      }
      hide ListenOk, PassiveBlock, BlockOk;
      AcceptAdvances(p, l, b, p');
    }
  }

  lemma AcceptAdvances(p: Peer, l: Endpoint, b: Option<Block>, p': Peer)
    requires l in p.passive && p'.passive.Keys == p.passive.Keys && p'.ports == p.ports
    requires forall m | m in p.passive && m != l :: p'.passive[m] == p.passive[m]
    requires p'.passive[l].inflight == p.passive[l].inflight
    requires if b.None? then p'.established == p.established && p'.passive[l].endpoints == p.passive[l].endpoints
             else p'.established == p.established[Key(l, b.value.remote) := b.value]
                  && p'.passive[l].endpoints == p.passive[l].endpoints - {b.value.remote}
    ensures Advances(p, p')
  {}

  lemma FinishMoves(n: Net, h: U32, p: Peer, fd: nat, p': Peer)
    requires HostOk(n, h, p) && PeerOk(p') && FinishConnect(p, fd) == Done(p')
    ensures HostOk(n, h, p') && Advances(p, p')
  {
    hide BacklogOk, WrappingAdd, ListenOk, PeerOk, ActiveBlock, PassiveBlock;
    if p' != p {
      var key := p.sockets[fd].key;
      assert AttemptOk(n, h, key, p.connecting[key]);
      PeerAttempt(p, key);
      if p'.established != p.established {
        BlocksKept(n, p, p', key, p.connecting[key].result.value.block);
      }
      hide BlockOk;
    }
  }

  lemma ConnectMoves(n: Net, h: U32, p: Peer, fd: nat, remote: Endpoint, isn: U32, p': Peer) returns (key: Key)
    requires HostOk(n, h, p) && PeerOk(p') && Connect(p, fd, remote, isn) == Done(p') && p' != p
    ensures key.local.addr == h && FIRST_PRIVATE_PORT <= key.local.port && !Allocated(p, key.local.port)
    ensures Allocated(p', key.local.port) && fd in p'.sockets && p'.sockets[fd] == Connecting(key)
    ensures p'.connecting == p.connecting[key := NewActive(key.local, key.remote, isn)] && key !in p.connecting
    ensures p'.passive == p.passive && p'.established == p.established && p'.addr == p.addr
    ensures Advances(p, p')
  {
    hide PeerOk, AttemptOk, ListenOk, BlockOk;
    var i := FirstFree(p.ports, 0).value;
    key := Key(Endpoint(p.addr, FIRST_PRIVATE_PORT + i), remote);
  }

  lemma ConnectHostOk(n: Net, h: U32, p: Peer, p': Peer, key: Key, isn: U32)
    requires HostOk(n, h, p) && PeerOk(p') && p'.addr == p.addr && key.local.addr == h && key !in n.act
    requires p'.connecting == p.connecting[key := NewActive(key.local, key.remote, isn)]
    requires p'.passive == p.passive && p'.established == p.established
    ensures HostOk(n.(act := n.act[key := isn]), h, p')
  {
    hide PeerOk, WrappingAdd;
    var n1 := n.(act := n.act[key := isn]);
    GrowthKeepsHost(n, n1, h, p);
    hide ListenOk, BlockOk;
  }

  /** An attempt to connect receives a segment: only the listener's SYN+ACK completes it. */
  lemma AttemptReceives(n: Net, h: U32, p: Peer, x: Packet, arpHit: bool, a: Active, out: Option<Header>, p': Peer)
    requires HostOk(n, h, p) && PeerOk(p') && PacketOk(n, x) && Key(x.to, x.from) in p.connecting
    requires ActiveReceive(p.connecting[Key(x.to, x.from)], x.header, arpHit) == Done((a, out))
    requires p' == p.(connecting := p.connecting[Key(x.to, x.from) := a])
    ensures HostOk(n, h, p') && Advances(p, p') && (out.Some? ==> !out.value.syn)
  {
    var key := Key(x.to, x.from);
    assert AttemptOk(n, h, key, p.connecting[key]);
    hide PeerOk, WrappingAdd, Negotiated, Power2, ListenOk, BlockOk;
    assert AttemptOk(n, h, key, a);
    hide AttemptOk, ActiveReceive;
  }

  /** One listener of a host changes. */
  lemma ListenerMoves(n: Net, h: U32, p: Peer, l: Endpoint, q: Passive, p': Peer)
    requires HostOk(n, h, p) && PeerOk(p') && l in p.passive && p' == p.(passive := p.passive[l := q])
    requires ListenOk(n, q) && forall r | Pending(p.passive[l], r) :: Pending(q, r)
    ensures HostOk(n, h, p') && Advances(p, p')
  {
    hide PeerOk, AttemptOk, ListenOk, BlockOk, Pending;
  }

  /** A listener receives a segment that does not start a handshake. */
  lemma ListenerReceives(n: Net, q: Passive, remote: Endpoint, hdr: Header, isn: U32, q': Passive)
    requires ListenOk(n, q) && BacklogOk(q) && PassiveReceive(q, remote, hdr, isn) == Done(q')
    requires !(remote !in q.inflight && remote in q'.inflight)
    ensures ListenOk(n, q') && forall r | Pending(q, r) :: Pending(q', r)
  {
    hide WrappingAdd, Negotiated, Power2, ScaledWindow, BacklogOk;
  }

  /** A SYN starts a handshake: the listener records the number its sender chose. */
  lemma ListenerStarts(n: Net, q: Passive, remote: Endpoint, hdr: Header, isn: U32, q': Passive)
    requires ListenOk(n, q) && PassiveReceive(q, remote, hdr, isn) == Done(q')
    requires remote !in q.inflight && remote in q'.inflight && Key(q.local, remote) !in n.pas
    ensures hdr.syn && !hdr.ack && !Pending(q, remote) && q'.local == q.local
    ensures q'.inflight[remote].localIsn == isn && q'.inflight[remote].remoteIsn == hdr.seqNum
    ensures ListenOk(n.(pas := n.pas[Key(q.local, remote) := Isns(isn, hdr.seqNum)]), q')
    ensures Pending(q', remote) && forall r | Pending(q, r) :: Pending(q', r)
  {
    hide WrappingAdd, Negotiated, Power2, ScaledWindow;
  }

  lemma SynOptions(mss: nat)
    ensures Negotiated([MaximumSegmentSize(mss)]) == (1, mss)
  {
    assert [MaximumSegmentSize(mss)][..0] == [];
  }

  lemma ConnectTimerMoves(n: Net, h: U32, p: Peer, key: Key, arpHit: bool, mss: nat, p': Peer, out: Option<Packet>)
    requires HostOk(n, h, p) && PeerOk(p') && ConnectTimer(p, key, arpHit, mss) == (p', out)
    ensures HostOk(n, h, p') && Advances(p, p') && (out.Some? ==> PacketOk(n, out.value))
  {
    hide PeerOk, WrappingAdd, ListenOk, BlockOk;
    if key in p.connecting {
      assert AttemptOk(n, h, key, p.connecting[key]);
      assert AttemptOk(n, h, key, p'.connecting[key]);
      hide AttemptOk;
      SynOptions(mss);
    }
  }

  lemma AcceptTimerMoves(n: Net, h: U32, p: Peer, key: Key, arpHit: bool, p': Peer, out: Option<Packet>)
    requires HostOk(n, h, p) && PeerOk(p') && AcceptTimer(p, key, arpHit) == (p', out)
    ensures HostOk(n, h, p') && Advances(p, p') && (out.Some? ==> PacketOk(n, out.value))
  {
    hide WrappingAdd, AttemptOk, BlockOk, BacklogOk;
    if key.local in p.passive {
      var q := p.passive[key.local];
      PeerListener(p, key.local);
      assert ListenOk(n, q);
      var q' := p'.passive[key.local];
      assert ListenOk(n, q');
      hide PeerOk, ListenOk;
      ListenerMoves(n, h, p, key.local, q', p');
    }
  }

  // ----- Whole runs -----

  lemma InvHost(n: Net, h: U32)
    requires Inv(n) && h in n.hosts
    ensures HostOk(n, h, n.hosts[h])
  {}

  /** A port that is free was never recorded, and neither was a handshake that is not known. */
  lemma NeverRecorded(n: Net, h: U32, k: Key)
    requires Inv(n) && h in n.hosts && k.local.addr == h
    ensures !Allocated(n.hosts[h], k.local.port) ==> k !in n.act
    ensures !Known(n.hosts[h], k) ==> k !in n.pas
  {
    hide HostOk, Known, Allocated;
    assert k in n.act ==> ActOk(n, k);
    assert k in n.pas ==> PasOk(n, k);
  }

  lemma InvPacket(n: Net, x: Packet)
    requires Inv(n) && x in n.packets
    ensures PacketOk(n, x)
  {}

  lemma QuietMove(n: Net, h: U32, p': Peer, out: Option<Packet>, n': Net)
    requires Inv(n) && h in n.hosts && HostOk(n, h, p') && Advances(n.hosts[h], p')
    requires out.Some? ==> PacketOk(n, out.value)
    requires n' == Net(n.hosts[h := p'], n.packets + Sent(out), n.act, n.pas)
    ensures Inv(n')
  {
    hide HostOk, Known, Allocated, Inv;
    GrowthKeepsHost(n, n', h, p');
    MoveKeepsRest(n, h, p', n');
  }

  lemma ConnectStep(n: Net, h: U32, e: Event, p': Peer, n': Net)
    requires Inv(n) && h in n.hosts && e.DoConnect? && PeerOk(p')
    requires Connect(n.hosts[h], e.fd, e.remote, e.isn) == Done(p')
    requires n' == Net(n.hosts[h := p'], n.packets, ActAfter(n.act, n.hosts[h], e, p'), n.pas)
    ensures Inv(n')
  {
    hide PeerOk, Inv, HostOk;
    var p := n.hosts[h];
    InvHost(n, h);
    if p' == p {
      assert n' == n;
    } else {
      var key := ConnectMoves(n, h, p, e.fd, e.remote, e.isn, p');
      NeverRecorded(n, h, key);
      hide Connect, Known;
      ConnectHostOk(n, h, p, p', key, e.isn);
      ConnectNet(n, h, p', key, e.isn, n');
    }
  }

  lemma ConnectNet(n: Net, h: U32, p': Peer, key: Key, isn: U32, n': Net)
    requires Inv(n) && h in n.hosts && HostOk(n.(act := n.act[key := isn]), h, p') && Advances(n.hosts[h], p')
    requires key !in n.act && key.local.addr == h && key.local.port >= FIRST_PRIVATE_PORT && Allocated(p', key.local.port)
    requires n' == Net(n.hosts[h := p'], n.packets, n.act[key := isn], n.pas)
    ensures Inv(n')
  {
    hide HostOk, Known, Allocated, Inv;
    GrowthKeepsHost(n.(act := n'.act), n', h, p');
    MoveKeepsRest(n, h, p', n');
  }

  lemma StartNet(n: Net, h: U32, p': Peer, key: Key, isns: Isns, n': Net)
    requires Inv(n) && h in n.hosts && HostOk(n.(pas := n.pas[key := isns]), h, p') && Advances(n.hosts[h], p')
    requires key !in n.pas && key.local.addr == h && key.local.port < FIRST_PRIVATE_PORT && Known(p', key)
    requires Reverse(key) in n.act && n.act[Reverse(key)] == isns.theirs
    requires n' == Net(n.hosts[h := p'], n.packets, n.act, n.pas[key := isns])
    ensures Inv(n')
  {
    hide HostOk, Known, Allocated, Inv;
    GrowthKeepsHost(n.(pas := n'.pas), n', h, p');
    MoveKeepsRest(n, h, p', n');
  }

  lemma StartStep(n: Net, h: U32, x: Packet, isn: U32, q': Passive, p': Peer, n': Net)
    requires Inv(n) && h in n.hosts && x in n.packets && x.to.addr == h && PeerOk(p')
    requires x.to in n.hosts[h].passive && Key(x.to, x.from) !in n.hosts[h].established
    requires PassiveReceive(n.hosts[h].passive[x.to], x.from, x.header, isn) == Done(q')
    requires x.from !in n.hosts[h].passive[x.to].inflight && x.from in q'.inflight
    requires p' == n.hosts[h].(passive := n.hosts[h].passive[x.to := q'])
    requires n' == Net(n.hosts[h := p'], n.packets, n.act,
                       n.pas[Key(x.to, x.from) := Isns(q'.inflight[x.from].localIsn, q'.inflight[x.from].remoteIsn)])
    ensures Inv(n')
  {
    hide Inv, HostOk, BacklogOk, WrappingAdd, PassiveReceive, ListenOk, PeerOk;
    var p, key := n.hosts[h], Key(x.to, x.from);
    var q := p.passive[x.to];
    InvHost(n, h);
    InvPacket(n, x);
    HostListener(n, h, p, x.to);
    StartNotPending(q, x.from, x.header, isn, q');
    NeverRecorded(n, h, key);
    ListenerStarts(n, q, x.from, x.header, isn, q');
    var n1 := n.(pas := n'.pas);
    GrowthKeepsHost(n, n1, h, p);
    ListenerMoves(n1, h, p, x.to, q', p');
    hide Advances;
    StartNet(n, h, p', key, Isns(isn, x.header.seqNum), n');
  }

  lemma HostListener(n: Net, h: U32, p: Peer, l: Endpoint)
    requires HostOk(n, h, p) && l in p.passive
    ensures PeerOk(p) && ListenOk(n, p.passive[l]) && p.passive[l].local == l
    ensures l.port < FIRST_PRIVATE_PORT && BacklogOk(p.passive[l])
  {
    hide BacklogOk, ListenOk;
    PeerListener(p, l);
  }

  lemma StartNotPending(q: Passive, remote: Endpoint, hdr: Header, isn: U32, q': Passive)
    requires PassiveReceive(q, remote, hdr, isn) == Done(q') && remote !in q.inflight && remote in q'.inflight
    ensures !Pending(q, remote) && Pending(q', remote)
  {
    hide Negotiated, ScaledWindow;
  }

  lemma ReceiveStep(n: Net, h: U32, e: Event, p': Peer, out: Option<Packet>, n': Net)
    requires Inv(n) && h in n.hosts && e.DoReceive? && e.packet in n.packets && e.packet.to.addr == h && PeerOk(p')
    requires Receive(n.hosts[h], e.packet, e.isn, e.arpHit) == Done((p', out))
    requires n' == Net(n.hosts[h := p'], n.packets + Sent(out), n.act, PasAfter(n.pas, n.hosts[h], e, p'))
    ensures Inv(n')
  {
    hide Inv, HostOk, PeerOk, ActiveReceive, PassiveReceive, ListenOk, BacklogOk, Advances;
    var p, x := n.hosts[h], e.packet;
    var key := Key(x.to, x.from);
    InvHost(n, h);
    InvPacket(n, x);
    if BadSource(x.from.addr) || key in p.established {
      SameTables(n, h, p, p');
      QuietMove(n, h, p', out, n');
    } else if key in p.connecting {
      var (a, o) := ActiveReceive(p.connecting[key], x.header, e.arpHit).value;
      AttemptReceives(n, h, p, x, e.arpHit, a, o, p');
      QuietMove(n, h, p', out, n');
    } else if x.to in p.passive {
      var q := p.passive[x.to];
      var q' := PassiveReceive(q, x.from, x.header, e.isn).value;
      HostListener(n, h, p, x.to);
      if StartsHandshake(p, e, p') {
        StartStep(n, h, x, e.isn, q', p', n');
      } else {
        ListenerReceives(n, q, x.from, x.header, e.isn, q');
        ListenerMoves(n, h, p, x.to, q', p');
        QuietMove(n, h, p', out, n');
      }
    } else {
      SameTables(n, h, p, p');
      QuietMove(n, h, p', out, n');
    }
  }

  /** The events that leave the histories alone. */
  lemma QuietStep(n: Net, h: U32, p: Peer, e: Event, p': Peer, out: Option<Packet>)
    requires HostOk(n, h, p) && PeerOk(p') && Possible(p, e) && Step(p, e) == Done((p', out))
    requires !e.DoConnect? && !e.DoReceive?
    ensures HostOk(n, h, p') && Advances(p, p') && (out.Some? ==> PacketOk(n, out.value))
  {
    hide PeerOk, HostOk, Advances;
    match e {
      case DoListen(fd, backlog) => ListenMoves(n, h, p, fd, backlog, p');
      case DoAccept(fd, newFd) => AcceptMoves(n, h, p, fd, newFd, p');
      case DoFinish(fd) => FinishMoves(n, h, p, fd, p');
      case DoConnectTimer(key, arpHit, mss) => ConnectTimerMoves(n, h, p, key, arpHit, mss, p', out);
      case DoAcceptTimer(key, arpHit) => AcceptTimerMoves(n, h, p, key, arpHit, p', out);
      case _ => QuietCall(n, h, p, e, p', out);
    }
  }

  lemma QuietCall(n: Net, h: U32, p: Peer, e: Event, p': Peer, out: Option<Packet>)
    requires HostOk(n, h, p) && PeerOk(p') && Step(p, e) == Done((p', out))
    requires e.OtherFile? || e.DoSocket? || e.DoBind?
    ensures HostOk(n, h, p') && Advances(p, p') && out.None?
  {
    hide PeerOk, HostOk, Advances;
    SameTables(n, h, p, p');
  }

  lemma TalkKeepsInv(n: Net, h: U32, k: Key, header: Header, n': Net)
    requires Inv(n) && h in n.hosts && !header.syn
    requires n' == n.(packets := n.packets + {Packet(k.local, k.remote, header)})
    ensures Inv(n')
  {
    hide Inv, HostOk, PeerOk, Advances;
    var p := n.hosts[h];
    InvHost(n, h);
    HostPeerOk(n, h, p);
    SameTables(n, h, p, p);
    assert n.hosts == n.hosts[h := p];
    QuietMove(n, h, p, Some(Packet(k.local, k.remote, header)), n');
  }

  lemma HostPeerOk(n: Net, h: U32, p: Peer)
    requires HostOk(n, h, p)
    ensures PeerOk(p)
  {}

  /** Every move of every host keeps the invariant. */
  lemma MoveKeepsInv(n: Net, m: Move, n': Net)
    requires Inv(n) && Next(n, m, n')
    ensures Inv(n')
  {
    hide Inv, HostOk, PeerOk, Advances, AbortsPeer;
    var h := m.host;
    match m {
      case Talk(_, key, header) => TalkKeepsInv(n, h, key, header, n');
      case At(_, e) =>
        var p := n.hosts[h];
        InvHost(n, h);
        HostPeerOk(n, h, p);
        TablesStayConsistent(p, e);
        var (p', out) := Step(p, e).value;
        if e.DoConnect? {
          ConnectStep(n, h, e, p', n');
        } else if e.DoReceive? {
          ReceiveStep(n, h, e, p', out, n');
        } else {
          QuietStep(n, h, p, e, p', out);
          QuietMove(n, h, p', out, n');
        }
    }
  }

  lemma StartInv(n: Net)
    requires Start(n)
    ensures Inv(n)
  {}

  lemma {:induction false} RunInv(states: seq<Net>, moves: seq<Move>, i: nat)
    requires Run(states, moves) && i < |states|
    ensures Inv(states[i])
  {
    hide Inv, Start;
    if i == 0 {
      StartInv(states[0]);
    } else {
      RunInv(states, moves, i - 1);
      assert Next(states[i - 1], moves[i - 1], states[i]);
      MoveKeepsInv(states[i - 1], moves[i - 1], states[i]);
    }
  }

  /** A control block of host `h` for pair `k`: in its table, offered to a connecting
      application, or waiting to be accepted. */
  ghost predicate Holds(n: Net, k: Key, b: Block) {
    && k.local.addr in n.hosts
    && var p := n.hosts[k.local.addr];
       || (k in p.established && p.established[k] == b)
       || (k in p.connecting && p.connecting[k].result == Some(Connected(b)))
       || (k.local in p.passive && Accepted(b) in p.passive[k.local].ready && b.remote == k.remote)
  }

  lemma HeldBlockOk(n: Net, k: Key, b: Block)
    requires Inv(n) && Holds(n, k, b)
    ensures BlockOk(n, k, b)
  {
    hide BacklogOk, WrappingAdd, Inv, ActiveBlock, PassiveBlock;
    var p := n.hosts[k.local.addr];
    InvHost(n, k.local.addr);
    if k in p.established && p.established[k] == b {
    } else if k in p.connecting && p.connecting[k].result == Some(Connected(b)) {
      assert AttemptOk(n, k.local.addr, k, p.connecting[k]) && ConnectingOk(p, k);
    } else {
      PeerListener(p, k.local);
      assert ListenOk(n, p.passive[k.local]);
    }
  }

  /** Handshake agreement. In every run, whatever copies of SYN, SYN+ACK and ACK are lost,
      repeated or reordered, if both ends hold a control block for one endpoint pair then each
      one's sender starts where the other's receiver does. */
  lemma HandshakeAgreement(states: seq<Net>, moves: seq<Move>, i: nat, k: Key, b: Block, c: Block)
    requires Run(states, moves) && i < |states|
    requires Holds(states[i], k, b) && Holds(states[i], Reverse(k), c)
    ensures b.sndBase == c.rcvBase && c.sndBase == b.rcvBase
  {
    var n := states[i];
    RunInv(states, moves, i);
    HeldBlockOk(n, k, b);
    HeldBlockOk(n, Reverse(k), c);
    hide HostOk, Holds, WrappingAdd;
    assert Reverse(Reverse(k)) == k;
    if k in n.pas { assert PasOk(n, k); }
    if Reverse(k) in n.pas { assert PasOk(n, Reverse(k)); }
    if k in n.act { assert ActOk(n, k); }
    if Reverse(k) in n.act { assert ActOk(n, Reverse(k)); }
  }

  /** Among hosts that all run this code, in every run, the only step that can abort is the
      receipt of a SYN+ACK whose sender's link address is not cached. */
  lemma OnlyUncachedSynAckAborts(states: seq<Net>, moves: seq<Move>, i: nat, h: U32, e: Event)
    requires Run(states, moves) && i < |states| && h in states[i].hosts && Possible(states[i].hosts[h], e)
    requires e.DoReceive? ==> e.packet in states[i].packets && e.packet.to.addr == h
    ensures Step(states[i].hosts[h], e).Panic? ==>
              e.DoReceive? && !e.arpHit && e.packet.header.syn && e.packet.header.ack
  {
    hide Inv, HostOk, PeerOk, Run, Step, Negotiated;
    var n := states[i];
    RunInv(states, moves, i);
    InvHost(n, h);
    HostPeerOk(n, h, n.hosts[h]);
    TablesStayConsistent(n.hosts[h], e);
    if e.DoReceive? {
      InvPacket(n, e.packet);
    }
  }
}
