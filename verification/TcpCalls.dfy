/** Exactly what the calls, segments and timers of opening a connection do, and that a handshake
    whose packets arrive is completed at both ends. */
module TcpCalls {
  import opened Base
  import opened SeqNumbers
  import opened TcpOpen
  import opened TcpPeer
  import opened TcpTables

  // ----- Negotiation -----

  /** `scale` is that of the last window-scale option, or one if there is none. */
  ghost predicate ScaleOf(options: seq<TcpOption>, scale: nat) {
    || (scale == 1 && forall i | 0 <= i < |options| :: !options[i].WindowScale?)
    || (exists i | 0 <= i < |options| ::
          options[i] == WindowScale(scale) && forall j | i < j < |options| :: !options[j].WindowScale?)
  }

  /** `size` is that of the last segment-size option, or 536 if there is none. */
  ghost predicate SizeOf(options: seq<TcpOption>, size: nat) {
    || (size == 536 && forall i | 0 <= i < |options| :: !options[i].MaximumSegmentSize?)
    || (exists i | 0 <= i < |options| ::
          options[i] == MaximumSegmentSize(size) && forall j | i < j < |options| :: !options[j].MaximumSegmentSize?)
  }

  lemma ScaleSnoc(options: seq<TcpOption>, o: TcpOption, scale: nat)
    requires if o.WindowScale? then o.shift == scale else ScaleOf(options, scale)
    ensures ScaleOf(options + [o], scale)
  {
    var all, n := options + [o], |options|;
    if o.WindowScale? {
      assert all[n] == WindowScale(scale);
    } else if i :| 0 <= i < n && options[i] == WindowScale(scale) && forall j | i < j < n :: !options[j].WindowScale? {
      assert all[i] == WindowScale(scale);
    }
  }

  lemma SizeSnoc(options: seq<TcpOption>, o: TcpOption, size: nat)
    requires if o.MaximumSegmentSize? then o.size == size else SizeOf(options, size)
    ensures SizeOf(options + [o], size)
  {
    var all, n := options + [o], |options|;
    if o.MaximumSegmentSize? {
      assert all[n] == MaximumSegmentSize(size);
    } else if i :| 0 <= i < n && options[i] == MaximumSegmentSize(size) &&
                   forall j | i < j < n :: !options[j].MaximumSegmentSize? {
      assert all[i] == MaximumSegmentSize(size);
    }
  }

  lemma {:induction false} NegotiatedIsLast(options: seq<TcpOption>)
    ensures ScaleOf(options, Negotiated(options).0) && SizeOf(options, Negotiated(options).1)
    decreases |options|
  {
    if options == [] {
      assert Negotiated(options) == (1, 536);
    } else {
      hide ScaleOf, SizeOf;
      var before, o := options[..|options| - 1], options[|options| - 1];
      NegotiatedIsLast(before);
      assert options == before + [o];
      ScaleSnoc(before, o, Negotiated(options).0);
      SizeSnoc(before, o, Negotiated(options).1);
    }
  }

  /** The window, scale and segment size that header `h` offers. */
  ghost predicate Terms(h: Header, window: nat, scale: nat, mss: nat) {
    && ScaleOf(h.options, scale) && SizeOf(h.options, mss)
    && scale < 16 && window == h.windowSize * Power2(scale) % 0x1_0000
  }

  lemma TermsExact(h: Header)
    requires ScaledWindow(h.windowSize, Negotiated(h.options).0).Done?
    ensures var (scale, mss) := Negotiated(h.options);
      Terms(h, ScaledWindow(h.windowSize, scale).value, scale, mss)
  {
    hide Power2, Negotiated, ScaleOf, SizeOf;
    NegotiatedIsLast(h.options);
  }

  // ----- The two ends -----

  /** A segment starts a handshake exactly if it is a first SYN and there is room for it. */
  predicate Starts(p: Passive, remote: Endpoint, h: Header) {
    && !Pending(p, remote) && h.syn && !h.ack && !h.rst
    && |p.inflight| + |p.ready| < p.maxBacklog
  }

  /** A segment completes a handshake exactly if it acknowledges the listener's number. */
  predicate Completed(p: Passive, remote: Endpoint, h: Header) {
    remote in p.inflight && h.ack && h.ackNum == WrappingAdd(p.inflight[remote].localIsn, 1)
  }

  /** What a segment does to a listener that does not abort. */
  lemma PassiveReceiveExact(p: Passive, remote: Endpoint, h: Header, isn: U32, q: Passive)
    requires BacklogOk(p) && PassiveReceive(p, remote, h, isn) == Done(q)
    ensures Starts(p, remote, h) ==>
      && remote in q.inflight && q == p.(inflight := p.inflight[remote := q.inflight[remote]])
      && var f := q.inflight[remote];
         f.localIsn == isn && f.remoteIsn == h.seqNum && f.left == Some(3) &&
         Terms(h, f.windowSize, f.windowScale, f.mss)
    ensures Completed(p, remote, h) ==>
      && |q.ready| == |p.ready| + 1 && q.ready[|p.ready|].Accepted?
      && var b, f := q.ready[|p.ready|].block, p.inflight[remote];
         && q == p.(inflight := p.inflight - {remote}, endpoints := p.endpoints + {remote},
                    ready := p.ready + [Accepted(b)])
         && b.local == p.local && b.remote == remote
         && b.sndBase == WrappingAdd(f.localIsn, 1) && b.rcvBase == WrappingAdd(f.remoteIsn, 1)
         && b.windowSize == f.windowSize && b.windowScale == f.windowScale && b.mss == f.mss
    ensures !Starts(p, remote, h) && !Completed(p, remote, h) ==> q == p
  {
    hide Negotiated, Power2, Terms, Remotes, NoRepeats;
    if Starts(p, remote, h) { TermsExact(h); }
  }

  /** What a segment does to an attempt to connect that does not abort: a reset refuses it, the
      SYN+ACK for its number completes it and is acknowledged, anything else is ignored. */
  lemma ActiveReceiveExact(a: Active, h: Header, arpHit: bool, c: Active, out: Option<Header>)
    requires ActiveReceive(a, h, arpHit) == Done((c, out))
    ensures h.rst ==> c == a.(result := Some(Refused)) && out == None
    ensures Completes(a, h) ==>
      && c.result.Some? && c.result.value.Connected? && c == a.(result := c.result)
      && var b := c.result.value.block;
         && b.local == a.local && b.remote == a.remote
         && b.sndBase == WrappingAdd(a.isn, 1) && b.rcvBase == WrappingAdd(h.seqNum, 1)
         && Terms(h, b.windowSize, b.windowScale, b.mss)
         && out.Some? && out.value.ack && !out.value.syn && !out.value.rst && out.value.ackNum == b.rcvBase
    ensures !h.rst && !Completes(a, h) ==> c == a && out == None
  {
    hide Negotiated, Power2, Terms;
    if Completes(a, h) { TermsExact(h); }
  }

  /** Accepting is first come, first served: it hands out the oldest entry; segments and timers
      only add entries behind. */
  lemma ReadyIsQueue(p: Passive, e: PassiveEvent, q: Passive)
    requires BacklogOk(p) && PassiveStep(p, e) == Done(q)
    ensures !e.AcceptOne? ==> |q.ready| <= |p.ready| + 1 && p.ready == q.ready[..|p.ready|]
    ensures e.AcceptOne? ==>
      && PollAccept(p).Done?
      && var r := PollAccept(p).value.1;
         if p.ready == [] then r == None && q == p
         else r == Some(p.ready[0]) && q == p.(ready := p.ready[1..], endpoints := p.endpoints - RemoteOf(p.ready[0]))
  {
    hide Negotiated, Power2, BacklogOk;
    PollKeepsBacklog(p);
  }

  // ----- Retries -----

  /** An attempt, and how many SYNs it sent, after `n` wake-ups of its retry loop. */
  function AfterWakes(a: Active, mss: nat, n: nat): (Active, nat) {
    if n == 0 then (a, 0)
    else
      var (b, sent) := AfterWakes(a, mss, n - 1);
      var (c, out) := ActiveTimer(b, true, mss);
      var syn := Header(true, false, false, a.isn, 0, 1024, [MaximumSegmentSize(mss)]);
      (c, if out == Some(syn) then sent + 1 else sent)
  }

  /** An attempt sends its SYN three times, and gives up at the fourth wake-up. */
  lemma {:induction false} ThreeSyns(local: Endpoint, remote: Endpoint, isn: U32, mss: nat, n: nat)
    ensures var (a, sent) := AfterWakes(NewActive(local, remote, isn), mss, n);
      && a.local == local && a.remote == remote && a.isn == isn
      && sent == (if n <= 3 then n else 3)
      && a.result == (if n <= 3 then None else Some(TimedOut))
      && a.left == (if n <= 3 then Some(3 - n) else None)
  {
    if n > 0 { ThreeSyns(local, remote, isn, mss, n - 1); }
  }

  /** The same on the other side, for one handshake. */
  function AfterPassiveWakes(p: Passive, remote: Endpoint, n: nat): (Passive, nat)
    requires remote in p.inflight
    ensures remote in AfterPassiveWakes(p, remote, n).0.inflight
  {
    if n == 0 then (p, 0)
    else
      var (q, sent) := AfterPassiveWakes(p, remote, n - 1);
      var f := p.inflight[remote];
      var (r, out) := PassiveTimer(q, remote, true);
      var synAck := Header(true, true, false, f.localIsn, WrappingAdd(f.remoteIsn, 1), 1024, []);
      (r, if out == Some(synAck) then sent + 1 else sent)
  }

  /** A listener sends its SYN+ACK three times, and reports a time-out at the fourth wake-up. */
  lemma {:induction false} ThreeSynAcks(p: Passive, remote: Endpoint, n: nat)
    requires remote in p.inflight && p.inflight[remote].left == Some(3)
    ensures var (q, sent) := AfterPassiveWakes(p, remote, n);
      && sent == (if n <= 3 then n else 3)
      && q == p.(inflight := p.inflight[remote := p.inflight[remote].(left := if n <= 3 then Some(3 - n) else None)],
                 ready := if n <= 3 then p.ready else p.ready + [HandshakeTimeout])
  {
    hide WrappingAdd;
    if n == 0 {
      var f := p.inflight[remote];
      assert f.(left := Some(3)) == f && p.inflight[remote := f] == p.inflight;
    } else {
      ThreeSynAcks(p, remote, n - 1);
    }
  }

  // ----- Calls -----

  /** A new socket is inactive and unbound. */
  lemma OpenExact(p: Peer, fd: nat, p': Peer)
    requires OpenSocket(p, fd) == Done(p')
    ensures fd !in p.sockets && fd in p'.sockets && p'.sockets[fd] == Inactive(None) && fd in p'.files
    ensures p' == p.(files := p'.files, sockets := p'.sockets) && p'.files == p.files + {fd}
    ensures forall g | g in p.sockets :: g in p'.sockets && p'.sockets[g] == p.sockets[g]
    ensures p'.sockets.Keys == p.sockets.Keys + {fd}
  {
  }

  /** A bind takes effect exactly on an inactive socket and below the private ports, and then a
      listen on that socket, unless somebody listens there already, makes it the endpoint's
      listener, with nothing pending; no other socket or table changes. */
  lemma BindListenExact(p: Peer, fd: nat, addr: Endpoint, backlog: nat)
    ensures var q := Bind(p, fd, addr);
      var r := Listen(q, fd, backlog);
      if fd in p.sockets && p.sockets[fd].Inactive? && addr.port < 49152 then
        && q == p.(sockets := p.sockets[fd := Inactive(Some(addr))])
        && if addr in p.passive then r == q
           else
             && r == p.(sockets := p.sockets[fd := Listening(addr)], passive := p.passive[addr := r.passive[addr]])
             && r.passive[addr].local == addr && r.passive[addr].maxBacklog == backlog
             && r.passive[addr].inflight == map[] && r.passive[addr].ready == [] && r.passive[addr].endpoints == {}
      else q == p
  {
    if fd in p.sockets && p.sockets[fd].Inactive? && addr.port < 49152 {
      assert p.sockets[fd := Inactive(Some(addr))][fd := Listening(addr)] == p.sockets[fd := Listening(addr)];
    }
  }

  /** A listen changes nothing unless the socket is inactive and bound. */
  lemma ListenExact(p: Peer, fd: nat, backlog: nat)
    requires !(fd in p.sockets && p.sockets[fd].Inactive? && p.sockets[fd].bound.Some?)
    ensures Listen(p, fd, backlog) == p
  {
  }

  /** A connect on an inactive socket takes the lowest free private port, starts an attempt there
      and makes the socket connecting; it fails exactly if no private port is free. */
  lemma ConnectExact(p: Peer, fd: nat, remote: Endpoint, isn: U32, p': Peer)
    requires PeerOk(p) && Connect(p, fd, remote, isn) == Done(p')
    ensures p' == p <==> !(fd in p.sockets && p.sockets[fd].Inactive?) || forall i | 0 <= i < |p.ports| :: !p.ports[i]
    ensures p' != p ==> exists i | 0 <= i < |p.ports| ::
      && p.ports[i] && (forall j | 0 <= j < i :: !p.ports[j])
      && var local := Endpoint(p.addr, 49152 + i);
         var key := Key(local, remote);
         p' == p.(ports := p.ports[i := false], sockets := p.sockets[fd := Connecting(key)],
                  connecting := p.connecting[key := Active(local, remote, isn, Some(3), None)])
  {
    hide PeerOk, FirstFree;
    FirstFreeExact(p.ports, 0);
    PortsFit(p);
    var r := FirstFree(p.ports, 0);
    if fd in p.sockets && p.sockets[fd].Inactive? && r.Some? {
      assert p'.ports[r.value] != p.ports[r.value];
    }
  }

  lemma PortsFit(p: Peer)
    requires PeerOk(p)
    ensures |p.ports| == NUM_EPHEMERAL
  {
  }

  lemma {:induction false} FirstFreeExact(ports: seq<bool>, i: nat)
    requires i <= |ports|
    ensures var r := FirstFree(ports, i);
      && (r.None? <==> forall j | i <= j < |ports| :: !ports[j])
      && (r.Some? ==> forall j | i <= j < r.value :: !ports[j])
    decreases |ports| - i
  {
    if i < |ports| && !ports[i] { FirstFreeExact(ports, i + 1); }
  }

  /** Polling a connect: a finished attempt is over, and if it succeeded then its control block is
      the connection of its endpoint pair and the socket is established; while it is not
      finished nothing changes. */
  lemma FinishExact(p: Peer, fd: nat, p': Peer)
    requires FinishConnect(p, fd) == Done(p')
    ensures
      if fd in p.sockets && p.sockets[fd].Connecting? && p.sockets[fd].key in p.connecting &&
         p.connecting[p.sockets[fd].key].result.Some? then
        var key := p.sockets[fd].key;
        && p' == p.(connecting := p'.connecting, established := p'.established, sockets := p'.sockets)
        && p'.connecting == p.connecting - {key}
        && match p.connecting[key].result.value
           case Connected(b) =>
             && p'.established == p.established[key := b] && p'.sockets == p.sockets[fd := Established(key)]
           case _ => p'.established == p.established && p'.sockets == p.sockets
      else p' == p
  {
  }

  /** Accepting on a listening socket takes its oldest entry; if that is a connection then the new
      descriptor is an established socket for it and the control block is its connection. */
  lemma AcceptExact(p: Peer, fd: nat, newFd: nat, p': Peer)
    requires PeerOk(p) && Accept(p, fd, newFd) == Done(p')
    ensures !(fd in p.sockets && p.sockets[fd].Listening?) ==> p' == p
    ensures fd in p.sockets && p.sockets[fd].Listening? ==>
      && var l := p.sockets[fd].local;
      && l in p.passive && l in p'.passive
      && p' == p.(files := p'.files, sockets := p'.sockets, established := p'.established,
                  passive := p.passive[l := p'.passive[l]])
      && var ready := p.passive[l].ready;
         if ready == [] || ready[0].HandshakeTimeout? then
           && p'.sockets == p.sockets && p'.established == p.established && p'.files == p.files
           && p'.passive[l].ready == (if ready == [] then [] else ready[1..])
         else
           var b := ready[0].block;
           && p'.passive[l].ready == ready[1..] && b.local == l
           && p'.files == p.files + {newFd} && p'.sockets == p.sockets[newFd := Established(Key(l, b.remote))]
           && p'.established == p.established[Key(l, b.remote) := b]
  {
    hide BacklogOk, ConnectingOk, EstablishedOk;
    if fd in p.sockets && p.sockets[fd].Listening? {
      var l := p.sockets[fd].local;
      PeerListener(p, l);
      var q := p.passive[l];
      if q.ready != [] { assert q.ready[0] in q.ready; }
      assert PollAccept(q).Done?;
      assert PollAccept(q).value.0 == p'.passive[l];
      if q.ready == [] { assert p.passive[l := q] == p.passive; }
    }
  }

  /** Who handles a segment: the established connection, the attempt or the listener of its
      endpoints, in this order; and nobody else's entry changes. A segment for nobody is answered
      with a reset, if the link address is known. */
  lemma DispatchExact(p: Peer, k: Packet, isn: U32, arpHit: bool, p': Peer, out: Option<Packet>)
    requires Receive(p, k, isn, arpHit) == Done((p', out))
    ensures var key := Key(k.to, k.from);
      if BadSource(k.from.addr) || key in p.established then p' == p && out == None
      else if key in p.connecting then
        && ActiveReceive(p.connecting[key], k.header, arpHit).Done?
        && var (a, reply) := ActiveReceive(p.connecting[key], k.header, arpHit).value;
           p' == p.(connecting := p.connecting[key := a]) &&
           out == (if reply.Some? then Some(Packet(k.to, k.from, reply.value)) else None)
      else if k.to in p.passive then
        && PassiveReceive(p.passive[k.to], k.from, k.header, isn) == Done(p'.passive[k.to])
        && p' == p.(passive := p.passive[k.to := p'.passive[k.to]]) && out == None
      else
        && p' == p
        && (if arpHit then out.Some? && out.value.from == k.to && out.value.to == k.from && out.value.header.rst
            else out == None)
  {
    hide ActiveReceive, PassiveReceive;
  }
}
