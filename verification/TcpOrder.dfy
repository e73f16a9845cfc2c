/** When the stream is the pushes in order. */
module TcpOrder {
  import opened Base
  import opened SeqNumbers
  import opened TcpState
  import opened TcpNetwork
  import opened TcpSafety
  import opened TcpTheorems

  // ----- Push order -----

  /** What was assigned, followed by what is queued, is what was pushed, in order. */
  predicate InOrder(x: Node) {
    Flat(x.sent) + Flat(x.cb.snd.unsentQueue) == Flat(x.pushed)
  }

  /** A push sent at once, ahead of what is already queued. */
  predicate SentAtOnce(x: Node, buf: Bytes, arpHit: bool) {
    |buf| < MOD && arpHit && FastPath(x.cb.snd, |buf|) == Done(true)
  }

  lemma FlatAppendAny(l: seq<Bytes>, buf: Bytes)
    ensures Flat(l + IfAny(buf)) == Flat(l) + buf
  {
    if buf == [] {
      assert l + IfAny(buf) == l;
    } else {
      FlatSnoc(l, buf);
    }
  }

  lemma CancelPrefix(p: Bytes, u: Bytes, v: Bytes)
    ensures p + u == p + v <==> u == v
  {
    assert (p + u)[|p|..] == u && (p + v)[|p|..] == v;
  }

  /** A push keeps push order exactly when it is queued, or the bytes already queued and the
      new buffer read the same in either order; an empty queue is the case that always does. */
  lemma PushOrderExact(x: Node, buf: Bytes, arpHit: bool, x': Node)
    requires ReceiverOk(x) && InOrder(x) && NodeStep(x, Action.Push(buf, arpHit)) == Done(x')
    ensures var q := Flat(x.cb.snd.unsentQueue);
      InOrder(x') <==> (SentAtOnce(x, buf, arpHit) ==> buf + q == q + buf)
  {
    hide Wrap, Total, Live, NodeStep, ReceiverOk, Flat;
    var seg := PushShape(x, buf, arpHit, x');
    if |buf| < MOD {
      var sent, q := Flat(x.sent), Flat(x.cb.snd.unsentQueue);
      FlatSnoc(x.pushed, buf);
      assert Flat(x'.pushed) == sent + (q + buf);
      if SentAtOnce(x, buf, arpHit) {
        FlatAppendAny(x.sent, buf);
        assert Flat(x'.sent) + Flat(x'.cb.snd.unsentQueue) == sent + (buf + q);
        CancelPrefix(sent, buf + q, q + buf);
      } else {
        FlatSnoc(x.cb.snd.unsentQueue, buf);
        assert sent + (q + buf) == Flat(x'.sent) + Flat(x'.cb.snd.unsentQueue);
      }
    }
  }

  lemma TurnKeepsOrder(x: Node, x': Node)
    requires ReceiverOk(x) && InOrder(x) && NodeStep(x, Action.SenderTurn) == Done(x')
    ensures InOrder(x')
  {
    hide Wrap, Total, Live, ReceiverOk, Flat;
    if x'.cb.snd.unacked != x.cb.snd.unacked {
      var seg: Segment;
      if x.cb.snd.windowSize == 0 {
        seg := ProbeShape(x, x');
      } else {
        seg := WindowedShape(x, x');
      }
      FlatAppendAny(x.sent, seg.data);
      assert Flat(x'.sent) + Flat(x'.cb.snd.unsentQueue)
             == Flat(x.sent) + (seg.data + Flat(x'.cb.snd.unsentQueue));
    }
  }

  lemma OtherKeepsOrder(x: Node, a: Action, x': Node)
    requires InOrder(x) && NodeStep(x, a) == Done(x') && !a.Push? && !a.SenderTurn?
    ensures InOrder(x')
  {
    hide Flat, Wrap, Total, Live, PopAcked;
  }

  /** No push of the run is sent ahead of queued bytes. */
  predicate NoOvertaking(states: seq<System>, moves: seq<Move>)
    requires Run(states, moves)
  {
    forall i | 0 <= i < |moves| && moves[i].action.Push? ::
      var x := if moves[i].atA then states[i].a else states[i].b;
      SentAtOnce(x, moves[i].action.buf, moves[i].action.arpHit) ==> Flat(x.cb.snd.unsentQueue) == []
  }

  lemma StepKeepsOrder(x: Node, a: Action, x': Node)
    requires ReceiverOk(x) && InOrder(x) && NodeStep(x, a) == Done(x')
    requires a.Push? && SentAtOnce(x, a.buf, a.arpHit) ==> Flat(x.cb.snd.unsentQueue) == []
    ensures InOrder(x')
  {
    hide NodeStep, InOrder, ReceiverOk;
    match a {
      case Push(buf, arpHit) => PushOrderExact(x, buf, arpHit, x');
      case SenderTurn => TurnKeepsOrder(x, x');
      case _ => OtherKeepsOrder(x, a, x');
    }
  }

  lemma StartInOrder(s: System)
    requires Start(s)
    ensures InOrder(s.a) && InOrder(s.b)
  {}

  lemma {:induction false} RunInOrder(states: seq<System>, moves: seq<Move>, i: nat)
    requires Run(states, moves) && NoOvertaking(states, moves) && i < |states|
    ensures InOrder(states[i].a) && InOrder(states[i].b)
  {
    hide InOrder, NodeStep, Start, Enabled, SentAtOnce, Flat, SenderOk, ReceiverOk, TimerOk, ProbeOk, PacketsOk, Link;
    if i == 0 {
      StartInOrder(states[0]);
    } else {
      RunInOrder(states, moves, i - 1);
      RunInv(states, moves, i - 1);
      var s, m, s' := states[i - 1], moves[i - 1], states[i];
      assert Next(s, m, s');
      if m.atA {
        StepKeepsOrder(s.a, m.action, s'.a);
      } else {
        StepKeepsOrder(s.b, m.action, s'.b);
      }
    }
  }

  /** In a run without overtaking, each application receives a prefix of the bytes the other
      one pushed, in push order. */
  lemma DeliveryIsPushOrder(states: seq<System>, moves: seq<Move>, i: nat)
    requires Run(states, moves) && NoOvertaking(states, moves) && i < |states|
    ensures Flat(states[i].b.pops) + Flat(states[i].b.cb.rcv.recvQueue) <= Flat(states[i].a.pushed)
    ensures Flat(states[i].a.pops) + Flat(states[i].a.cb.rcv.recvQueue) <= Flat(states[i].b.pushed)
  {
    hide Flat, Run, NoOvertaking;
    RunInOrder(states, moves, i);
    DeliveryIsPrefix(states, moves, i);
  }
}
