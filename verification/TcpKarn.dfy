/** Karn's rule (section 3 of RFC 6298): which segments contribute round-trip samples. */
module TcpKarn {
  import opened Base
  import opened SeqNumbers
  import opened TcpState
  import TcpNetwork
  import TcpSafety
  import Rto

  /** A control block with its history. Segments are numbered in the order they entered the
      queue of unacknowledged segments, so the front one is number `dropped`. Noted are the
      segments that the retransmitter resent, those that the sender loop repeated as probes,
      those sampled, and those that an acknowledgement off the segment boundaries cut: the loop
      drops such a segment without a sample. */
  datatype Track = Track(
    cb: ControlBlock, dropped: nat, resent: set<nat>, probed: set<nat>, sampled: set<nat>, cut: set<nat>)

  /** Positions, in queue `q`, of the segments whose round trip is sampled when `n` bytes are
      acknowledged. */
  function SampledAt(q: seq<Unacked>, n: nat): (r: seq<nat>)
    ensures forall k | 0 <= k < |r| :: r[k] < |q| && q[r[k]].initialTx.Some?
  {
    if q == [] || |q[0].bytes| > n then []
    else
      (if q[0].initialTx.Some? then [0] else [])
      + if n == |q[0].bytes| then [] else Shift(SampledAt(q[1..], n - |q[0].bytes|))
  }

  function Shift(s: seq<nat>): (r: seq<nat>)
    ensures |r| == |s| && forall k | 0 <= k < |s| :: r[k] == s[k] + 1
  {
    seq(|s|, k requires 0 <= k < |s| => s[k] + 1)
  }

  /** The estimator after the round trips of the given positions are added in turn. */
  function AddSamples(rto: Rto.Estimator, q: seq<Unacked>, at: seq<nat>, now: real): Rto.Estimator
    requires forall k | 0 <= k < |at| :: at[k] < |q| && q[at[k]].initialTx.Some?
    decreases |at|
  {
    if at == [] then rto
    else AddSamples(Rto.AddSample(rto, now - q[at[0]].initialTx.value), q, at[1..], now)
  }

  lemma {:induction false} ShiftSamples(rto: Rto.Estimator, q: seq<Unacked>, at: seq<nat>, now: real)
    requires q != []
    requires forall k | 0 <= k < |at| :: at[k] < |q[1..]| && q[1..][at[k]].initialTx.Some?
    ensures AddSamples(rto, q, Shift(at), now) == AddSamples(rto, q[1..], at, now)
    decreases |at|
  {
    if at != [] {
      assert Shift(at)[1..] == Shift(at[1..]);
      ShiftSamples(Rto.AddSample(rto, now - q[1..][at[0]].initialTx.value), q, at[1..], now);
    }
  }

  /** The estimator after the front segment is looked at. */
  function FrontSample(q: seq<Unacked>, now: real, rto: Rto.Estimator): Rto.Estimator
    requires q != []
  {
    if q[0].initialTx.Some? then Rto.AddSample(rto, now - q[0].initialTx.value) else rto
  }

  lemma ConsSample(q: seq<Unacked>, n: nat)
    ensures q == [] || |q[0].bytes| > n ==> SampledAt(q, n) == []
    ensures q != [] && |q[0].bytes| == n ==> SampledAt(q, n) == if q[0].initialTx.Some? then [0] else []
    ensures q != [] && |q[0].bytes| < n ==>
      var tail := Shift(SampledAt(q[1..], n - |q[0].bytes|));
      SampledAt(q, n) == if q[0].initialTx.Some? then [0] + tail else tail
  {
  }

  /** `SampledAt` names the samples the acknowledgement loop feeds to the estimator. */
  lemma {:induction false} SampledAtExact(q: seq<Unacked>, n: nat, now: real, rto: Rto.Estimator)
    ensures PopAcked(q, n, now, rto).rto == AddSamples(rto, q, SampledAt(q, n), now)
    decreases |q|
  {
    hide Rto.AddSample, PopAcked, SampledAt, AddSamples;
    PopStep(q, n, now, rto);
    ConsSample(q, n);
    AddNone(rto, q, now);
    if q != [] && |q[0].bytes| <= n {
      AddFront(rto, q, [], now);
      AddNone(FrontSample(q, now, rto), q, now);
      if |q[0].bytes| < n {
        var tail := SampledAt(q[1..], n - |q[0].bytes|);
        var next := FrontSample(q, now, rto);
        SampledAtExact(q[1..], n - |q[0].bytes|, now, next);
        ShiftSamples(next, q, tail, now);
        AddFront(rto, q, Shift(tail), now);
        assert AddSamples(rto, q, SampledAt(q, n), now) == AddSamples(next, q, Shift(tail), now);
      } else {
        assert [0] + [] == [0];
      }
    }
  }

  lemma AddNone(rto: Rto.Estimator, q: seq<Unacked>, now: real)
    ensures AddSamples(rto, q, [], now) == rto
  {
  }

  lemma AddFront(rto: Rto.Estimator, q: seq<Unacked>, at: seq<nat>, now: real)
    requires q != [] && forall k | 0 <= k < |at| :: at[k] < |q| && q[at[k]].initialTx.Some?
    ensures q[0].initialTx.Some? ==> AddSamples(rto, q, [0] + at, now) == AddSamples(FrontSample(q, now, rto), q, at, now)
  {
    hide Rto.AddSample;
    assert ([0] + at)[1..] == at;
  }

  /** ... and it names every one: of the segments that an acknowledgement removes, exactly those
      that still have their timestamp are sampled, but for a last one that is cut because the
      acknowledgement falls inside it. */
  lemma {:induction false} SampledAtComplete(q: seq<Unacked>, n: nat, now: real, rto: Rto.Estimator, i: nat)
    requires i < |q|
    ensures var p := PopAcked(q, n, now, rto);
      i in SampledAt(q, n) <==>
        i < |q| - |p.rest| && q[i].initialTx.Some? && !(i == |q| - |p.rest| - 1 && !p.onBoundary)
    decreases |q|
  {
    hide Rto.AddSample, PopAcked, SampledAt, FrontSample;
    PopStepFront(q, n, now, rto);
    ConsHas(q, n, i);
    if |q[0].bytes| < n {
      var next, left := FrontSample(q, now, rto), n - |q[0].bytes|;
      CutInside(q[1..], left, now, next);
      if i > 0 {
        SampledAtComplete(q[1..], left, now, next, i - 1);
        assert q[1..][i - 1] == q[i];
      }
      assert PopAcked(q, n, now, rto) == PopAcked(q[1..], left, now, next);
    }
  }

  /** How many bytes the segments of `q` hold. */
  function Size(q: seq<Unacked>): nat { if q == [] then 0 else |q[0].bytes| + Size(q[1..]) }

  /** An acknowledgement of `n` bytes removes segments from the front, no more than it must, until
      they hold `n` bytes or none is left; it is off the boundaries if they hold more. */
  lemma {:induction false} PopCovers(q: seq<Unacked>, n: nat, now: real, rto: Rto.Estimator, j: nat)
    requires n > 0
    ensures var p := PopAcked(q, n, now, rto);
      var k := |q| - |p.rest|;
      && (p.onBoundary <==> Size(q[..k]) <= n)
      && (Size(q[..k]) >= n || k == |q|)
      && (j < k ==> Size(q[..j]) < n)
    decreases |q|
  {
    hide Rto.AddSample, PopAcked, FrontSample;
    if q == [] {
      PopStep(q, n, now, rto);
    } else {
      PopStepFront(q, n, now, rto);
      var k := |q| - |PopAcked(q, n, now, rto).rest|;
      assert Size([]) == 0 && q[..0] == [];
      FrontSize(q, k);
      FrontSize(q, j);
      if |q[0].bytes| < n {
        PopCovers(q[1..], n - |q[0].bytes|, now, FrontSample(q, now, rto), if j > 0 then j - 1 else 0);
      } else {
        assert q[1..][..0] == [];
      }
    }
  }

  lemma FrontSize(q: seq<Unacked>, k: nat)
    requires q != []
    ensures 0 < k <= |q| ==> Size(q[..k]) == |q[0].bytes| + Size(q[1..][..k - 1])
  {
    if 0 < k <= |q| { assert q[..k][1..] == q[1..][..k - 1]; }
  }

  /** What an acknowledgement does to any sender at all: nothing unless it covers something that
      is in flight; else it removes the segments it covers, feeds the estimator the round trips
      of those that have a timestamp, moves the base unless it falls inside a segment, and
      stops the timer if everything is acknowledged or starts it anew. */
  lemma AckExact(s: Sender, ackNum: U32, now: real, j: nat)
    ensures var acked, r := WrappingSub(ackNum, s.base), RemoteAck(s, ackNum, now);
      if acked == 0 || acked > WrappingSub(s.sent, s.base) then r == s
      else
        var k := |s.unacked| - |r.unacked|;
        && k >= 0 && r.unacked == s.unacked[k..]
        && (Size(s.unacked[..k]) >= acked || k == |s.unacked|) && (j < k ==> Size(s.unacked[..j]) < acked)
        && r.rto == AddSamples(s.rto, s.unacked, SampledAt(s.unacked, acked), now)
        && r.base == (if Size(s.unacked[..k]) <= acked then ackNum else s.base)
        && r.retransmitDeadline == (if ackNum == s.sent then None else Some(now + s.rto.rto))
        && r == s.(unacked := r.unacked, rto := r.rto, base := r.base, retransmitDeadline := r.retransmitDeadline)
  {
    hide PopAcked, SampledAt, AddSamples, Size, WrappingSub, WrappingAdd;
    var acked := WrappingSub(ackNum, s.base);
    SampledAtExact(s.unacked, acked, now, s.rto);
    AddBack(s.base, ackNum);
    if acked > 0 { PopCovers(s.unacked, acked, now, s.rto, j); }
  }

  lemma AddBack(base: U32, ackNum: U32)
    ensures WrappingAdd(base, WrappingSub(ackNum, base)) == ackNum
  {
  }

  lemma PopStepFront(q: seq<Unacked>, n: nat, now: real, rto: Rto.Estimator)
    requires q != []
    ensures PopAcked(q, n, now, rto) ==
      if |q[0].bytes| > n then Popped(q[1..], rto, false)
      else if |q[0].bytes| == n then Popped(q[1..], FrontSample(q, now, rto), true)
      else PopAcked(q[1..], n - |q[0].bytes|, now, FrontSample(q, now, rto))
  {
    hide Rto.AddSample, PopAcked;
    PopStep(q, n, now, rto);
  }

  lemma ConsHas(q: seq<Unacked>, n: nat, i: nat)
    requires q != []
    ensures i in SampledAt(q, n) <==>
      if |q[0].bytes| > n then false
      else if i == 0 then q[0].initialTx.Some?
      else |q[0].bytes| < n && i - 1 in SampledAt(q[1..], n - |q[0].bytes|)
  {
    hide SampledAt;
    ConsSample(q, n);
    if |q[0].bytes| < n {
      ShiftHas(SampledAt(q[1..], n - |q[0].bytes|), i);
    }
  }

  lemma ShiftHas(s: seq<nat>, i: nat)
    ensures i in Shift(s) <==> i > 0 && i - 1 in s
  {
    if i in Shift(s) {
      var k :| 0 <= k < |s| && Shift(s)[k] == i;
      assert s[k] == i - 1;
    }
    if i > 0 && i - 1 in s {
      var k :| 0 <= k < |s| && s[k] == i - 1;
      assert Shift(s)[k] == i;
    }
  }

  /** An acknowledgement that cuts a segment removes one. */
  lemma {:induction false} CutInside(q: seq<Unacked>, n: nat, now: real, rto: Rto.Estimator)
    ensures !PopAcked(q, n, now, rto).onBoundary ==> |PopAcked(q, n, now, rto).rest| < |q|
    decreases |q|
  {
    hide Rto.AddSample, PopAcked;
    PopStep(q, n, now, rto);
    if q != [] && |q[0].bytes| < n {
      PopStepFront(q, n, now, rto);
      CutInside(q[1..], n - |q[0].bytes|, now, FrontSample(q, now, rto));
    }
  }

  /** Bytes an incoming segment acknowledges, or zero if the sender ignores it. */
  function AckedBytes(s: Sender, h: Header): nat {
    var acked := WrappingSub(h.ackNum, s.base);
    if !h.ack || acked > WrappingSub(s.sent, s.base) then 0 else acked
  }

  function NewlySampled(t: Track, e: Event): set<nat> {
    if !e.Receive? then {}
    else
      var n := AckedBytes(t.cb.snd, e.seg.header);
      if n == 0 then {}
      else set k | 0 <= k < |SampledAt(t.cb.snd.unacked, n)| :: t.dropped + SampledAt(t.cb.snd.unacked, n)[k]
  }

  /** The segment that a received acknowledgement cuts, if any. */
  function NewlyCut(t: Track, e: Event): set<nat> {
    if !e.Receive? then {}
    else
      var q := t.cb.snd.unacked;
      var n := AckedBytes(t.cb.snd, e.seg.header);
      var p := PopAcked(q, n, t.cb.clock, t.cb.snd.rto);
      if n == 0 || p.onBoundary || |p.rest| >= |q| then {} else {t.dropped + |q| - |p.rest| - 1}
  }

  function TrackStep(t: Track, e: Event): Outcome<Track> {
    var f :- Step(t.cb, e);
    Done(Track(
         f.cb,
         if e.Receive? && |f.cb.snd.unacked| <= |t.cb.snd.unacked|
         then t.dropped + |t.cb.snd.unacked| - |f.cb.snd.unacked| else t.dropped,
         if e.RetransmitTimer? && f.out.Some? then t.resent + {t.dropped} else t.resent,
         if e.ProbeTimer? && f.out.Some? && t.cb.snd.unacked != []
         then t.probed + {t.dropped + |t.cb.snd.unacked| - 1} else t.probed,
         t.sampled + NewlySampled(t, e),
         t.cut + NewlyCut(t, e)))
  }

  function NewTrack(cb: ControlBlock): Track { Track(cb, 0, {}, {}, {}, {}) }

  function TrackRun(cb: ControlBlock, events: seq<Event>): Outcome<Track>
    decreases |events|
  {
    if events == [] then Done(NewTrack(cb))
    else
      var t :- TrackRun(cb, events[..|events| - 1]);
      TrackStep(t, events[|events| - 1])
  }

  /** A queued segment has lost its timestamp exactly when the retransmitter resent it, and
      timestamps never lie in the future. */
  predicate QueueKarn(t: Track) {
    var q := t.cb.snd.unacked;
    && (forall i | 0 <= i < |q| :: q[i].initialTx.None? <==> t.dropped + i in t.resent)
    && (forall i | 0 <= i < |q| :: q[i].initialTx.Some? ==> q[i].initialTx.value <= t.cb.clock)
    && (forall id | id in t.resent :: id < t.dropped + |q|)
  }

  /** Of the removed segments exactly those neither resent nor cut were sampled. */
  predicate SamplesKarn(t: Track) {
    && (forall id | id in t.sampled :: id < t.dropped)
    && (forall id | id in t.cut :: id < t.dropped)
    && (forall id: nat | id < t.dropped :: id in t.sampled <==> id !in t.resent && id !in t.cut)
  }

  predicate KarnOk(t: Track) { QueueKarn(t) && SamplesKarn(t) }

  /** A receive removes `d` segments from the front, cuts some of them, and samples exactly the
      others that still have their timestamp. */
  lemma ReceiveShape(t: Track, seg: Segment, t': Track) returns (d: nat)
    requires TrackStep(t, Event.Receive(seg)) == Done(t')
    ensures d <= |t.cb.snd.unacked| && t'.cb.snd.unacked == t.cb.snd.unacked[d..]
    ensures t'.dropped == t.dropped + d && t'.resent == t.resent && t'.cb.clock == t.cb.clock
    ensures t.sampled <= t'.sampled && t.cut <= t'.cut
    ensures forall id | id in t'.cut && id !in t.cut :: t.dropped <= id < t.dropped + d
    ensures forall id | id in t'.sampled && id !in t.sampled :: t.dropped <= id < t.dropped + d
    ensures KarnOk(t) ==> forall id | t.dropped <= id < t.dropped + d ::
      id in t'.sampled <==> t.cb.snd.unacked[id - t.dropped].initialTx.Some? && id !in t'.cut
  {
    hide Step, AckedBytes, SampledAt, PopAcked, TrackStep, NewlySampled, NewlyCut, KarnOk;
    ReceiveQueue(t, seg, t');
    var q := t.cb.snd.unacked;
    d := |q| - |t'.cb.snd.unacked|;
    forall i: nat | i < |q|
      ensures t.dropped + i in NewlySampled(t, Event.Receive(seg)) <==>
        i < d && q[i].initialTx.Some? && t.dropped + i !in NewlyCut(t, Event.Receive(seg))
    {
      ReceivedId(t, seg, t', i);
    }
    NewIds(t, seg, t');
    forall id | t.dropped <= id < t.dropped + d
      ensures KarnOk(t) ==> (id in t'.sampled <==> q[id - t.dropped].initialTx.Some? && id !in t'.cut)
    {
      assert id == t.dropped + (id - t.dropped);
      KarnOld(t, id);
    }
  }

  lemma KarnOld(t: Track, id: nat)
    requires id >= t.dropped
    ensures KarnOk(t) ==> id !in t.sampled && id !in t.cut
  {
  }

  /** Which segments a receive samples and cuts, one by one. */
  lemma ReceivedId(t: Track, seg: Segment, t': Track, i: nat)
    requires TrackStep(t, Event.Receive(seg)) == Done(t') && i < |t.cb.snd.unacked|
    ensures var q := t.cb.snd.unacked;
      |t'.cb.snd.unacked| <= |q| &&
      (t.dropped + i in NewlySampled(t, Event.Receive(seg)) <==>
        i < |q| - |t'.cb.snd.unacked| && q[i].initialTx.Some? && t.dropped + i !in NewlyCut(t, Event.Receive(seg)))
  {
    hide Step, AckedBytes, SampledAt, PopAcked, TrackStep, NewlySampled, NewlyCut;
    ReceiveQueue(t, seg, t');
    var q, n := t.cb.snd.unacked, AckedBytes(t.cb.snd, seg.header);
    SampledMeans(t, seg, i);
    CutMeans(t, seg, i);
    if n > 0 {
      SampledAtComplete(q, n, t.cb.clock, t.cb.snd.rto, i);
    }
  }

  lemma SampledMeans(t: Track, seg: Segment, i: nat)
    ensures var n := AckedBytes(t.cb.snd, seg.header);
      t.dropped + i in NewlySampled(t, Event.Receive(seg)) <==> n > 0 && i in SampledAt(t.cb.snd.unacked, n)
  {
    hide AckedBytes, SampledAt;
    SampledIds(t, AckedBytes(t.cb.snd, seg.header), t.dropped + i);
  }

  lemma CutMeans(t: Track, seg: Segment, i: nat)
    requires i < |t.cb.snd.unacked|
    ensures var q, n := t.cb.snd.unacked, AckedBytes(t.cb.snd, seg.header);
      var p := PopAcked(q, n, t.cb.clock, t.cb.snd.rto);
      t.dropped + i in NewlyCut(t, Event.Receive(seg)) <==> n > 0 && !p.onBoundary && i == |q| - |p.rest| - 1
  {
    hide AckedBytes, PopAcked;
  }

  /** A receive samples and cuts only segments that it removes. */
  lemma NewIds(t: Track, seg: Segment, t': Track)
    requires TrackStep(t, Event.Receive(seg)) == Done(t')
    ensures t'.sampled == t.sampled + NewlySampled(t, Event.Receive(seg)) && t'.cut == t.cut + NewlyCut(t, Event.Receive(seg))
    ensures forall id | id in NewlySampled(t, Event.Receive(seg)) || id in NewlyCut(t, Event.Receive(seg)) ::
      t.dropped <= id < t'.dropped
  {
    TrackSets(t, seg, t');
    hide TrackStep, NewlySampled, NewlyCut;
    forall id | id in NewlySampled(t, Event.Receive(seg)) || id in NewlyCut(t, Event.Receive(seg))
      ensures t.dropped <= id < t'.dropped
    {
      NewId(t, seg, t', id);
    }
  }

  lemma NewId(t: Track, seg: Segment, t': Track, id: nat)
    requires TrackStep(t, Event.Receive(seg)) == Done(t')
    requires id in NewlySampled(t, Event.Receive(seg)) || id in NewlyCut(t, Event.Receive(seg))
    ensures t.dropped <= id < t'.dropped
  {
    hide Step, AckedBytes, SampledAt, PopAcked, TrackStep;
    ReceiveQueue(t, seg, t');
    if id in NewlySampled(t, Event.Receive(seg)) {
      var n := AckedBytes(t.cb.snd, seg.header);
      SampledIds(t, n, id);
      SampledAtComplete(t.cb.snd.unacked, n, t.cb.clock, t.cb.snd.rto, id - t.dropped);
    }
  }

  lemma TrackSets(t: Track, seg: Segment, t': Track)
    requires TrackStep(t, Event.Receive(seg)) == Done(t')
    ensures t'.sampled == t.sampled + NewlySampled(t, Event.Receive(seg)) && t'.cut == t.cut + NewlyCut(t, Event.Receive(seg))
  {
    hide Step, NewlySampled, NewlyCut;
  }

  /** What a receive does to the queue. */
  lemma ReceiveQueue(t: Track, seg: Segment, t': Track)
    requires TrackStep(t, Event.Receive(seg)) == Done(t')
    ensures var q, n := t.cb.snd.unacked, AckedBytes(t.cb.snd, seg.header);
      && t'.cb.snd.unacked == (if n == 0 then q else PopAcked(q, n, t.cb.clock, t.cb.snd.rto).rest)
      && |t'.cb.snd.unacked| <= |q| && t'.cb.snd.unacked == q[|q| - |t'.cb.snd.unacked|..]
      && t'.dropped == t.dropped + |q| - |t'.cb.snd.unacked| && t'.resent == t.resent && t'.cb.clock == t.cb.clock
  {
    hide Step, PopAcked, AckedBytes, NewlySampled, NewlyCut, RemoteAck;
    ReceiveStep(t.cb, seg);
  }

  lemma ReceiveStep(cb: ControlBlock, seg: Segment)
    ensures var f, q, n := Step(cb, Event.Receive(seg)), cb.snd.unacked, AckedBytes(cb.snd, seg.header);
      && f.Done? && f.value.cb.clock == cb.clock
      && f.value.cb.snd.unacked == if n == 0 then q else PopAcked(q, n, cb.clock, cb.snd.rto).rest
  {
    hide PopAcked, Wrap, WrappingAdd, Power2, ReceiveData;
  }

  lemma SampledIds(t: Track, n: nat, id: nat)
    ensures var at := SampledAt(t.cb.snd.unacked, n);
      var ids := set k | 0 <= k < |at| :: t.dropped + at[k];
      id in ids <==> id >= t.dropped && id - t.dropped in at
    ensures id >= t.dropped && id - t.dropped in SampledAt(t.cb.snd.unacked, n) ==> id - t.dropped < |t.cb.snd.unacked|
  {
    hide SampledAt;
    var at := SampledAt(t.cb.snd.unacked, n);
    if id >= t.dropped && id - t.dropped in at {
      var k :| 0 <= k < |at| && at[k] == id - t.dropped;
      assert t.dropped + at[k] == id;
    }
  }

  lemma ReceiveKeepsKarn(t: Track, seg: Segment, t': Track)
    requires KarnOk(t) && TrackStep(t, Event.Receive(seg)) == Done(t')
    ensures KarnOk(t')
  {
    hide TrackStep, QueueKarn, SamplesKarn;
    var d := ReceiveShape(t, seg, t');
    RemovedQueue(t, t', d);
    RemovedSamples(t, t', d);
  }

  lemma RemovedQueue(t: Track, t': Track, d: nat)
    requires QueueKarn(t) && d <= |t.cb.snd.unacked| && t'.cb.snd.unacked == t.cb.snd.unacked[d..]
    requires t'.dropped == t.dropped + d && t'.resent == t.resent && t'.cb.clock == t.cb.clock
    ensures QueueKarn(t')
  {
    forall i | 0 <= i < |t'.cb.snd.unacked|
      ensures t'.cb.snd.unacked[i].initialTx.None? <==> t'.dropped + i in t'.resent
    {
      assert t'.dropped + i == t.dropped + (d + i);
    }
  }

  lemma RemovedSamples(t: Track, t': Track, d: nat)
    requires KarnOk(t) && d <= |t.cb.snd.unacked| && t'.dropped == t.dropped + d && t'.resent == t.resent
    requires t.sampled <= t'.sampled && t.cut <= t'.cut
    requires forall id | id in t'.cut && id !in t.cut :: t.dropped <= id < t.dropped + d
    requires forall id | id in t'.sampled && id !in t.sampled :: t.dropped <= id < t.dropped + d
    requires forall id | t.dropped <= id < t.dropped + d ::
      id in t'.sampled <==> t.cb.snd.unacked[id - t.dropped].initialTx.Some? && id !in t'.cut
    ensures SamplesKarn(t')
  {
    forall id: nat | id < t'.dropped
      ensures id in t'.sampled <==> id !in t'.resent && id !in t'.cut
    {
      if id >= t.dropped {
        assert t.dropped + (id - t.dropped) == id;
      }
    }
  }

  lemma OtherShape(t: Track, e: Event, t': Track)
    requires !e.Receive? && !e.RetransmitTimer? && TrackStep(t, e) == Done(t')
    ensures t'.dropped == t.dropped && t'.resent == t.resent && t'.sampled == t.sampled && t'.cut == t.cut
    ensures t.cb.clock <= t'.cb.clock
    ensures var q, q' := t.cb.snd.unacked, t'.cb.snd.unacked;
      q' == q || (|q'| == |q| + 1 && q'[..|q|] == q && q'[|q|].initialTx == Some(t.cb.clock))
  {
    hide Wrap, WrappingSub, WrappingAdd, Total, PopAcked, SampledAt, Rto.AddSample, TcpHeader, AckSent;
    assert t'.sampled == t.sampled && t'.cut == t.cut;
  }

  lemma RetransmitKeepsKarn(t: Track, t': Track)
    requires KarnOk(t) && TrackStep(t, Event.RetransmitTimer) == Done(t')
    ensures KarnOk(t')
  {
    hide TrackStep, SamplesKarn, QueueKarn;
    RetransmitTrack(t, t');
    RetransmitQueue(t, t');
    RetransmitSamples(t, t');
  }

  /** The retransmitter resends nothing, or the front segment, which then has no timestamp. */
  lemma RetransmitTrack(t: Track, t': Track)
    requires TrackStep(t, Event.RetransmitTimer) == Done(t')
    ensures t'.sampled == t.sampled && t'.cut == t.cut && t'.dropped == t.dropped && t'.cb.clock == t.cb.clock
    ensures
      var q, q' := t.cb.snd.unacked, t'.cb.snd.unacked;
      || (q' == q && t'.resent == t.resent)
      || (q != [] && q' == [q[0].(initialTx := None)] + q[1..] && t'.resent == t.resent + {t.dropped})
  {
    hide Wrap, SampledAt, Rto.RecordFailure, TcpHeader, AckSent;
    assert t'.sampled == t.sampled && t'.cut == t.cut;
  }

  lemma RetransmitQueue(t: Track, t': Track)
    requires QueueKarn(t) && t'.dropped == t.dropped && t'.cb.clock == t.cb.clock
    requires
      var q, q' := t.cb.snd.unacked, t'.cb.snd.unacked;
      || (q' == q && t'.resent == t.resent)
      || (q != [] && q' == [q[0].(initialTx := None)] + q[1..] && t'.resent == t.resent + {t.dropped})
    ensures QueueKarn(t')
  {
    var q, q' := t.cb.snd.unacked, t'.cb.snd.unacked;
    assert forall i | 0 < i < |q| :: q'[i] == q[i];
  }

  lemma RetransmitSamples(t: Track, t': Track)
    requires SamplesKarn(t) && t'.sampled == t.sampled && t'.cut == t.cut && t'.dropped == t.dropped
    requires t'.resent == t.resent || t'.resent == t.resent + {t.dropped}
    ensures SamplesKarn(t')
  {
  }

  lemma OtherKeepsKarn(t: Track, e: Event, t': Track)
    requires KarnOk(t) && !e.Receive? && TrackStep(t, e) == Done(t')
    ensures KarnOk(t')
  {
    hide TrackStep;
    if e.RetransmitTimer? {
      RetransmitKeepsKarn(t, t');
    } else {
      OtherShape(t, e, t');
      forall i | 0 <= i < |t.cb.snd.unacked|
        ensures t'.cb.snd.unacked[i] == t.cb.snd.unacked[i]
      {
        assert t'.cb.snd.unacked[i] == t'.cb.snd.unacked[..|t.cb.snd.unacked|][i];
      }
    }
  }

  lemma {:induction false} RunKarnOk(cb: ControlBlock, events: seq<Event>)
    requires cb.snd.unacked == [] && TrackRun(cb, events).Done?
    ensures KarnOk(TrackRun(cb, events).value)
    decreases |events|
  {
    if events != [] {
      var before := events[..|events| - 1];
      RunKarnOk(cb, before);
      hide KarnOk, TrackStep;
      var e := events[|events| - 1];
      var t, t' := TrackRun(cb, before).value, TrackRun(cb, events).value;
      match e {
        case Receive(seg) => ReceiveKeepsKarn(t, seg, t');
        case _ => OtherKeepsKarn(t, e, t');
      }
    }
  }

  /** Karn's rule, exactly. Over every run of one endpoint, a segment that has left the queue, and
      that no acknowledgement cut, was sampled if and only if the retransmitter did not resend
      it; cut segments were not sampled, nor was any segment still queued. */
  lemma KarnsRule(cb: ControlBlock, events: seq<Event>, id: nat)
    requires cb.snd.unacked == [] && TrackRun(cb, events).Done?
    ensures var t := TrackRun(cb, events).value;
      && (id in t.sampled <==> id < t.dropped && id !in t.resent && id !in t.cut)
      && t.sampled !! t.resent
  {
    hide TrackRun;
    RunKarnOk(cb, events);
  }

  /** So the rule fails for a segment that was transmitted more than once, which only the
      retransmitter and the probe loop do, exactly if the probe loop alone repeated it: a
      repeated probe that left the queue uncut was sampled if and only if the retransmitter
      never resent it. */
  lemma ProbesSampledExactly(cb: ControlBlock, events: seq<Event>, id: nat)
    requires cb.snd.unacked == [] && TrackRun(cb, events).Done?
    requires var t := TrackRun(cb, events).value;
      id in t.probed && id < t.dropped && id !in t.cut
    ensures var t := TrackRun(cb, events).value;
      id in t.sampled <==> id !in t.resent
  {
    KarnsRule(cb, events, id);
  }

  // ----- The probe escapes the rule -----

  /** After a two-byte push into a closed window: the first byte is sent as a probe. */
  lemma ProbeSent(cb: ControlBlock) returns (t1: Track, t2: Track)
    requires cb == ControlBlock(NewSender(0, 0, 1, 536), NewReceiver(0, 0xffff), Top, 0.0)
    ensures TrackStep(NewTrack(cb), Event.Push([1, 2], true)) == Done(t1)
    ensures TrackStep(t1, Event.SenderTurn) == Done(t2)
    ensures t2.cb.snd.unacked == [Unacked([1], Some(0.0))] && t2.cb.loop == Probing(0, [1], false)
    ensures t2.cb.rcv == cb.rcv && t2.cb.snd.base == 0 && t2.cb.snd.sent == 1 && t2.dropped == 0
  {
    hide SampledAt;
    t1 := TrackStep(NewTrack(cb), Event.Push([1, 2], true)).value;
    assert t1.cb.snd.unsentQueue == [[1, 2]] && t1.cb.snd.unsent == 2;
    t2 := TrackStep(t1, Event.SenderTurn).value;
    assert [1, 2][..1] == [1];
    assert t2.cb.snd.unacked == [Unacked([1], Some(0.0))];
  }

  lemma ProbeRepeated(t2: Track) returns (t3: Track)
    requires t2.cb.loop.Probing? && !t2.cb.loop.windowChanged && t2.cb.rcv == NewReceiver(0, 0xffff)
    requires |t2.cb.snd.unacked| == 1
    ensures TrackStep(t2, Event.ProbeTimer) == Done(t3)
    ensures t3.cb == t2.cb && t3.dropped == t2.dropped && t2.dropped in t3.probed
  {
    hide SampledAt;
    t3 := TrackStep(t2, Event.ProbeTimer).value;
  }

  lemma ProbeAcknowledged(t3: Track) returns (t4: Track)
    requires t3.cb.snd.unacked == [Unacked([1], Some(0.0))] && t3.cb.snd.base == 0 && t3.cb.snd.sent == 1
    ensures TrackStep(t3, Event.Receive(Segment(Header(0, 1, true, 0), []))) == Done(t4)
    ensures t4.probed == t3.probed && t3.dropped in t4.sampled
  {
    hide Rto.AddSample, Power2;
    t4 := TrackStep(t3, Event.Receive(Segment(Header(0, 1, true, 0), []))).value;
    assert SampledAt(t3.cb.snd.unacked, 1) == [0];
    assert t3.dropped + SampledAt(t3.cb.snd.unacked, 1)[0] in t4.sampled;
  }

  /** The sender loop's own repetition of a window probe escapes the rule: a probe sent twice
      and then acknowledged is still sampled. */
  lemma ProbeIsSampled() returns (cb: ControlBlock, events: seq<Event>)
    ensures cb.snd.unacked == [] && TrackRun(cb, events).Done?
    ensures 0 in TrackRun(cb, events).value.probed && 0 in TrackRun(cb, events).value.sampled
  {
    hide TrackStep, Step;
    cb := ControlBlock(NewSender(0, 0, 1, 536), NewReceiver(0, 0xffff), Top, 0.0);
    var t1, t2 := ProbeSent(cb);
    var t3 := ProbeRepeated(t2);
    var t4 := ProbeAcknowledged(t3);
    var es := [Event.Push([1, 2], true), Event.SenderTurn, Event.ProbeTimer, Event.Receive(Segment(Header(0, 1, true, 0), []))];
    events := es;
    assert es[..1][..0] == [] && es[..2][..1] == es[..1] && es[..3][..2] == es[..2] && es == es[..4] && es[..4][..3] == es[..3];
    assert TrackRun(cb, es[..1]) == Done(t1);
    assert TrackRun(cb, es[..2]) == Done(t2);
    assert TrackRun(cb, es[..3]) == Done(t3);
  }

  // ----- Between peers nothing is cut -----

  /** An endpoint whose peer runs this code never has a segment cut: whatever packet of the peer
      it receives, in any state of a run, acknowledges whole segments. */
  lemma NothingCutBetweenPeers(x: TcpNetwork.Node, y: TcpNetwork.Node, p: TcpNetwork.Packet, t: Track)
    requires TcpNetwork.Inv(x, y) && TcpNetwork.Enabled(x, y, TcpNetwork.Receive(p)) && t.cb == x.cb
    ensures NewlyCut(t, Event.Receive(p.seg)) == {}
  {
    hide Wrap, Base.Total, Base.Offset, TcpNetwork.Live, PopAcked, TcpNetwork.ReceiverOk, TcpNetwork.PacketsOk;
    if p.seg.header.ack {
      TcpSafety.AckStampInSender(x, y, p);
      TcpSafety.RemoteAckExact(x, p.ackIx, x.cb.clock);
    }
  }
}
