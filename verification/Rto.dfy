/** The retransmission timeout estimator, over real numbers in place of `f64`. */
module Rto {
  const LBOUND: real := 0.001
  const UBOUND: real := 60.0
  const GRANULARITY: real := 0.001
  const ALPHA: real := 0.125
  const BETA: real := 0.25

  datatype Estimator = Estimator(srtt: real, rttvar: real, rto: real, receivedSample: bool)

  const Fresh: Estimator := Estimator(1.0, 0.0, 1.0, false)

  function Abs(x: real): real { if x < 0.0 then -x else x }

  function UpdateRto(e: Estimator, newRto: real): Estimator {
    e.(rto := if newRto < LBOUND then LBOUND else if newRto > UBOUND then UBOUND else newRto)
  }

  function AddSample(e: Estimator, rtt: real): Estimator {
    var e1 := if !e.receivedSample then
                e.(srtt := rtt, rttvar := rtt / 2.0, receivedSample := true)
              else
                e.(rttvar := (1.0 - BETA) * e.rttvar + BETA * Abs(e.srtt - rtt),
                srtt := (1.0 - ALPHA) * e.srtt + ALPHA * rtt);
    UpdateRto(e1, e1.srtt + if 4.0 * e1.rttvar < GRANULARITY then GRANULARITY else e1.rttvar)
  }

  function RecordFailure(e: Estimator): Estimator { UpdateRto(e, e.rto * 2.0) }

  /** What happens to an estimator: a round-trip sample, or a retransmission. */
  datatype Event = Sample(rtt: real) | Failure

  function Run(e: Estimator, events: seq<Event>): Estimator
    decreases |events|
  {
    if events == [] then e
    else
      var last := events[|events| - 1];
      var e1 := Run(e, events[..|events| - 1]);
      match last
      case Sample(rtt) => AddSample(e1, rtt)
      case Failure => RecordFailure(e1)
  }

  predicate Bounded(e: Estimator) { LBOUND <= e.rto <= UBOUND }

  predicate SamplesWithin(events: seq<Event>, lo: real, hi: real) {
    forall i | 0 <= i < |events| :: events[i].Sample? ==> lo <= events[i].rtt <= hi
  }

  /** Over every history of samples and failures the timeout stays within its bounds, and
      once a sample has arrived the smoothed estimate stays within the range the samples span
      while the variation stays between zero and the largest sample. */
  lemma {:induction false} RtoStaysBounded(events: seq<Event>, lo: real, hi: real)
    requires 0.0 <= lo <= hi && SamplesWithin(events, lo, hi)
    ensures Bounded(Run(Fresh, events))
    ensures Run(Fresh, events).receivedSample ==> lo <= Run(Fresh, events).srtt <= hi
    ensures Run(Fresh, events).receivedSample ==> 0.0 <= Run(Fresh, events).rttvar <= hi
    decreases |events|
  {
    if events != [] {
      RtoStaysBounded(events[..|events| - 1], lo, hi);
    }
  }

  // ----- What the estimates are -----

  function Power(k: real, n: nat): real { if n == 0 then 1.0 else k * Power(k, n - 1) }

  /** The samples of a history, in order. */
  function Samples(events: seq<Event>): seq<real> {
    if events == [] then []
    else
      var before := Samples(events[..|events| - 1]);
      match events[|events| - 1]
      case Sample(rtt) => before + [rtt]
      case Failure => before
  }

  /** Exponentially fading sum: the last value counts `1 - k`, the one before `k` times that, and
      so on. */
  function Fading(s: seq<real>, k: real): real {
    if s == [] then 0.0 else (1.0 - k) * (Power(k, |s| - 1) * s[0]) + Fading(s[1..], k)
  }

  /** Exponentially fading mean: what the first value lacks in a fading sum it keeps. */
  function FadingMean(s: seq<real>, k: real): real
    requires s != []
  {
    Power(k, |s| - 1) * s[0] + Fading(s[1..], k)
  }

  lemma {:induction false} FadingSnoc(s: seq<real>, x: real, k: real)
    ensures Fading(s + [x], k) == k * Fading(s, k) + (1.0 - k) * x
  {
    if s == [] {
      assert [x][1..] == [];
      assert Power(k, 0) * x == x;
    } else {
      assert (s + [x])[1..] == s[1..] + [x];
      FadingSnoc(s[1..], x, k);
      Distribute(k, Power(k, |s| - 1), s[0]);
    }
  }

  lemma Distribute(k: real, p: real, x: real)
    ensures (1.0 - k) * ((k * p) * x) == k * ((1.0 - k) * (p * x))
  {
    assert (k * p) * x == k * (p * x);
  }

  lemma Regroup(k: real, p: real, x: real, f: real)
    ensures (k * p) * x + k * f == k * (p * x + f)
  {
    assert (k * p) * x == k * (p * x);
  }

  lemma FadingMeanSnoc(s: seq<real>, x: real, k: real)
    requires s != []
    ensures FadingMean(s + [x], k) == k * FadingMean(s, k) + (1.0 - k) * x
  {
    hide Power, Fading;
    assert (s + [x])[1..] == s[1..] + [x];
    FadingSnoc(s[1..], x, k);
    PowerStep(k, |s|);
    Regroup(k, Power(k, |s| - 1), s[0], Fading(s[1..], k));
  }

  /** How far each sample is from the mean of those before it; the first counts for half of itself. */
  function Deviations(s: seq<real>): (r: seq<real>)
    ensures |r| == |s|
  {
    if s == [] then []
    else if |s| == 1 then [s[0] / 2.0]
    else
      var n := |s| - 1;
      Deviations(s[..n]) + [Abs(FadingMean(s[..n], 0.875) - s[n])]
  }

  /** Over every history: the smoothed round-trip time is the fading mean of the samples, weight one
      eighth, and the variation the fading mean of their deviations, weight one quarter; failures
      change neither. */
  lemma {:induction false} EstimatesAreMeans(events: seq<Event>)
    ensures var e, s := Run(Fresh, events), Samples(events);
      && (e.receivedSample <==> s != [])
      && (s != [] ==> e.srtt == FadingMean(s, 0.875) && e.rttvar == FadingMean(Deviations(s), 0.75))
    decreases |events|
  {
    if events != [] {
      var before := events[..|events| - 1];
      EstimatesAreMeans(before);
      var s := Samples(before);
      match events[|events| - 1] {
        case Failure =>
        case Sample(rtt) =>
          if s == [] {
            assert [rtt][1..] == [] && [rtt / 2.0][1..] == [];
          } else {
            assert (s + [rtt])[..|s|] == s;
            FadingMeanSnoc(s, rtt, 0.875);
            FadingMeanSnoc(Deviations(s), Abs(FadingMean(s, 0.875) - rtt), 0.75);
          }
      }
    }
  }

  function Clamped(t: real): real { if t < 0.001 then 0.001 else if t > 60.0 then 60.0 else t }

  /** The timeout after a sample: the smoothed time plus the variation, or plus a millisecond if the
      variation is under a quarter of that; within the bounds. */
  lemma TimeoutAfterSample(events: seq<Event>, rtt: real)
    ensures var e := Run(Fresh, events + [Sample(rtt)]);
      e.rto == Clamped(e.srtt + if e.rttvar < 0.00025 then 0.001 else e.rttvar)
  {
    assert (events + [Sample(rtt)])[..|events|] == events;
  }

  function Failures(n: nat): (r: seq<Event>)
    ensures |r| == n && forall i | 0 <= i < n :: r[i] == Failure
  {
    seq(n, _ => Failure)
  }

  /** Each failure doubles the timeout, up to a minute. */
  lemma {:induction false} FailuresDouble(events: seq<Event>, n: nat)
    ensures var t := Power(2.0, n) * Run(Fresh, events).rto;
      Run(Fresh, events + Failures(n)).rto == if t > 60.0 then 60.0 else t
  {
    hide Power, Run;
    FreshBounded(events);
    PowerStep(2.0, n);
    if n == 0 {
      assert events + Failures(0) == events;
    } else {
      FailuresDouble(events, n - 1);
      var all := events + Failures(n);
      assert all[..|all| - 1] == events + Failures(n - 1);
      RunFails(all);
      PowerGrows(n - 1);
      Doubles(Power(2.0, n - 1), Run(Fresh, events).rto);
    }
  }

  /** The timeout starts at one second, section 2 of RFC 6298, and doubles from there. */
  lemma FirstTimeouts(n: nat)
    ensures Run(Fresh, Failures(n)).rto == if Power(2.0, n) > 60.0 then 60.0 else Power(2.0, n)
  {
    assert Run(Fresh, []) == Fresh;
    hide Run, Power;
    FailuresDouble([], n);
    assert [] + Failures(n) == Failures(n);
  }

  lemma PowerStep(k: real, n: nat)
    ensures Power(k, n) == if n == 0 then 1.0 else k * Power(k, n - 1)
  {
  }

  lemma RunFails(events: seq<Event>)
    requires events != [] && events[|events| - 1] == Failure
    ensures Run(Fresh, events) == RecordFailure(Run(Fresh, events[..|events| - 1]))
  {
  }

  lemma Doubles(p: real, r: real)
    requires p >= 1.0 && r >= 0.001
    ensures (2.0 * p) * r == 2.0 * (p * r) && p * r >= r
  {
    assert (p - 1.0) * r >= 0.0;
  }

  lemma {:induction false} PowerGrows(n: nat)
    ensures Power(2.0, n) >= 1.0
  {
    if n > 0 { PowerGrows(n - 1); }
  }

  lemma {:induction false} FreshBounded(events: seq<Event>)
    ensures Bounded(Run(Fresh, events))
    decreases |events|
  {
    if events != [] { FreshBounded(events[..|events| - 1]); }
  }

  class RtoCalculator {
    var srtt: real
    var rttvar: real
    var rto: real
    var receivedSample: bool

    ghost function View(): Estimator
      reads this
    {
      Estimator(srtt, rttvar, rto, receivedSample)
    }

    constructor ()
      ensures View() == Fresh
    {
      srtt, rttvar, rto, receivedSample := 1.0, 0.0, 1.0, false;
    }

    method Add(rtt: real)
      modifies this
      ensures View() == AddSample(old(View()), rtt)
    {
      if !receivedSample {
        srtt := rtt;
        rttvar := rtt / 2.0;
        receivedSample := true;
      } else {
        rttvar := (1.0 - BETA) * rttvar + BETA * Abs(srtt - rtt);
        srtt := (1.0 - ALPHA) * srtt + ALPHA * rtt;
      }
      var slack := if 4.0 * rttvar < GRANULARITY then GRANULARITY else rttvar;
      Update(srtt + slack);
    }

    method Update(newRto: real)
      modifies this
      ensures View() == UpdateRto(old(View()), newRto)
    {
      if newRto < LBOUND {
        rto := LBOUND;
      } else if newRto > UBOUND {
        rto := UBOUND;
      } else {
        rto := newRto;
      }
    }

    method Fail()
      modifies this
      ensures View() == RecordFailure(old(View()))
    {
      Update(rto * 2.0);
    }
  }
}
