/** The timer: a clock, a heap of registered entries, and one wait future per entry. */
module Timer {
  import opened Base

  type Time = nat
  type Id = nat
  type Waker = nat

  datatype PollState = Unregistered | Registered | Expired

  /** A wait future. `finished` once it has returned ready. */
  datatype Entry = Entry(expiry: Time, task: Option<Waker>, state: PollState, finished: bool)

  datatype Timers = Timers(now: Time, entries: map<Id, Entry>, heap: set<Id>)

  /** The entries due at `now`, and the wakers they leave behind. */
  function Due(t: Timers, now: Time): set<Id>
    requires t.heap <= t.entries.Keys
  {
    set id | id in t.heap && t.entries[id].expiry <= now
  }

  function Fire(e: Entry): Entry { e.(state := Expired, task := None) }

  /** Entries in `due` fire; the others are as they were. */
  function FireAll(entries: map<Id, Entry>, due: set<Id>): (r: map<Id, Entry>)
    ensures r.Keys == entries.Keys
    ensures forall id | id in entries :: r[id] == if id in due then Fire(entries[id]) else entries[id]
  {
    map id | id in entries :: if id in due then Fire(entries[id]) else entries[id]
  }

  /** Moving the clock backwards aborts. */
  function Advance(t: Timers, now: Time): Outcome<Timers>
    requires t.heap <= t.entries.Keys
  {
    if now < t.now then Panic
    else Done(Timers(now, FireAll(t.entries, Due(t, now)), t.heap - Due(t, now)))
  }

  function WaitUntil(t: Timers, id: Id, expiry: Time): Timers {
    t.(entries := t.entries[id := Entry(expiry, None, Unregistered, false)])
  }

  /** Polling a finished future aborts; otherwise the answer is whether it is ready. */
  function Poll(t: Timers, id: Id, waker: Waker): Outcome<(Timers, bool)>
    requires id in t.entries
  {
    var e := t.entries[id];
    if e.finished then Panic
    else
      match e.state
      case Unregistered =>
        if t.now >= e.expiry then
          Done((t.(entries := t.entries[id := e.(state := Expired, finished := true)]), true))
        else
          Done((t.(entries := t.entries[id := e.(state := Registered, task := Some(waker))], heap := t.heap + {id}), false))
      case Registered => Done((t.(entries := t.entries[id := e.(task := Some(waker))]), false))
      case Expired => Done((t.(entries := t.entries[id := e.(finished := true)]), true))
  }

  function Drop(t: Timers, id: Id): Timers
    requires id in t.entries
  {
    var e := t.entries[id];
    t.(entries := t.entries - {id}, heap := if !e.finished && e.state.Registered? then t.heap - {id} else t.heap)
  }

  // ----- Runs -----

  datatype Action =
    | DoWait(id: Id, expiry: Time)
    | DoPoll(id: Id, waker: Waker)
    | DoDrop(id: Id)
    | DoAdvance(now: Time)

  predicate Enabled(t: Timers, a: Action) {
    match a
    case DoWait(id, _) => id !in t.entries
    case DoPoll(id, _) => id in t.entries
    case DoDrop(id) => id in t.entries
    case DoAdvance(_) => t.heap <= t.entries.Keys
  }

  function Step(t: Timers, a: Action): Outcome<Timers>
    requires Enabled(t, a)
  {
    match a
    case DoWait(id, expiry) => Done(WaitUntil(t, id, expiry))
    case DoPoll(id, waker) =>
      var r :- Poll(t, id, waker);
      Done(r.0)
    case DoDrop(id) => Done(Drop(t, id))
    case DoAdvance(now) => Advance(t, now)
  }

  /** Registered holds exactly for the entries in the heap; those expire after now and have
      somebody to wake; what fired had expired. */
  ghost predicate Inv(t: Timers) {
    && t.heap <= t.entries.Keys
    && (forall id | id in t.entries :: t.entries[id].state.Registered? <==> id in t.heap)
    && (forall id | id in t.heap :: t.entries[id].expiry > t.now && t.entries[id].task.Some? && !t.entries[id].finished)
    && (forall id | id in t.entries && t.entries[id].state.Expired? :: t.entries[id].expiry <= t.now)
    && (forall id | id in t.entries && t.entries[id].finished :: t.entries[id].state.Expired?)
  }

  /** Only a step back in time and the poll of a finished future abort. */
  lemma StepAborts(t: Timers, a: Action)
    requires Enabled(t, a)
    ensures Step(t, a).Panic? <==> (a.DoAdvance? && a.now < t.now) || (a.DoPoll? && t.entries[a.id].finished)
  {
  }

  lemma StepKeepsInv(t: Timers, a: Action)
    requires Inv(t) && Enabled(t, a) && Step(t, a).Done?
    ensures Inv(Step(t, a).value) && Step(t, a).value.now >= t.now
  {
    match a
    case DoWait(_, _) =>
    case DoPoll(_, _) =>
    case DoDrop(_) =>
    case DoAdvance(_) =>
  }

  ghost predicate Run(states: seq<Timers>, acts: seq<Action>) {
    && |states| == |acts| + 1
    && states[0].entries == map[] && states[0].heap == {}
    && forall i | 0 <= i < |acts| :: Enabled(states[i], acts[i]) && Step(states[i], acts[i]) == Done(states[i + 1])
  }

  lemma RunStep(states: seq<Timers>, acts: seq<Action>, i: nat)
    requires Run(states, acts) && i < |acts|
    ensures |states| == |acts| + 1 && Enabled(states[i], acts[i]) && Step(states[i], acts[i]) == Done(states[i + 1])
  {
  }

  lemma {:induction false} RunInv(states: seq<Timers>, acts: seq<Action>, i: nat)
    requires Run(states, acts) && i <= |acts|
    ensures Inv(states[i])
  {
    if i > 0 {
      hide Inv, Step;
      RunInv(states, acts, i - 1);
      RunStep(states, acts, i - 1);
      StepKeepsInv(states[i - 1], acts[i - 1]);
    }
  }

  /** The timer is exact: after every run, polling a wait future that has not finished answers
      ready if and only if the clock has reached its expiry. */
  lemma PollIsExact(states: seq<Timers>, acts: seq<Action>, i: nat, id: Id, waker: Waker)
    requires Run(states, acts) && i <= |acts| && id in states[i].entries
    ensures Poll(states[i], id, waker).Panic? <==> states[i].entries[id].finished
    ensures !states[i].entries[id].finished ==>
      (Poll(states[i], id, waker).value.1 <==> states[i].now >= states[i].entries[id].expiry)
  {
    RunInv(states, acts, i);
  }

  /** Nothing touches future `id` in steps `[i, j)`, and the clock stays below its expiry. */
  ghost predicate Undisturbed(states: seq<Timers>, acts: seq<Action>, i: nat, j: nat, id: Id)
    requires |states| == |acts| + 1 && i <= j <= |acts| && id in states[i].entries
  {
    forall k | i <= k < j ::
      && acts[k] != DoDrop(id) && !(acts[k].DoPoll? && acts[k].id == id)
      && (acts[k].DoAdvance? ==> acts[k].now < states[i].entries[id].expiry)
  }

  lemma StepLeaves(t: Timers, a: Action, id: Id)
    requires Inv(t) && Enabled(t, a) && Step(t, a).Done? && id in t.heap
    requires a != DoDrop(id) && !(a.DoPoll? && a.id == id) && (a.DoAdvance? ==> a.now < t.entries[id].expiry)
    ensures var u := Step(t, a).value; id in u.heap && id in u.entries && u.entries[id] == t.entries[id]
  {
  }

  lemma {:induction false} Stays(states: seq<Timers>, acts: seq<Action>, i: nat, j: nat, id: Id)
    requires Run(states, acts) && i <= j <= |acts| && id in states[i].heap && id in states[i].entries
    requires Undisturbed(states, acts, i, j, id)
    ensures id in states[j].heap && id in states[j].entries && states[j].entries[id] == states[i].entries[id]
    decreases j
  {
    hide Inv, Step, Run;
    if i < j {
      RunStep(states, acts, j - 1);
      Stays(states, acts, i, j - 1, id);
      RunInv(states, acts, j - 1);
      StepLeaves(states[j - 1], acts[j - 1], id);
    }
  }

  /** No time-out is missed: a future polled before its expiry is pending; and at the first
      advance that reaches the expiry it is due with the waker of that latest poll, after which
      polling it answers ready. */
  lemma LatestWakerIsWoken(states: seq<Timers>, acts: seq<Action>, i: nat, j: nat, id: Id, waker: Waker)
    requires Run(states, acts) && i < j < |acts| && acts[i] == DoPoll(id, waker) && id in states[i].entries
    requires states[i].now < states[i].entries[id].expiry && id in states[i + 1].entries
    requires Undisturbed(states, acts, i + 1, j, id)
    requires acts[j].DoAdvance? && acts[j].now >= states[i].entries[id].expiry
    ensures states[j].heap <= states[j].entries.Keys && id in Due(states[j], acts[j].now)
    ensures states[j].entries[id].task == Some(waker)
    ensures id in states[j + 1].entries && states[j + 1].entries[id].state.Expired?
  {
    RunInv(states, acts, i);
    RunInv(states, acts, j);
    RunStep(states, acts, i);
    RunStep(states, acts, j);
    hide Inv, Run;
    PolledEarly(states[i], id, waker);
    Stays(states, acts, i + 1, j, id);
  }

  lemma PolledEarly(t: Timers, id: Id, waker: Waker)
    requires Inv(t) && id in t.entries && t.now < t.entries[id].expiry
    ensures Poll(t, id, waker).Done? && !Poll(t, id, waker).value.1
    ensures var u := Poll(t, id, waker).value.0;
      id in u.heap && id in u.entries && u.entries[id].task == Some(waker) && u.entries[id].expiry == t.entries[id].expiry
  {
  }

  // ----- When a wait ends -----

  /** Future `id` has returned ready since step `i`. */
  ghost predicate Answered(states: seq<Timers>, acts: seq<Action>, i: nat, j: nat, id: Id)
    requires |states| == |acts| + 1 && i <= j <= |acts|
  {
    exists k | i <= k < j :: acts[k].DoPoll? && acts[k].id == id && AnswersReady(states[k], acts[k])
  }

  predicate AnswersReady(t: Timers, a: Action) {
    a.DoPoll? && a.id in t.entries && Poll(t, a.id, a.waker).Done? && Poll(t, a.id, a.waker).value.1
  }

  lemma WaitStep(t: Timers, a: Action, id: Id)
    requires Enabled(t, a) && Step(t, a).Done? && id in t.entries && a != DoDrop(id)
    ensures var u := Step(t, a).value;
      && id in u.entries && u.entries[id].expiry == t.entries[id].expiry
      && (u.entries[id].finished <==> t.entries[id].finished || (a.DoPoll? && a.id == id && AnswersReady(t, a)))
      && u.now == if a.DoAdvance? then a.now else t.now
  {
  }

  lemma {:induction false} WaitGoesOn(states: seq<Timers>, acts: seq<Action>, i: nat, j: nat, id: Id, expiry: Time)
    requires Run(states, acts) && i < j <= |acts| && acts[i] == DoWait(id, expiry)
    requires forall k | i < k < j :: acts[k] != DoDrop(id)
    ensures id in states[j].entries && states[j].entries[id].expiry == expiry
    ensures states[j].entries[id].finished <==> Answered(states, acts, i, j, id)
    decreases j
  {
    hide Inv, Run, AnswersReady;
    RunStep(states, acts, j - 1);
    if i + 1 < j {
      WaitGoesOn(states, acts, i, j - 1, id, expiry);
      WaitStep(states[j - 1], acts[j - 1], id);
      hide Step;
      if Answered(states, acts, i, j - 1, id) {
        var k :| i <= k < j - 1 && acts[k].DoPoll? && acts[k].id == id && AnswersReady(states[k], acts[k]);
        assert Answered(states, acts, i, j, id);
      }
    }
  }

  /** A wait ends when it was asked to. In every run, a poll of the future that `wait_until(expiry)`
      returned, until it is dropped, aborts exactly if the future has answered ready before, and
      otherwise answers ready exactly if the clock has reached `expiry`. */
  lemma WaitEndsOnTime(states: seq<Timers>, acts: seq<Action>, i: nat, j: nat, id: Id, expiry: Time, waker: Waker)
    requires Run(states, acts) && i < j <= |acts| && acts[i] == DoWait(id, expiry)
    requires forall k | i < k < j :: acts[k] != DoDrop(id)
    ensures id in states[j].entries
    ensures Poll(states[j], id, waker).Panic? <==> Answered(states, acts, i, j, id)
    ensures !Answered(states, acts, i, j, id) ==> (Poll(states[j], id, waker).value.1 <==> states[j].now >= expiry)
  {
    WaitGoesOn(states, acts, i, j, id, expiry);
    hide Answered, Run;
    PollIsExact(states, acts, j, id, waker);
  }

  // ----- The timer as an object -----

  /** No entry is woken twice, and none before one that expires earlier. */
  ghost predicate ByExpiry(entries: map<Id, Entry>, woken: seq<(Id, Waker)>) {
    forall i, j | 0 <= i < j < |woken| ::
      && woken[i].0 != woken[j].0 && woken[i].0 in entries && woken[j].0 in entries
      && entries[woken[i].0].expiry <= entries[woken[j].0].expiry
  }

  class TimerQueue {
    var now: Time
    var entries: map<Id, Entry>
    var heap: set<Id>

    ghost function View(): Timers
      reads this
    {
      Timers(now, entries, heap)
    }

    constructor (now: Time)
      ensures View() == Timers(now, map[], {})
    {
      this.now, this.entries, this.heap := now, map[], {};
    }

    /** A registered entry that expires first. */
    method PeekMin() returns (id: Id)
      requires heap != {} && heap <= entries.Keys
      ensures id in heap && forall other | other in heap :: entries[id].expiry <= entries[other].expiry
    {
      id :| id in heap;
      var rest := heap;
      while rest != {}
        invariant rest <= heap && id in heap
        invariant forall other | other in heap && other !in rest :: entries[id].expiry <= entries[other].expiry
      {
        var other :| other in rest;
        if entries[other].expiry < entries[id].expiry {
          id := other;
        }
        rest := rest - {other};
      }
    }

    /** Drain the heap up to `time`, waking in order of expiry exactly those due, each once and
        with its stored waker. */
    method AdvanceClock(time: Time) returns (ok: bool, woken: seq<(Id, Waker)>)
      requires Inv(View())
      modifies this
      ensures ok <==> Advance(old(View()), time).Done?
      ensures View() == if ok then Advance(old(View()), time).value else old(View())
      ensures ok ==> forall id, w :: (id, w) in woken <==> id in Due(old(View()), time) && old(entries)[id].task == Some(w)
      ensures ok ==> ByExpiry(old(entries), woken)
    {
      hide Order, Inv, ByExpiry;
      woken := [];
      OrderStart(View());
      if time < now {
        return false, [];
      }
      ghost var was := View();
      assert was.heap - heap == {};
      while heap != {}
        invariant heap <= was.heap && was.heap <= entries.Keys && now == was.now
        invariant forall id | id in was.heap - heap :: was.entries[id].expiry <= time
        invariant entries == FireAll(was.entries, was.heap - heap)
        invariant Order(was.entries, woken, was.heap - heap, heap)
        decreases heap
      {
        var first := PeekMin();
        if time < entries[first].expiry {
          break;
        }
        var e := entries[first];
        OrderStep(was.entries, woken, was.heap - heap, heap, first);
        if e.task.Some? {
          woken := woken + [(first, e.task.value)];
        }
        assert was.heap - (heap - {first}) == (was.heap - heap) + {first};
        entries := entries[first := Fire(e)];
        heap := heap - {first};
        assert entries == FireAll(was.entries, was.heap - heap);
      }
      assert was.heap - heap == Due(was, time);
      OrderEnd(was.entries, woken, was.heap - heap, heap);
      now := time;
      ok := true;
    }

    method PollFuture(id: Id, waker: Waker) returns (ok: bool, ready: bool)
      requires id in entries
      modifies this`entries, this`heap
      ensures ok <==> Poll(old(View()), id, waker).Done?
      ensures ok ==> Poll(old(View()), id, waker) == Done((View(), ready))
    {
      var e := entries[id];
      if e.finished {
        return false, false;
      }
      ok := true;
      match e.state {
        case Unregistered =>
          if now >= e.expiry {
            e := e.(state := Expired);
            ready := true;
          } else {
            e := e.(task := Some(waker), state := Registered);
            heap := heap + {id};
            ready := false;
          }
        case Registered =>
          if e.task != Some(waker) {
            e := e.(task := Some(waker));
          }
          ready := false;
        case Expired =>
          ready := true;
      }
      if ready {
        e := e.(finished := true);
      }
      entries := entries[id := e];
    }

    method DropFuture(id: Id)
      requires id in entries
      modifies this`entries, this`heap
      ensures View() == Drop(old(View()), id)
    {
      var e := entries[id];
      if !e.finished && e.state.Registered? {
        heap := heap - {id};
      }
      entries := entries - {id};
    }
  }

  /** `woken` lists the entries `gone` with their wakers, in order of expiry, none of them later
      than what is `left`. */
  ghost predicate Order(entries: map<Id, Entry>, woken: seq<(Id, Waker)>, gone: set<Id>, left: set<Id>) {
    && gone + left <= entries.Keys
    && (forall id | id in gone + left :: entries[id].task.Some?)
    && (forall i | 0 <= i < |woken| :: woken[i].0 in gone && entries[woken[i].0].task == Some(woken[i].1))
    && (forall id | id in gone :: (id, entries[id].task.value) in woken)
    && (forall i, j | 0 <= i < j < |woken| :: woken[i].0 != woken[j].0 && entries[woken[i].0].expiry <= entries[woken[j].0].expiry)
    && (forall i, id | 0 <= i < |woken| && id in left :: entries[woken[i].0].expiry <= entries[id].expiry)
  }

  lemma OrderStep(entries: map<Id, Entry>, woken: seq<(Id, Waker)>, gone: set<Id>, left: set<Id>, first: Id)
    requires Order(entries, woken, gone, left) && first in left && gone !! left
    requires forall id | id in left :: entries[first].expiry <= entries[id].expiry
    ensures first in entries && entries[first].task.Some?
    ensures Order(entries, woken + [(first, entries[first].task.value)], gone + {first}, left - {first})
  {
    var more := woken + [(first, entries[first].task.value)];
    forall id | id in gone + {first} ensures (id, entries[id].task.value) in more {
      if id == first { assert more[|woken|] == (id, entries[id].task.value); }
    }
  }

  lemma OrderStart(t: Timers)
    requires Inv(t)
    ensures t.heap <= t.entries.Keys && Order(t.entries, [], {}, t.heap)
  {
  }

  lemma OrderEnd(entries: map<Id, Entry>, woken: seq<(Id, Waker)>, gone: set<Id>, left: set<Id>)
    requires Order(entries, woken, gone, left)
    ensures gone <= entries.Keys
    ensures forall id, w :: (id, w) in woken <==> id in gone && entries[id].task == Some(w)
    ensures ByExpiry(entries, woken)
  {
    forall id, w | (id, w) in woken ensures id in gone && entries[id].task == Some(w) {
      var i :| 0 <= i < |woken| && woken[i] == (id, w);
    }
  }
}
