/** The scheduler: a slab of futures polled through pages of notification bits. A pass of
    `poll` is cut into the steps between which futures and wakers can act on the scheduler. */
module Scheduler {
  import opened Base
  import opened WakerPages

  const WAKER_PAGE_SIZE: nat := 64

  /** A key of the slab, as the page and the index in the page that it denotes. */
  datatype Slot = Slot(page: nat, ix: nat)

  function KeyOf(s: Slot): nat { s.page * WAKER_PAGE_SIZE + s.ix }

  function SlotOf(key: nat): Slot { Slot(key / WAKER_PAGE_SIZE, key % WAKER_PAGE_SIZE) }

  /** Keys and slots determine each other. */
  lemma KeySlotRoundTrip(key: nat, s: Slot)
    requires s.ix < WAKER_PAGE_SIZE
    ensures KeyOf(SlotOf(key)) == key && SlotOf(key).ix < WAKER_PAGE_SIZE
    ensures SlotOf(KeyOf(s)) == s
  {
    assert (s.page * 64 + s.ix) / 64 == s.page;
  }

  /** Where a pass stands. `left` are the taken notifications not yet polled, `gone` the taken
      drops not yet removed, `count` the number of pages when the pass began. */
  datatype Phase =
    | Idle
    | AtPage(page: nat, count: nat)
    | Polling(page: nat, count: nat, left: set<nat>, gone: set<nat>)
    | InFuture(page: nat, count: nat, ix: nat, left: set<nat>, gone: set<nat>)
    | Removing(page: nat, count: nat, gone: set<nat>)

  /** The scheduler, and what happened to it: slots with a live handle, slots whose future
      returned ready, slots woken since their future was last polled, and, for the pass under
      way, the slots it owes a poll and those it polled. */
  datatype Sched = Sched(
    slab: set<Slot>, pages: seq<Page>, phase: Phase,
    handles: set<Slot>, ready: set<Slot>, woken: set<Slot>, due: set<Slot>, polled: set<Slot>)

  const Empty: Sched := Sched({}, [], Idle, {}, {}, {}, {}, {})

  const NoBitsPage: Page := Page({}, {}, {})

  datatype Action =
    | Insert(slot: Slot)
    | Wake(slot: Slot)
    | DropHandle(slot: Slot)
    | Take(slot: Slot)
    | BeginPass
    | StartPage
    | PollNext(ix: nat)
    | Returns(isReady: bool)
    | DonePolling
    | RemoveNext(ix: nat)
    | DonePage

  function Grow(pages: seq<Page>, n: nat): (r: seq<Page>)
    ensures |r| >= |pages| && r[..|pages|] == pages && |r| >= n
    ensures forall p | |pages| <= p < |r| :: r[p] == NoBitsPage
    decreases n - |pages|
  {
    if |pages| >= n then pages else Grow(pages + [NoBitsPage], n)
  }

  function SetPage(s: Sched, p: nat, page: Page): Sched
    requires p < |s.pages|
  {
    s.(pages := s.pages[p := page])
  }

  function Initialize(p: Page, ix: nat): Page { Page(p.notified + {ix}, p.completed - {ix}, p.dropped - {ix}) }

  function Clear(p: Page, ix: nat): Page { Page(p.notified - {ix}, p.completed - {ix}, p.dropped - {ix}) }

  /** Futures and their wakers run while the scheduler is idle or inside a poll; dropping a
      future may also run code while dropped futures are removed. */
  predicate Interleaves(ph: Phase) { ph.Idle? || ph.InFuture? }

  /** What the environment may do. The slab hands out vacant keys; wakers fire for futures in
      the slab; a future is taken at any time but while it is being polled itself, or while the
      pass under way still has to poll it. */
  predicate Enabled(s: Sched, a: Action) {
    match a
    case Insert(slot) => Interleaves(s.phase) && slot !in s.slab && slot.ix < WAKER_PAGE_SIZE
    case Wake(slot) => slot in s.slab && (Interleaves(s.phase) || s.phase.Removing?)
    case DropHandle(slot) => slot in s.handles && (Interleaves(s.phase) || s.phase.Removing?)
    case Take(slot) => slot in s.handles && Interleaves(s.phase) && !Pending(s, slot) && !Current(s, slot)
    case BeginPass => s.phase.Idle?
    case StartPage => s.phase.AtPage?
    case PollNext(ix) => s.phase.Polling? && ix in s.phase.left && forall j | j in s.phase.left :: ix <= j
    case Returns(_) => s.phase.InFuture?
    case DonePolling => s.phase.Polling? && s.phase.left == {}
    case RemoveNext(ix) => s.phase.Removing? && ix in s.phase.gone && forall j | j in s.phase.gone :: ix <= j
    case DonePage => s.phase.Removing? && s.phase.gone == {}
  }

  /** `take`, whatever the phase. */
  function TakeSlot(s: Sched, slot: Slot): Outcome<Sched> {
    if slot.page >= |s.pages| || slot.ix in s.pages[slot.page].dropped || slot !in s.slab then Panic
    else
      Done(SetPage(s, slot.page, Clear(s.pages[slot.page], slot.ix)).(
           slab := s.slab - {slot}, handles := s.handles - {slot}, ready := s.ready - {slot},
           woken := s.woken - {slot}, due := s.due - {slot}))
  }

  function Step(s: Sched, a: Action): Outcome<Sched>
    requires Enabled(s, a)
  {
    match a
    case Insert(slot) =>
      var pages := Grow(s.pages, slot.page + 1);
      Done(s.(pages := pages[slot.page := Initialize(pages[slot.page], slot.ix)], slab := s.slab + {slot},
           handles := s.handles + {slot}, ready := s.ready - {slot}, woken := s.woken + {slot}))
    case Wake(slot) =>
      if slot.page >= |s.pages| then Panic
      else
        var p := s.pages[slot.page];
        Done(SetPage(s, slot.page, p.(notified := p.notified + {slot.ix})).(woken := s.woken + {slot}))
    case DropHandle(slot) =>
      if slot.page >= |s.pages| then Panic
      else
        var p := s.pages[slot.page];
        Done(SetPage(s, slot.page, p.(dropped := p.dropped + {slot.ix})).(
             handles := s.handles - {slot}, due := s.due - {slot}))
    case Take(slot) => TakeSlot(s, slot)
    case BeginPass =>
      Done(s.(phase := AtPage(0, |s.pages|), due := s.woken * s.handles - s.ready, polled := {}))
    case StartPage =>
      var n := s.phase.page;
      if n >= s.phase.count then Done(s.(phase := Idle))
      else if n >= |s.pages| then Panic
      else
        var p := s.pages[n];
        Done(SetPage(s, n, p.(notified := {}, dropped := {})).(
             phase := Polling(n, s.phase.count, p.notified - p.completed - p.dropped, p.dropped)))
    case PollNext(ix) =>
      var slot := Slot(s.phase.page, ix);
      if slot !in s.slab then Panic
      else
        Done(s.(phase := InFuture(s.phase.page, s.phase.count, ix, s.phase.left - {ix}, s.phase.gone),
             woken := s.woken - {slot}, polled := s.polled + {slot}))
    case Returns(isReady) =>
      var f := s.phase;
      var s1 := s.(phase := Polling(f.page, f.count, f.left, f.gone));
      if !isReady then Done(s1)
      else if f.page >= |s.pages| then Panic
      else
        var p := s.pages[f.page];
        Done(SetPage(s1, f.page, p.(completed := p.completed + {f.ix})).(ready := s.ready + {Slot(f.page, f.ix)}))
    case DonePolling => Done(s.(phase := Removing(s.phase.page, s.phase.count, s.phase.gone)))
    case RemoveNext(ix) =>
      var slot := Slot(s.phase.page, ix);
      if slot.page >= |s.pages| then Panic
      else
        Done(SetPage(s, slot.page, Clear(s.pages[slot.page], ix)).(
             phase := s.phase.(gone := s.phase.gone - {ix}), slab := s.slab - {slot},
             ready := s.ready - {slot}, woken := s.woken - {slot}))
    case DonePage => Done(s.(phase := AtPage(s.phase.page + 1, s.phase.count)))
  }

  // ----- Invariant -----

  predicate Notified(s: Sched, t: Slot) { t.page < |s.pages| && t.ix in s.pages[t.page].notified }
  predicate Completed(s: Sched, t: Slot) { t.page < |s.pages| && t.ix in s.pages[t.page].completed }
  predicate Dropped(s: Sched, t: Slot) { t.page < |s.pages| && t.ix in s.pages[t.page].dropped }

  /** A drop that a pass has observed but not yet carried out. */
  predicate Observed(s: Sched, t: Slot) {
    (s.phase.Polling? || s.phase.InFuture? || s.phase.Removing?) && t.page == s.phase.page && t.ix in s.phase.gone
  }

  /** A poll that the pass under way still has to make on the current page. */
  predicate Pending(s: Sched, t: Slot) {
    (s.phase.Polling? || s.phase.InFuture?) && t.page == s.phase.page && t.ix in s.phase.left
  }

  /** The slot whose future is being polled. */
  predicate Current(s: Sched, t: Slot) { s.phase.InFuture? && t == Slot(s.phase.page, s.phase.ix) }

  /** The page of `t` still lies ahead in the pass under way. */
  predicate Ahead(s: Sched, t: Slot) {
    match s.phase
    case Idle => false
    case AtPage(page, count) => page <= t.page < count
    case Polling(page, count, _, _) => page < t.page < count
    case InFuture(page, count, _, _, _) => page < t.page < count
    case Removing(page, count, _) => page < t.page < count
  }

  ghost predicate Inv(s: Sched) {
    && (forall t | t in s.slab :: t.page < |s.pages| && t.ix < WAKER_PAGE_SIZE)
    && (forall t | Notified(s, t) :: t in s.slab)
    && (forall t :: Completed(s, t) <==> t in s.ready)
    && s.ready <= s.slab && s.handles <= s.slab && s.woken <= s.slab
    && (forall t | t in s.slab :: t in s.handles <==> !Dropped(s, t) && !Observed(s, t))
    && (forall t | Dropped(s, t) || Observed(s, t) :: t in s.slab)
    && (forall t | Dropped(s, t) :: !Observed(s, t))
    && (forall t | Pending(s, t) :: t in s.slab && t !in s.ready && !Observed(s, t))
    && (s.phase.InFuture? ==>
          var t := Slot(s.phase.page, s.phase.ix);
          t in s.slab && t !in s.ready && !Observed(s, t) && !Pending(s, t) && t in s.polled)
    && (!s.phase.Idle? ==> s.phase.count <= |s.pages|)
    && (s.phase.Polling? || s.phase.InFuture? || s.phase.Removing? ==> s.phase.page < s.phase.count)
    && (forall t | t in s.woken && t in s.handles && t !in s.ready :: Notified(s, t) || Pending(s, t))
    && s.due <= s.handles
    && (!s.phase.Idle? ==>
          forall t | t in s.due && t !in s.polled :: t !in s.ready && t in s.woken && (Ahead(s, t) || Pending(s, t)))
  }

  lemma InsertKeeps(s: Sched, a: Action)
    requires Inv(s) && Enabled(s, a) && a.Insert?
    ensures Step(s, a).Done? && Inv(Step(s, a).value)
  {
  }

  lemma WakeKeeps(s: Sched, a: Action)
    requires Inv(s) && Enabled(s, a) && a.Wake?
    ensures Step(s, a).Done? && Inv(Step(s, a).value)
  {
  }

  lemma DropKeeps(s: Sched, a: Action)
    requires Inv(s) && Enabled(s, a) && a.DropHandle?
    ensures Step(s, a).Done? && Inv(Step(s, a).value)
  {
  }

  lemma TakeKeeps(s: Sched, a: Action)
    requires Inv(s) && Enabled(s, a) && a.Take?
    ensures Step(s, a).Done? && Inv(Step(s, a).value)
  {
  }

  lemma BeginKeeps(s: Sched, a: Action)
    requires Inv(s) && Enabled(s, a) && a.BeginPass?
    ensures Step(s, a).Done? && Inv(Step(s, a).value)
  {
  }

  lemma StartPageKeeps(s: Sched, a: Action)
    requires Inv(s) && Enabled(s, a) && a.StartPage?
    ensures Step(s, a).Done? && Inv(Step(s, a).value)
  {
  }

  lemma PollKeeps(s: Sched, a: Action)
    requires Inv(s) && Enabled(s, a) && a.PollNext?
    ensures Step(s, a).Done? && Inv(Step(s, a).value)
  {
  }

  lemma ReturnsKeeps(s: Sched, a: Action)
    requires Inv(s) && Enabled(s, a) && a.Returns?
    ensures Step(s, a).Done? && Inv(Step(s, a).value)
  {
  }

  lemma DonePollingKeeps(s: Sched, a: Action)
    requires Inv(s) && Enabled(s, a) && a.DonePolling?
    ensures Step(s, a).Done? && Inv(Step(s, a).value)
  {
  }

  lemma RemoveKeeps(s: Sched, a: Action)
    requires Inv(s) && Enabled(s, a) && a.RemoveNext?
    ensures Step(s, a).Done? && Inv(Step(s, a).value)
  {
  }

  lemma DonePageKeeps(s: Sched, a: Action)
    requires Inv(s) && Enabled(s, a) && a.DonePage?
    ensures Step(s, a).Done? && Inv(Step(s, a).value)
  {
  }

  /** No step that a run can take aborts, and every step keeps the invariant. */
  lemma StepKeepsInv(s: Sched, a: Action)
    requires Inv(s) && Enabled(s, a)
    ensures Step(s, a).Done? && Inv(Step(s, a).value)
  {
    hide Inv, Step;
    match a
    case Insert(_) => InsertKeeps(s, a);
    case Wake(_) => WakeKeeps(s, a);
    case DropHandle(_) => DropKeeps(s, a);
    case Take(_) => TakeKeeps(s, a);
    case BeginPass => BeginKeeps(s, a);
    case StartPage => StartPageKeeps(s, a);
    case PollNext(_) => PollKeeps(s, a);
    case Returns(_) => ReturnsKeeps(s, a);
    case DonePolling => DonePollingKeeps(s, a);
    case RemoveNext(_) => RemoveKeeps(s, a);
    case DonePage => DonePageKeeps(s, a);
  }

  // ----- Runs -----

  /** `states` is what the scheduler goes through from empty when `acts` happen. */
  ghost predicate Run(states: seq<Sched>, acts: seq<Action>) {
    && |states| == |acts| + 1
    && states[0] == Empty
    && forall i | 0 <= i < |acts| :: Enabled(states[i], acts[i]) && Step(states[i], acts[i]) == Done(states[i + 1])
  }

  lemma RunStart(states: seq<Sched>, acts: seq<Action>)
    requires Run(states, acts)
    ensures |states| == |acts| + 1 && states[0] == Empty
  {
  }

  lemma RunStep(states: seq<Sched>, acts: seq<Action>, i: nat)
    requires Run(states, acts) && i < |acts|
    ensures |states| == |acts| + 1 && Enabled(states[i], acts[i]) && Step(states[i], acts[i]) == Done(states[i + 1])
  {
  }

  lemma {:induction false} RunInv(states: seq<Sched>, acts: seq<Action>, i: nat)
    requires Run(states, acts) && i <= |acts|
    ensures Inv(states[i])
  {
    if i > 0 {
      RunInv(states, acts, i - 1);
      hide Inv, Step;
      RunStep(states, acts, i - 1);
      StepKeepsInv(states[i - 1], acts[i - 1]);
    }
  }

  /** Whatever a caller does next after any run, the scheduler does not abort: neither the
      unwrap on the slab nor the assertion in `take` fires. */
  lemma NeverAborts(states: seq<Sched>, acts: seq<Action>, i: nat, a: Action)
    requires Run(states, acts) && i <= |acts| && Enabled(states[i], a)
    ensures Step(states[i], a).Done?
  {
    hide Inv, Step;
    RunInv(states, acts, i);
    StepKeepsInv(states[i], a);
  }

  /** Step `i` polls the future in slot `t`. */
  predicate Polls(states: seq<Sched>, acts: seq<Action>, i: nat, t: Slot)
    requires i < |acts| && |states| == |acts| + 1
  {
    states[i].phase.Polling? && acts[i] == PollNext(t.ix) && states[i].phase.page == t.page
  }

  /** Step `i` is the return of the future in slot `t`, with a result. */
  predicate ReturnsReady(states: seq<Sched>, acts: seq<Action>, i: nat, t: Slot)
    requires i < |acts| && |states| == |acts| + 1
  {
    states[i].phase.InFuture? && acts[i] == Returns(true) && Slot(states[i].phase.page, states[i].phase.ix) == t
  }

  /** Step `i` takes the bits of a page and finds that the handle of `t` was dropped. */
  predicate ObservesDrop(states: seq<Sched>, acts: seq<Action>, i: nat, t: Slot)
    requires i < |acts| && |states| == |acts| + 1
  {
    && states[i].phase.AtPage? && acts[i] == StartPage && states[i].phase.page == t.page < states[i].phase.count
    && Dropped(states[i], t)
  }

  /** Step `i` frees slot `t`. */
  predicate Frees(states: seq<Sched>, acts: seq<Action>, i: nat, t: Slot)
    requires i < |acts| && |states| == |acts| + 1
  {
    || acts[i] == Take(t)
    || (states[i].phase.Removing? && acts[i] == RemoveNext(t.ix) && states[i].phase.page == t.page)
  }

  /** A slot that is out of bounds for polling: empty, finished, or seen as dropped. */
  predicate Finished(s: Sched, t: Slot) { t !in s.slab || t in s.ready || Observed(s, t) }

  lemma StepKeepsFinished(s: Sched, a: Action, t: Slot)
    requires Inv(s) && Enabled(s, a) && a != Insert(t) && Finished(s, t)
    requires Step(s, a).Done?
    ensures Finished(Step(s, a).value, t)
  {
  }

  lemma {:induction false} StaysFinished(states: seq<Sched>, acts: seq<Action>, i: nat, j: nat, t: Slot)
    requires Run(states, acts) && i <= j <= |acts| && Finished(states[i], t)
    requires forall k | i <= k < j :: acts[k] != Insert(t)
    ensures Finished(states[j], t)
    decreases j
  {
    hide Inv, Step, Finished, Enabled, Run;
    if i < j {
      RunStep(states, acts, j - 1);
      StaysFinished(states, acts, i, j - 1, t);
      RunInv(states, acts, j - 1);
      StepKeepsFinished(states[j - 1], acts[j - 1], t);
    }
  }

  /** A future that returned ready, or whose drop a pass observed, is never polled again: later
      polls of its slot come after another future was inserted there. */
  lemma NeverPolledAgain(states: seq<Sched>, acts: seq<Action>, i: nat, j: nat, t: Slot)
    requires Run(states, acts) && i < j < |acts|
    requires ReturnsReady(states, acts, i, t) || ObservesDrop(states, acts, i, t)
    requires forall k | i < k < j :: acts[k] != Insert(t)
    ensures !Polls(states, acts, j, t)
  {
    RunStep(states, acts, i);
    RunInv(states, acts, i);
    FinishesAt(states, acts, i, t);
    StaysFinished(states, acts, i + 1, j, t);
    RunInv(states, acts, j);
    if Polls(states, acts, j, t) {
      assert Pending(states[j], t) by { assert Enabled(states[j], acts[j]); }
    }
  }

  lemma FinishesAt(states: seq<Sched>, acts: seq<Action>, i: nat, t: Slot)
    requires |states| == |acts| + 1 && i < |acts| && Inv(states[i])
    requires Enabled(states[i], acts[i]) && Step(states[i], acts[i]) == Done(states[i + 1])
    requires ReturnsReady(states, acts, i, t) || ObservesDrop(states, acts, i, t)
    ensures Finished(states[i + 1], t)
  {
  }

  /** The current future of slot `t` returned ready before step `j`. */
  ghost predicate HasReturned(states: seq<Sched>, acts: seq<Action>, j: nat, t: Slot)
    requires |states| == |acts| + 1 && j <= |acts|
  {
    exists i | 0 <= i < j :: ReturnsReady(states, acts, i, t) &&
      forall k | i < k < j :: acts[k] != Insert(t) && !Frees(states, acts, k, t)
  }

  lemma ReadyStep(states: seq<Sched>, acts: seq<Action>, j: nat, t: Slot)
    requires |states| == |acts| + 1 && j < |acts| && Inv(states[j])
    requires Enabled(states[j], acts[j]) && Step(states[j], acts[j]) == Done(states[j + 1])
    ensures t in states[j + 1].ready <==>
      ReturnsReady(states, acts, j, t) || (t in states[j].ready && acts[j] != Insert(t) && !Frees(states, acts, j, t))
  {
  }

  lemma {:induction false} ReadyIsReturned(states: seq<Sched>, acts: seq<Action>, j: nat, t: Slot)
    requires Run(states, acts) && j <= |acts|
    ensures t in states[j].ready <==> HasReturned(states, acts, j, t)
  {
    hide Inv, Step, Frees, ReturnsReady, Run, Enabled;
    if j == 0 {
      RunStart(states, acts);
    } else {
      var p := j - 1;
      RunStep(states, acts, p);
      ReadyIsReturned(states, acts, p, t);
      RunInv(states, acts, p);
      ReadyStep(states, acts, p, t);
      if ReturnsReady(states, acts, p, t) {
        assert HasReturned(states, acts, j, t);
      } else if HasReturned(states, acts, j, t) {
        var i :| 0 <= i < j && ReturnsReady(states, acts, i, t) &&
          forall k | i < k < j :: acts[k] != Insert(t) && !Frees(states, acts, k, t);
        assert HasReturned(states, acts, p, t);
        assert i < p;
      }
    }
  }

  /** `has_completed` answers, for every slot and after every run, whether the future now in the
      slot has returned ready. */
  lemma CompletedExactly(states: seq<Sched>, acts: seq<Action>, j: nat, t: Slot)
    requires Run(states, acts) && j <= |acts|
    ensures Completed(states[j], t) <==> HasReturned(states, acts, j, t)
  {
    ReadyIsReturned(states, acts, j, t);
    RunInv(states, acts, j);
  }

  // ----- No wake-up is lost -----

  /** Nobody gave up slot `t` in steps `[i, j)`. */
  predicate Kept(states: seq<Sched>, acts: seq<Action>, i: nat, j: nat, t: Slot)
    requires |states| == |acts| + 1 && j <= |acts|
  {
    forall k | i <= k < j :: acts[k] != DropHandle(t) && acts[k] != Take(t)
  }

  lemma StepKeepsWoken(states: seq<Sched>, acts: seq<Action>, k: nat, t: Slot)
    requires |states| == |acts| + 1 && k < |acts| && Inv(states[k])
    requires Enabled(states[k], acts[k]) && Step(states[k], acts[k]) == Done(states[k + 1])
    requires t in states[k].woken && t in states[k].handles
    requires acts[k] != DropHandle(t) && acts[k] != Take(t) && !Polls(states, acts, k, t)
    ensures t in states[k + 1].woken && t in states[k + 1].handles
    ensures t in states[k].due && acts[k] != BeginPass ==> t in states[k + 1].due
    ensures t !in states[k].polled ==> t !in states[k + 1].polled
    ensures acts[k] == BeginPass ==> t !in states[k + 1].polled && (t in states[k].ready || t in states[k + 1].due)
  {
  }

  lemma {:induction false} StaysWoken(states: seq<Sched>, acts: seq<Action>, i: nat, j: nat, t: Slot)
    requires Run(states, acts) && i <= j <= |acts| && Kept(states, acts, i, j, t)
    requires t in states[i].woken && t in states[i].handles
    requires forall k | i <= k < j :: !Polls(states, acts, k, t)
    ensures t in states[j].woken && t in states[j].handles
    ensures (forall k | i <= k < j :: acts[k] != BeginPass) && t in states[i].due ==> t in states[j].due
    ensures t !in states[i].polled ==> t !in states[j].polled
    decreases j
  {
    hide Inv, Step, Polls, Enabled, Run;
    if i < j {
      RunStep(states, acts, j - 1);
      StaysWoken(states, acts, i, j - 1, t);
      RunInv(states, acts, j - 1);
      StepKeepsWoken(states, acts, j - 1, t);
    }
  }

  lemma WakesAt(s: Sched, a: Action, t: Slot)
    requires Inv(s) && Enabled(s, a) && (a == Insert(t) || (a == Wake(t) && t in s.handles))
    requires Step(s, a).Done?
    ensures t in Step(s, a).value.woken && t in Step(s, a).value.handles
  {
  }

  lemma PassEndsPolled(s: Sched)
    requires Inv(s) && s.phase.AtPage? && Step(s, StartPage).Done? && Step(s, StartPage).value.phase.Idle?
    ensures s.due <= s.polled
  {
    forall t | t in s.due ensures t in s.polled {
      assert !Ahead(s, t) && !Pending(s, t);
    }
  }

  /** A pass that starts at step `b` and ends at step `e`. */
  predicate Pass(states: seq<Sched>, acts: seq<Action>, b: nat, e: nat)
    requires |states| == |acts| + 1
  {
    && b < e < |acts| && acts[b] == BeginPass && acts[e] == StartPage && states[e + 1].phase.Idle?
    && forall k | b < k < e :: acts[k] != BeginPass
  }

  /** No wake-up is lost: a future that is inserted, or woken by its waker, at step `i` is polled
      at a later step no further than the end of the next pass, unless it had completed before
      that pass or its owner gave it up. */
  lemma NoLostWakeUp(states: seq<Sched>, acts: seq<Action>, i: nat, b: nat, e: nat, t: Slot)
    requires Run(states, acts) && i < b && Pass(states, acts, b, e)
    requires acts[i] == Insert(t) || (acts[i] == Wake(t) && t in states[i].handles)
    requires Kept(states, acts, i, e, t) && t !in states[b].ready
    ensures exists k | i < k < e :: Polls(states, acts, k, t)
  {
    hide Inv, Step, Polls;
    if forall k | i < k < e :: !Polls(states, acts, k, t) {
      RunStep(states, acts, i);
      RunStep(states, acts, b);
      RunStep(states, acts, e);
      RunInv(states, acts, i);
      WakesAt(states[i], acts[i], t);
      StaysWoken(states, acts, i + 1, b, t);
      RunInv(states, acts, b);
      StepKeepsWoken(states, acts, b, t);
      StaysWoken(states, acts, b + 1, e, t);
      RunInv(states, acts, e);
      PassEndsPolled(states[e]);
      assert false;
    }
  }

  // ----- No poll without a cause -----

  /** Step `k` wakes slot `t`, or inserts a future there. */
  predicate Causes(acts: seq<Action>, k: nat, t: Slot)
    requires k < |acts|
  {
    acts[k] == Insert(t) || acts[k] == Wake(t)
  }

  /** Step `k` takes the bits of the page of `t`. */
  predicate TakesPage(states: seq<Sched>, acts: seq<Action>, k: nat, t: Slot)
    requires |states| == |acts| + 1 && k < |acts|
  {
    acts[k] == StartPage && states[k].phase.AtPage? && states[k].phase.page == t.page < states[k].phase.count
  }

  /** Slot `t` was woken before step `j`, and its page not taken since. */
  ghost predicate Caused(states: seq<Sched>, acts: seq<Action>, j: nat, t: Slot)
    requires |states| == |acts| + 1 && j <= |acts|
  {
    exists k | 0 <= k < j :: Causes(acts, k, t) && forall m | k < m < j :: !TakesPage(states, acts, m, t)
  }

  lemma NotifiedStep(states: seq<Sched>, acts: seq<Action>, j: nat, t: Slot)
    requires |states| == |acts| + 1 && j < |acts| && Inv(states[j])
    requires Enabled(states[j], acts[j]) && Step(states[j], acts[j]) == Done(states[j + 1])
    ensures Notified(states[j + 1], t) && !Causes(acts, j, t) ==> Notified(states[j], t) && !TakesPage(states, acts, j, t)
    ensures Pending(states[j + 1], t) && !TakesPage(states, acts, j, t) ==> Pending(states[j], t)
    ensures Pending(states[j + 1], t) && TakesPage(states, acts, j, t) ==> Notified(states[j], t)
    ensures Pending(states[j], t) ==> !TakesPage(states, acts, j, t)
  {
  }

  lemma {:induction false} NotifiedIsCaused(states: seq<Sched>, acts: seq<Action>, j: nat, t: Slot)
    requires Run(states, acts) && j <= |acts| && Notified(states[j], t)
    ensures Caused(states, acts, j, t)
  {
    hide Inv, Step, Run, Enabled, TakesPage, Causes;
    RunStart(states, acts);
    if j > 0 {
      var p := j - 1;
      RunStep(states, acts, p);
      RunInv(states, acts, p);
      NotifiedStep(states, acts, p, t);
      if !Causes(acts, p, t) {
        NotifiedIsCaused(states, acts, p, t);
        var k :| 0 <= k < p && Causes(acts, k, t) && forall m | k < m < p :: !TakesPage(states, acts, m, t);
        assert forall m | k < m < j :: !TakesPage(states, acts, m, t);
      }
    }
  }

  lemma {:induction false} PendingWasTaken(states: seq<Sched>, acts: seq<Action>, j: nat, t: Slot) returns (q: nat)
    requires Run(states, acts) && j <= |acts| && Pending(states[j], t)
    ensures q < j && TakesPage(states, acts, q, t) && Notified(states[q], t)
    ensures forall m | q < m < j :: !TakesPage(states, acts, m, t)
  {
    hide Inv, Step, Run, Enabled, TakesPage, Notified;
    RunStart(states, acts);
    q := j - 1;
    RunStep(states, acts, q);
    RunInv(states, acts, q);
    NotifiedStep(states, acts, q, t);
    if !TakesPage(states, acts, q, t) {
      q := PendingWasTaken(states, acts, j - 1, t);
    }
  }

  /** Every poll has its cause: before the pass took the bits of its page, and after any earlier
      pass did, the future was inserted or its waker fired. */
  lemma PollsAreCaused(states: seq<Sched>, acts: seq<Action>, j: nat, t: Slot) returns (k: nat, q: nat)
    requires Run(states, acts) && j < |acts| && Polls(states, acts, j, t)
    ensures k < q < j && Causes(acts, k, t) && TakesPage(states, acts, q, t)
    ensures forall m | k < m < j && m != q :: !TakesPage(states, acts, m, t)
  {
    RunStep(states, acts, j);
    assert Pending(states[j], t);
    hide Run, TakesPage, Causes, Notified;
    q := PendingWasTaken(states, acts, j, t);
    NotifiedIsCaused(states, acts, q, t);
    k :| 0 <= k < q && Causes(acts, k, t) && forall m | k < m < q :: !TakesPage(states, acts, m, t);
  }

  lemma {:induction false} PendingSince(states: seq<Sched>, acts: seq<Action>, i: nat, j: nat, t: Slot)
    requires Run(states, acts) && i <= j <= |acts| && Pending(states[j], t)
    requires forall m | i <= m < j :: !TakesPage(states, acts, m, t)
    ensures Pending(states[i], t)
    decreases j
  {
    hide Inv, Step, Run, Enabled, TakesPage, Notified, Causes;
    if i < j {
      RunStep(states, acts, j - 1);
      RunInv(states, acts, j - 1);
      NotifiedStep(states, acts, j - 1, t);
      PendingSince(states, acts, i, j - 1, t);
    }
  }

  lemma PolledIsNotPending(states: seq<Sched>, acts: seq<Action>, i: nat, t: Slot)
    requires Run(states, acts) && i < |acts| && Polls(states, acts, i, t)
    ensures Pending(states[i], t) && !Pending(states[i + 1], t)
  {
    RunStep(states, acts, i);
  }

  /** Two polls of a slot have two causes: the bits taken at `q` held the first, and the second
      came after that. So a future that is not woken is polled once. */
  lemma PolledTwiceCausedTwice(states: seq<Sched>, acts: seq<Action>, i: nat, j: nat, t: Slot)
    returns (k: nat, q: nat, m: nat)
    requires Run(states, acts) && i < j < |acts| && Polls(states, acts, i, t) && Polls(states, acts, j, t)
    ensures k < q < i && q < m < j && TakesPage(states, acts, q, t) && Causes(acts, k, t) && Causes(acts, m, t)
  {
    PolledIsNotPending(states, acts, i, t);
    RunStart(states, acts);
    hide Run, Polls, Pending;
    k, q := PollsAreCaused(states, acts, i, t);
    var p;
    m, p := PollsAreCaused(states, acts, j, t);
    if m <= q {
      assert m != q && q == p;
      PolledIsNotPending(states, acts, j, t);
      PendingSince(states, acts, i + 1, j, t);
      assert false;
    }
  }

  // ----- Every drop is carried out -----

  /** The future of `t` was given up, and the pass under way has yet to see it or to remove it. */
  predicate Leaving(s: Sched, t: Slot) {
    t in s.slab && t !in s.handles && ((Dropped(s, t) && Ahead(s, t)) || Observed(s, t))
  }

  lemma GivenUpAt(s: Sched, t: Slot)
    requires Inv(s) && Enabled(s, DropHandle(t)) && Step(s, DropHandle(t)).Done?
    ensures t in Step(s, DropHandle(t)).value.slab && t !in Step(s, DropHandle(t)).value.handles
  {
  }

  lemma StepKeepsGivenUp(states: seq<Sched>, acts: seq<Action>, k: nat, t: Slot)
    requires |states| == |acts| + 1 && k < |acts| && Inv(states[k])
    requires Enabled(states[k], acts[k]) && Step(states[k], acts[k]) == Done(states[k + 1])
    requires t in states[k].slab && t !in states[k].handles && !Frees(states, acts, k, t)
    ensures t in states[k + 1].slab && t !in states[k + 1].handles
    ensures acts[k] == BeginPass ==> Leaving(states[k + 1], t)
    ensures Leaving(states[k], t) ==> Leaving(states[k + 1], t)
  {
  }

  lemma {:induction false} StaysGivenUp(states: seq<Sched>, acts: seq<Action>, i: nat, j: nat, t: Slot)
    requires Run(states, acts) && i <= j <= |acts| && t in states[i].slab && t !in states[i].handles
    requires forall k | i <= k < j :: !Frees(states, acts, k, t)
    ensures t in states[j].slab && t !in states[j].handles
    ensures Leaving(states[i], t) ==> Leaving(states[j], t)
    decreases j
  {
    hide Inv, Step, Frees, Enabled, Run, Leaving;
    if i < j {
      RunStep(states, acts, j - 1);
      StaysGivenUp(states, acts, i, j - 1, t);
      RunInv(states, acts, j - 1);
      StepKeepsGivenUp(states, acts, j - 1, t);
    }
  }

  /** Every drop is carried out: a future whose handle is dropped at step `i`, finished or not, is
      removed from the slab at a later step no further than the end of the next pass. */
  lemma DroppedIsFreed(states: seq<Sched>, acts: seq<Action>, i: nat, b: nat, e: nat, t: Slot)
    requires Run(states, acts) && i < b && Pass(states, acts, b, e) && acts[i] == DropHandle(t)
    ensures exists k | i < k < e :: Frees(states, acts, k, t)
  {
    if forall k | i < k < e :: !Frees(states, acts, k, t) {
      hide Inv, Step, Frees;
      RunStep(states, acts, i);
      RunInv(states, acts, i);
      GivenUpAt(states[i], t);
      StaysGivenUp(states, acts, i + 1, b, t);
      RunStep(states, acts, b);
      RunInv(states, acts, b);
      StepKeepsGivenUp(states, acts, b, t);
      StaysGivenUp(states, acts, b + 1, e, t);
      RunStep(states, acts, e);
      PassEndsClean(states[e], t);
      assert false;
    }
  }

  lemma PassEndsClean(s: Sched, t: Slot)
    requires s.phase.AtPage? && Step(s, StartPage).Done? && Step(s, StartPage).value.phase.Idle?
    ensures !Leaving(s, t)
  {
  }

  // ----- Wakers that outlive their slot -----

  /** A waker that fires for `t` whether or not a future lives there. */
  function StrayWake(s: Sched, t: Slot): Sched
    requires t.page < |s.pages|
  {
    SetPage(s, t.page, s.pages[t.page].(notified := s.pages[t.page].notified + {t.ix}))
  }

  /** The hypothesis that wakers fire only for futures in the slab is needed: after any run, a
      waker that fires for a free slot of the page about to be visited makes the pass abort as
      soon as that bit is the lowest one. */
  lemma StrayWakeAborts(states: seq<Sched>, acts: seq<Action>, i: nat, t: Slot)
    requires Run(states, acts) && i <= |acts| && states[i].phase.AtPage?
    requires t.page == states[i].phase.page < states[i].phase.count && t !in states[i].slab
    requires forall j | Notified(states[i], Slot(t.page, j)) :: t.ix <= j
    ensures t.page < |states[i].pages|
    ensures var s := Step(StrayWake(states[i], t), StartPage);
            s.Done? && Enabled(s.value, PollNext(t.ix)) && Step(s.value, PollNext(t.ix)).Panic?
  {
    RunInv(states, acts, i);
    var s := states[i];
    assert !Completed(s, t) && !Dropped(s, t);
    var next := Step(StrayWake(s, t), StartPage).value;
    forall j | j in next.phase.left ensures t.ix <= j {
      assert j == t.ix || Notified(s, Slot(t.page, j));
    }
  }

  // ----- Takes during a pass -----

  /** Slot `t` is to be polled on the current page, and is empty. */
  predicate Missing(s: Sched, t: Slot) { Pending(s, t) && t !in s.slab }

  lemma StepKeepsMissing(s: Sched, a: Action, t: Slot)
    requires Missing(s, t) && Enabled(s, a) && a != Insert(t) && Step(s, a).Done?
    ensures Missing(Step(s, a).value, t)
  {
  }

  /** States joined by steps, from any state. */
  ghost predicate Continues(states: seq<Sched>, acts: seq<Action>) {
    && |states| == |acts| + 1
    && forall i | 0 <= i < |acts| :: Enabled(states[i], acts[i]) && Step(states[i], acts[i]) == Done(states[i + 1])
  }

  lemma {:induction false} StaysMissing(states: seq<Sched>, acts: seq<Action>, i: nat, t: Slot)
    requires Continues(states, acts) && i <= |acts| && Missing(states[0], t)
    requires forall k | 0 <= k < i :: acts[k] != Insert(t)
    ensures Missing(states[i], t)
  {
    if i > 0 {
      StaysMissing(states, acts, i - 1, t);
      assert Enabled(states[i - 1], acts[i - 1]) && Step(states[i - 1], acts[i - 1]) == Done(states[i]);
      hide Step, Missing;
      StepKeepsMissing(states[i - 1], acts[i - 1], t);
    }
  }

  /** After any run, a take of a future whose handle is live succeeds, also during a pass. */
  lemma TakeSucceeds(states: seq<Sched>, acts: seq<Action>, i: nat, t: Slot)
    requires Run(states, acts) && i <= |acts| && t in states[i].handles
    ensures TakeSlot(states[i], t).Done?
  {
    RunInv(states, acts, i);
  }

  /** What a take during a pass may not do, part one. After any run, once a future that the pass
      still has to poll is taken, and until another future is inserted in its slot, the pass
      stays on this page, and the poll of the slot, which comes when it is the lowest one left,
      aborts. */
  lemma TakePendingAborts(states: seq<Sched>, acts: seq<Action>, i: nat, t: Slot,
                          later: seq<Sched>, more: seq<Action>, j: nat)
    requires Run(states, acts) && i <= |acts| && states[i].phase.InFuture?
    requires Pending(states[i], t) && t in states[i].handles
    requires Continues(later, more) && Done(later[0]) == TakeSlot(states[i], t) && j <= |more|
    requires forall k | 0 <= k < j :: more[k] != Insert(t)
    ensures Missing(later[j], t) && !later[j].phase.Idle? && !Enabled(later[j], DonePolling)
    ensures Enabled(later[j], PollNext(t.ix)) ==> Step(later[j], PollNext(t.ix)).Panic?
    ensures later[j].phase.Polling? && (forall k | k in later[j].phase.left :: t.ix <= k) ==> Enabled(later[j], PollNext(t.ix))
  {
    RunInv(states, acts, i);
    assert Missing(later[0], t);
    StaysMissing(later, more, j, t);
  }

  /** Part two. After any run, taking the future that is being polled, and inserting another in
      its slot before the poll returns ready, marks the new future as completed although it was
      never polled. */
  lemma TakeCurrentMisleads(states: seq<Sched>, acts: seq<Action>, i: nat, t: Slot)
    requires Run(states, acts) && i <= |acts| && Current(states[i], t) && t in states[i].handles
    ensures TakeSlot(states[i], t).Done? && Enabled(TakeSlot(states[i], t).value, Insert(t))
    ensures var s := Step(TakeSlot(states[i], t).value, Insert(t)).value;
      && Enabled(s, Returns(true)) && Step(s, Returns(true)).Done?
      && var u := Step(s, Returns(true)).value;
         Completed(u, t) && t in u.handles && t in u.woken
  {
    RunInv(states, acts, i);
  }
}
