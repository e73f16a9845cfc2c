/** The uninterrupted pass of the scheduler object is a run of the scheduler's state machine. */
module SchedulerRefines {
  import opened Base
  import opened WakerPages
  import opened Scheduler
  import L = SchedulerLoop

  /** `acts`, taken one after the other, lead from `s` to `t`. */
  ghost predicate Reaches(s: Sched, acts: seq<Action>, t: Sched)
    decreases |acts|
  {
    if acts == [] then s == t
    else Enabled(s, acts[0]) && Step(s, acts[0]).Done? && Reaches(Step(s, acts[0]).value, acts[1..], t)
  }

  lemma {:induction false} ReachesConcat(s: Sched, a: seq<Action>, t: Sched, b: seq<Action>, u: Sched)
    requires Reaches(s, a, t) && Reaches(t, b, u)
    ensures Reaches(s, a + b, u)
    decreases |a|
  {
    hide Enabled, Step;
    if a == [] {
      assert a + b == b;
    } else {
      assert (a + b)[1..] == a[1..] + b;
      ReachesConcat(Step(s, a[0]).value, a[1..], t, b, u);
    }
  }

  lemma ReachesOne(s: Sched, a: Action)
    requires Enabled(s, a) && Step(s, a).Done?
    ensures Reaches(s, [a], Step(s, a).value)
  {
    hide Enabled, Step;
    assert [a][1..] == [];
  }

  lemma {:induction false} Least(s: set<nat>) returns (m: nat)
    requires s != {}
    ensures m in s && forall j | j in s :: m <= j
    decreases |s|
  {
    var x :| x in s;
    m := x;
    if s != {x} {
      var rest := Least(s - {x});
      assert forall j | j in s :: j == x || j in s - {x};
      if rest < x { m := rest; }
    }
  }

  /** The indices in `left` whose futures are among the keys in `ready`. */
  ghost function Ready(n: nat, left: set<nat>, ready: set<nat>): set<nat> {
    set ix | ix in left && L.Key(n, ix) in ready
  }

  /** What matters here of a scheduler in the middle of a page: its slab and its pages. */
  predicate Same(s: Sched, slab: set<Slot>, pages: seq<Page>) { s.slab == slab && s.pages == pages }

  lemma PollOnce(s: Sched, ix: nat, isReady: bool) returns (t: Sched)
    requires s.phase.Polling? && s.phase.page < |s.pages| && Enabled(s, PollNext(ix)) && Slot(s.phase.page, ix) in s.slab
    ensures Reaches(s, [PollNext(ix), Returns(isReady)], t)
    ensures t.phase == Polling(s.phase.page, s.phase.count, s.phase.left - {ix}, s.phase.gone)
    ensures var p := s.pages[s.phase.page];
      Same(t, s.slab, s.pages[s.phase.page := if isReady then p.(completed := p.completed + {ix}) else p])
  {
    var u := Step(s, PollNext(ix)).value;
    t := Step(u, Returns(isReady)).value;
    var acts := [PollNext(ix), Returns(isReady)];
    assert acts[1..] == [Returns(isReady)];
    ReachesOne(u, Returns(isReady));
    if !isReady { assert s.pages[s.phase.page := s.pages[s.phase.page]] == s.pages; }
  }

  /** Polling one future after the other. */
  lemma {:induction false} PollAll(s: Sched, ready: set<nat>) returns (acts: seq<Action>, t: Sched)
    requires s.phase.Polling? && s.phase.page < |s.pages|
    requires forall ix | ix in s.phase.left :: Slot(s.phase.page, ix) in s.slab
    ensures Reaches(s, acts, t) && t.phase == Polling(s.phase.page, s.phase.count, {}, s.phase.gone)
    ensures var n := s.phase.page;
      var p := s.pages[n];
      Same(t, s.slab, s.pages[n := p.(completed := p.completed + Ready(n, s.phase.left, ready))])
    decreases |s.phase.left|
  {
    hide L.Key;
    var n := s.phase.page;
    var p := s.pages[n];
    if s.phase.left == {} {
      acts, t := [], s;
      assert p.completed + Ready(n, {}, ready) == p.completed;
      assert s.pages[n := p] == s.pages;
    } else {
      var ix := Least(s.phase.left);
      var isReady := L.Key(n, ix) in ready;
      var u := PollOnce(s, ix, isReady);
      hide Reaches;
      var more;
      more, t := PollAll(u, ready);
      ReachesConcat(s, [PollNext(ix), Returns(isReady)], u, more, t);
      acts := [PollNext(ix), Returns(isReady)] + more;
      var rest := s.phase.left - {ix};
      assert u.pages[n].completed + Ready(n, rest, ready) == p.completed + Ready(n, s.phase.left, ready);
    }
  }

  lemma RemoveOnce(s: Sched, ix: nat) returns (t: Sched)
    requires s.phase.Removing? && s.phase.page < |s.pages| && Enabled(s, RemoveNext(ix))
    ensures Reaches(s, [RemoveNext(ix)], t)
    ensures t.phase == Removing(s.phase.page, s.phase.count, s.phase.gone - {ix})
    ensures var n := s.phase.page; Same(t, s.slab - {Slot(n, ix)}, s.pages[n := Clear(s.pages[n], ix)])
  {
    t := Step(s, RemoveNext(ix)).value;
    ReachesOne(s, RemoveNext(ix));
  }

  ghost function SlotsOf(n: nat, ixs: set<nat>): set<Slot> { set ix | ix in ixs :: Slot(n, ix) }

  function ClearAll(p: Page, ixs: set<nat>): Page { Page(p.notified - ixs, p.completed - ixs, p.dropped - ixs) }

  /** Removing one dropped future after the other. */
  lemma {:induction false} RemoveAll(s: Sched) returns (acts: seq<Action>, t: Sched)
    requires s.phase.Removing? && s.phase.page < |s.pages|
    ensures Reaches(s, acts, t) && t.phase == Removing(s.phase.page, s.phase.count, {})
    ensures var n := s.phase.page;
      Same(t, s.slab - SlotsOf(n, s.phase.gone), s.pages[n := ClearAll(s.pages[n], s.phase.gone)])
    decreases |s.phase.gone|
  {
    var n := s.phase.page;
    var p := s.pages[n];
    if s.phase.gone == {} {
      acts, t := [], s;
      assert s.slab - SlotsOf(n, {}) == s.slab && ClearAll(p, {}) == p;
      assert s.pages[n := p] == s.pages;
    } else {
      var ix := Least(s.phase.gone);
      var u := RemoveOnce(s, ix);
      hide Reaches;
      var more;
      more, t := RemoveAll(u);
      ReachesConcat(s, [RemoveNext(ix)], u, more, t);
      acts := [RemoveNext(ix)] + more;
      var rest := s.phase.gone - {ix};
      assert ClearAll(Clear(p, ix), rest) == ClearAll(p, s.phase.gone);
      assert s.slab - {Slot(n, ix)} - SlotsOf(n, rest) == s.slab - SlotsOf(n, s.phase.gone);
    }
  }

  /** What the state machine does on one page when nothing interrupts it is what the object does:
      the page becomes `AfterPass`, and exactly the dropped slots leave the slab. */
  lemma PageRefines(s: Sched, ready: set<nat>) returns (acts: seq<Action>, t: Sched)
    requires s.phase.AtPage? && s.phase.page < s.phase.count <= |s.pages|
    requires forall ix | ix in L.Taken(s.pages[s.phase.page]) :: Slot(s.phase.page, ix) in s.slab
    ensures Reaches(s, acts, t) && t.phase == AtPage(s.phase.page + 1, s.phase.count)
    ensures var n := s.phase.page;
      Same(t, s.slab - SlotsOf(n, s.pages[n].dropped), s.pages[n := L.AfterPass(s.pages[n], n, ready)])
  {
    var n := s.phase.page;
    var p := s.pages[n];
    var s1 := Step(s, StartPage).value;
    ReachesOne(s, StartPage);
    assert s1.phase == Polling(n, s.phase.count, L.Taken(p), p.dropped);
    var a2, s2 := PollAll(s1, ready);
    var s3 := Step(s2, DonePolling).value;
    ReachesOne(s2, DonePolling);
    var a4, s4 := RemoveAll(s3);
    t := Step(s4, DonePage).value;
    ReachesOne(s4, DonePage);
    acts := [StartPage] + a2 + [DonePolling] + a4 + [DonePage];
    PagesAre(s, s1, s2, s4, ready);
    hide Reaches, Step, Enabled;
    ReachesConcat(s, [StartPage], s1, a2, s2);
    ReachesConcat(s, [StartPage] + a2, s2, [DonePolling], s3);
    ReachesConcat(s, [StartPage] + a2 + [DonePolling], s3, a4, s4);
    ReachesConcat(s, [StartPage] + a2 + [DonePolling] + a4, s4, [DonePage], t);
  }

  lemma PagesAre(s: Sched, s1: Sched, s2: Sched, s4: Sched, ready: set<nat>)
    requires s.phase.AtPage? && s.phase.page < |s.pages|
    requires var n := s.phase.page;
      var p := s.pages[n];
      var q := p.(notified := {}, dropped := {});
      && s1.pages == s.pages[n := q]
      && s2.pages == s1.pages[n := q.(completed := q.completed + Ready(n, L.Taken(p), ready))]
      && s4.pages == s2.pages[n := ClearAll(s2.pages[n], p.dropped)]
    ensures s4.pages == s.pages[s.phase.page := L.AfterPass(s.pages[s.phase.page], s.phase.page, ready)]
  {
    hide L.Key;
    var n := s.phase.page;
    assert s4.pages[n] == L.AfterPass(s.pages[n], n, ready);
  }

  // ----- A whole pass -----

  /** The slots that the first `n` pages list as dropped. */
  ghost function DroppedSlots(pages: seq<Page>, n: nat): set<Slot>
    requires n <= |pages|
  {
    if n == 0 then {} else DroppedSlots(pages, n - 1) + SlotsOf(n - 1, pages[n - 1].dropped)
  }

  /** A pass of `s` that has done the pages before `n`. */
  ghost predicate Passed(s: Sched, t: Sched, n: nat, ready: set<nat>) {
    && n <= |s.pages| && L.Progress(s.pages, t.pages, n, ready)
    && t.phase == AtPage(n, |s.pages|) && t.slab == s.slab - DroppedSlots(s.pages, n)
  }

  /** Every slot the pass has to poll is occupied. */
  ghost predicate AllPresent(s: Sched) {
    forall n, ix | 0 <= n < |s.pages| && ix in L.Taken(s.pages[n]) :: Slot(n, ix) in s.slab
  }

  lemma DroppedBefore(pages: seq<Page>, n: nat, t: Slot)
    requires n <= |pages| && t in DroppedSlots(pages, n)
    ensures t.page < n
  {
  }

  lemma PassedPage(s: Sched, t: Sched, n: nat, ready: set<nat>) returns (acts: seq<Action>, u: Sched)
    requires AllPresent(s) && Passed(s, t, n, ready) && n < |s.pages|
    ensures Reaches(t, acts, u) && Passed(s, u, n + 1, ready)
  {
    hide Reaches, L.AfterPass, L.Taken;
    forall ix | ix in L.Taken(t.pages[n]) ensures Slot(n, ix) in t.slab {
      if Slot(n, ix) in DroppedSlots(s.pages, n) { DroppedBefore(s.pages, n, Slot(n, ix)); }
    }
    acts, u := PageRefines(t, ready);
    L.ProgressStep(s.pages, t.pages, u.pages, n, ready);
  }

  lemma {:induction false} PassedPages(s: Sched, t: Sched, n: nat, ready: set<nat>) returns (acts: seq<Action>, u: Sched)
    requires AllPresent(s) && Passed(s, t, n, ready)
    ensures Reaches(t, acts, u) && Passed(s, u, |s.pages|, ready)
    decreases |s.pages| - n
  {
    hide AllPresent, Passed;
    PassedBound(s, t, n, ready);
    if n == |s.pages| {
      acts, u := [], t;
    } else {
      var a, v := PassedPage(s, t, n, ready);
      hide Reaches;
      var b;
      b, u := PassedPages(s, v, n + 1, ready);
      ReachesConcat(t, a, v, b, u);
      acts := a + b;
    }
  }

  lemma PassedBound(s: Sched, t: Sched, n: nat, ready: set<nat>)
    requires Passed(s, t, n, ready)
    ensures n <= |s.pages|
  {
  }

  /** A whole pass of the state machine that nothing interrupts: every page becomes what the
      object's pass makes of it, and exactly the dropped slots leave the slab. */
  lemma PassRefines(s: Sched, ready: set<nat>) returns (acts: seq<Action>, t: Sched)
    requires s.phase.Idle? && AllPresent(s)
    ensures Reaches(s, acts, t) && t.phase.Idle?
    ensures L.Progress(s.pages, t.pages, |s.pages|, ready) && t.slab == s.slab - DroppedSlots(s.pages, |s.pages|)
  {
    hide L.AfterPass, L.Taken;
    var s1 := Step(s, BeginPass).value;
    ReachesOne(s, BeginPass);
    assert Passed(s, s1, 0, ready);
    assert AllPresent(s);
    var a, s2 := PassedPages(s, s1, 0, ready);
    t := Step(s2, StartPage).value;
    ReachesOne(s2, StartPage);
    hide Reaches, Step;
    ReachesConcat(s, [BeginPass], s1, a, s2);
    ReachesConcat(s, [BeginPass] + a, s2, [StartPage], t);
    acts := [BeginPass] + a + [StartPage];
  }

  /** The keys of a slab. */
  ghost function KeysIn(slab: set<Slot>): set<nat> { set t | t in slab :: KeyOf(t) }

  lemma KeysDistinct(t: Slot, u: Slot)
    requires t.ix < WAKER_PAGE_SIZE && u.ix < WAKER_PAGE_SIZE && KeyOf(t) == KeyOf(u)
    ensures t == u
  {
    KeySlotRoundTrip(0, t);
    KeySlotRoundTrip(0, u);
  }

  /** All indices are within a page. */
  ghost predicate InRange(s: Sched) {
    (forall t | t in s.slab :: t.ix < WAKER_PAGE_SIZE) && forall n | 0 <= n < |s.pages| :: L.Small(s.pages[n])
  }

  lemma {:induction false} DroppedKeysAre(s: Sched, n: nat)
    requires n <= |s.pages|
    ensures KeysIn(DroppedSlots(s.pages, n)) == L.DroppedKeys(s.pages, n)
  {
    hide KeyOf;
    if n > 0 {
      DroppedKeysAre(s, n - 1);
      var a, b := DroppedSlots(s.pages, n - 1), SlotsOf(n - 1, s.pages[n - 1].dropped);
      assert KeysIn(a + b) == KeysIn(a) + KeysIn(b);
      assert KeysIn(b) == L.KeysOf(n - 1, s.pages[n - 1].dropped) by {
        forall k | k in L.KeysOf(n - 1, s.pages[n - 1].dropped) ensures k in KeysIn(b) {
          var ix :| ix in s.pages[n - 1].dropped && k == L.Key(n - 1, ix);
          assert Slot(n - 1, ix) in b;
        }
      }
    }
  }

  lemma {:induction false} TakenKey(s: Sched, n: nat, m: nat, ix: nat)
    requires n < m <= |s.pages| && ix in L.Taken(s.pages[n])
    ensures L.Key(n, ix) in L.TakenKeys(s.pages, m)
    decreases m
  {
    hide L.Taken, L.Key;
    if n < m - 1 { TakenKey(s, n, m - 1, ix); }
  }

  lemma {:induction false} DroppedInRange(s: Sched, n: nat)
    requires InRange(s) && n <= |s.pages|
    ensures forall t | t in DroppedSlots(s.pages, n) :: t.ix < WAKER_PAGE_SIZE
  {
    if n > 0 {
      DroppedInRange(s, n - 1);
      assert L.Small(s.pages[n - 1]);
    }
  }

  lemma KeysMinus(slab: set<Slot>, gone: set<Slot>)
    requires forall t | t in slab || t in gone :: t.ix < WAKER_PAGE_SIZE
    ensures KeysIn(slab - gone) == KeysIn(slab) - KeysIn(gone)
  {
    forall k | k in KeysIn(slab - gone) ensures k !in KeysIn(gone) {
      var t :| t in slab - gone && k == KeyOf(t);
      if k in KeysIn(gone) {
        var u :| u in gone && k == KeyOf(u);
        KeysDistinct(t, u);
      }
    }
  }

  /** An uninterrupted pass of the object is a run of the state machine: from a state whose slab
      and pages are the object's, with no future to poll missing, some steps lead to an idle state
      whose slab and pages are those that `Poll` is proved to leave. */
  lemma PollIsARun(s: Sched, slab: set<nat>, ready: set<nat>) returns (acts: seq<Action>, t: Sched)
    requires s.phase.Idle? && InRange(s) && slab == KeysIn(s.slab)
    requires L.TakenKeys(s.pages, |s.pages|) <= slab
    ensures Reaches(s, acts, t) && t.phase.Idle?
    ensures KeysIn(t.slab) == slab - L.DroppedKeys(s.pages, |s.pages|)
    ensures |t.pages| == |s.pages| && forall i | 0 <= i < |s.pages| :: t.pages[i] == L.AfterPass(s.pages[i], i, ready)
  {
    Present(s, slab);
    DroppedKeysAre(s, |s.pages|);
    DroppedInRange(s, |s.pages|);
    KeysMinus(s.slab, DroppedSlots(s.pages, |s.pages|));
    acts, t := PassRefines(s, ready);
    hide *;
    L.ProgressEnd(s.pages, t.pages, ready);
  }

  lemma Present(s: Sched, slab: set<nat>)
    requires InRange(s) && slab == KeysIn(s.slab) && L.TakenKeys(s.pages, |s.pages|) <= slab
    ensures AllPresent(s)
  {
    forall n, ix | 0 <= n < |s.pages| && ix in L.Taken(s.pages[n]) ensures Slot(n, ix) in s.slab {
      TakenKey(s, n, |s.pages|, ix);
      var t :| t in s.slab && KeyOf(t) == L.Key(n, ix);
      assert L.Small(s.pages[n]);
      KeysDistinct(t, Slot(n, ix));
    }
  }
}
