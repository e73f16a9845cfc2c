/** The scheduler as an object: its slab and its pages, updated in place. */
module SchedulerLoop {
  import opened Base
  import opened WakerPages
  import S = Scheduler

  /** The slots of a page that a pass polls. */
  function Taken(p: Page): set<nat> { p.notified - p.completed - p.dropped }

  /** What an uninterrupted pass leaves of page `n` when exactly the futures in `ready` return
      ready: no notification and no drop is left, and the dropped slots are cleared. */
  ghost function AfterPass(p: Page, n: nat, ready: set<nat>): Page {
    var done := set ix | ix in Taken(p) && Key(n, ix) in ready;
    Page({}, (p.completed + done) - p.dropped, {})
  }

  function Key(n: nat, ix: nat): nat { S.KeyOf(S.Slot(n, ix)) }

  /** The keys of page `n` at the indices `ixs`. */
  ghost function KeysOf(n: nat, ixs: set<nat>): set<nat> { set ix | ix in ixs :: Key(n, ix) }

  function Elems(s: seq<nat>): set<nat> { set x | x in s }

  function Keys(n: nat, ixs: seq<nat>): (r: seq<nat>)
    ensures |r| == |ixs| && forall i | 0 <= i < |r| :: r[i] == Key(n, ixs[i])
  {
    seq(|ixs|, i requires 0 <= i < |ixs| => Key(n, ixs[i]))
  }

  /** The indices among `ixs` whose futures are in `ready`. */
  function Chosen(n: nat, ixs: seq<nat>, ready: set<nat>): set<nat> {
    set ix | ix in ixs && Key(n, ix) in ready
  }

  lemma KeysAscend(n: nat, ixs: seq<nat>)
    requires Ascending(ixs)
    ensures Ascending(Keys(n, ixs))
  {
  }

  lemma KeysAre(n: nat, ixs: seq<nat>, s: set<nat>)
    requires forall i :: i in ixs <==> i in s
    ensures Elems(ixs) == s && Elems(Keys(n, ixs)) == KeysOf(n, s)
  {
    hide Key;
    forall k | k in KeysOf(n, s) ensures k in Elems(Keys(n, ixs)) {
      var ix :| ix in s && k == Key(n, ix);
      assert ix in ixs;
      var i :| 0 <= i < |ixs| && ixs[i] == ix;
      assert Keys(n, ixs)[i] == k;
    }
    forall k | k in Elems(Keys(n, ixs)) ensures k in KeysOf(n, s) {
      var i :| 0 <= i < |ixs| && Keys(n, ixs)[i] == k;
      assert ixs[i] in s;
    }
  }

  lemma BitsBelow(b: bv64)
    ensures forall i | i in Bits(b) :: i < 64
  {
  }

  predicate Small(p: Page) { (forall ix | ix in p.notified :: ix < 64) && forall ix | ix in p.dropped :: ix < 64 }

  /** The keys to poll, and those to remove, on the first `n` pages. */
  ghost function TakenKeys(pages: seq<Page>, n: nat): set<nat>
    requires n <= |pages|
  {
    if n == 0 then {} else TakenKeys(pages, n - 1) + KeysOf(n - 1, Taken(pages[n - 1]))
  }

  ghost function DroppedKeys(pages: seq<Page>, n: nat): set<nat>
    requires n <= |pages|
  {
    if n == 0 then {} else DroppedKeys(pages, n - 1) + KeysOf(n - 1, pages[n - 1].dropped)
  }

  lemma {:induction false} KeyRange(pages: seq<Page>, n: nat)
    requires n <= |pages| && forall i | 0 <= i < |pages| :: Small(pages[i])
    ensures forall k | k in TakenKeys(pages, n) || k in DroppedKeys(pages, n) :: k < n * 64
  {
    if n > 0 {
      KeyRange(pages, n - 1);
      assert Small(pages[n - 1]);
      forall k | k in TakenKeys(pages, n) || k in DroppedKeys(pages, n) ensures k < n * 64 {
        if k !in TakenKeys(pages, n - 1) && k !in DroppedKeys(pages, n - 1) {
          assert k in KeysOf(n - 1, Taken(pages[n - 1])) || k in KeysOf(n - 1, pages[n - 1].dropped);
        }
      }
    }
  }

  /** The keys of page `n` are untouched by the pages before it. */
  lemma PageKeys(pages: seq<Page>, n: nat, slab: set<nat>)
    requires n < |pages| && forall i | 0 <= i < |pages| :: Small(pages[i])
    ensures forall k | k in KeysOf(n, Taken(pages[n])) :: n * 64 <= k && k !in DroppedKeys(pages, n)
    ensures (forall ix | ix in Taken(pages[n]) :: Key(n, ix) in slab - DroppedKeys(pages, n)) <==>
            KeysOf(n, Taken(pages[n])) <= slab
    ensures forall k | k in TakenKeys(pages, n) :: k < n * 64
  {
    KeyRange(pages, n);
    assert Small(pages[n]);
    forall k | k in KeysOf(n, Taken(pages[n])) ensures n * 64 <= k && k !in DroppedKeys(pages, n) {
    }
    forall ix | ix in Taken(pages[n]) ensures Key(n, ix) in KeysOf(n, Taken(pages[n])) {
    }
  }

  lemma {:induction false} TakenGrows(pages: seq<Page>, m: nat, n: nat)
    requires m <= n <= |pages|
    ensures TakenKeys(pages, m) <= TakenKeys(pages, n)
    decreases n
  {
    if m < n { TakenGrows(pages, m, n - 1); }
  }

  lemma AscendingConcat(s: seq<nat>, t: seq<nat>, bound: nat)
    requires Ascending(s) && Ascending(t)
    requires forall k | k in Elems(s) :: k < bound
    requires forall k | k in Elems(t) :: bound <= k
    ensures Ascending(s + t)
  {
    assert forall i | 0 <= i < |s| :: s[i] in Elems(s);
    assert forall i | 0 <= i < |t| :: t[i] in Elems(t);
  }

  /** How far a pass has got: pages before `n` are done, the others untouched. */
  ghost predicate Progress(was: seq<Page>, now: seq<Page>, n: nat, ready: set<nat>) {
    && |was| == |now| && n <= |was|
    && (forall i | 0 <= i < n :: now[i] == AfterPass(was[i], i, ready))
    && (forall i | n <= i < |was| :: now[i] == was[i])
  }

  /** ... and what that did to the slab and the list of polled keys. */
  ghost predicate Swept(was: seq<Page>, slab0: set<nat>, slab: set<nat>, polled: seq<nat>, n: nat) {
    && n <= |was| && slab == slab0 - DroppedKeys(was, n) && TakenKeys(was, n) <= slab0
    && Ascending(polled) && Elems(polled) == TakenKeys(was, n)
  }

  lemma PassStart(was: seq<Page>, slab0: set<nat>, ready: set<nat>)
    ensures Progress(was, was, 0, ready) && Swept(was, slab0, slab0, [], 0)
  {
  }

  lemma ProgressAt(was: seq<Page>, now: seq<Page>, n: nat, ready: set<nat>)
    requires Progress(was, now, n, ready) && n < |was|
    ensures |now| == |was| && now[n] == was[n]
  {
  }

  lemma ProgressStep(was: seq<Page>, a: seq<Page>, b: seq<Page>, n: nat, ready: set<nat>)
    requires Progress(was, a, n, ready) && n < |was| == |b| && b[n] == AfterPass(was[n], n, ready)
    requires forall i | 0 <= i < |b| && i != n :: b[i] == a[i]
    ensures Progress(was, b, n + 1, ready)
  {
    hide AfterPass;
  }

  lemma ProgressEnd(was: seq<Page>, now: seq<Page>, ready: set<nat>)
    requires Progress(was, now, |was|, ready)
    ensures |now| == |was| && forall i | 0 <= i < |now| :: now[i] == AfterPass(was[i], i, ready)
  {
  }

  lemma SweptStep(was: seq<Page>, slab0: set<nat>, slab: set<nat>, polled: seq<nat>, more: seq<nat>, n: nat)
    requires Swept(was, slab0, slab, polled, n) && n < |was| && forall i | 0 <= i < |was| :: Small(was[i])
    requires Ascending(more) && Elems(more) == KeysOf(n, Taken(was[n]))
    requires forall ix | ix in Taken(was[n]) :: Key(n, ix) in slab
    ensures Swept(was, slab0, slab - KeysOf(n, was[n].dropped), polled + more, n + 1)
  {
    hide Key, Taken, KeysOf, Small, Ascending;
    PageKeys(was, n, slab0);
    AscendingConcat(polled, more, n * 64);
    assert Elems(polled + more) == Elems(polled) + Elems(more);
  }

  lemma SweptAborts(was: seq<Page>, slab0: set<nat>, slab: set<nat>, polled: seq<nat>, n: nat)
    requires Swept(was, slab0, slab, polled, n) && n < |was| && forall i | 0 <= i < |was| :: Small(was[i])
    requires !(forall ix | ix in Taken(was[n]) :: Key(n, ix) in slab)
    requires TakenKeys(was, n + 1) <= TakenKeys(was, |was|)
    ensures !(TakenKeys(was, |was|) <= slab0)
  {
    hide Key, Taken, KeysOf, Small, Ascending, Elems;
    PageKeys(was, n, slab0);
  }

  class Scheduler {
    var slab: set<nat>
    var pages: seq<WakerPage>

    ghost predicate Valid()
      reads this
    {
      && (forall i, j | 0 <= i < j < |pages| :: pages[i] != pages[j])
      && forall k | k in slab :: k < |pages| * 64
    }

    ghost function Views(): (r: seq<Page>)
      reads this, pages
      ensures |r| == |pages| && forall i | 0 <= i < |r| :: r[i] == pages[i].View()
    {
      seq(|pages|, i requires 0 <= i < |pages| reads this, pages => pages[i].View())
    }

    constructor ()
      ensures Valid() && slab == {} && pages == []
    {
      slab, pages := {}, [];
    }

    /** Store a future under a vacant key: pages are added until one covers the key, and the
        slot starts out notified, not completed and not dropped. */
    method Insert(key: nat)
      requires Valid() && key !in slab
      modifies this, pages
      ensures Valid() && slab == old(slab) + {key}
      ensures |pages| == if key < |old(pages)| * 64 then |old(pages)| else key / 64 + 1
      ensures |old(pages)| <= |pages| && pages[..|old(pages)|] == old(pages)
      ensures forall i | 0 <= i < |pages| ::
        var was := if i < |old(pages)| then old(pages[i].View()) else Page({}, {}, {});
        pages[i].View() == if i == key / 64 then S.Initialize(was, key % 64) else was
    {
      var n := |pages|;
      while key >= |pages| * 64
        invariant n <= |pages| && pages[..n] == old(pages)
        invariant |pages| == n || |pages| <= key / 64 + 1
        invariant forall i, j | 0 <= i < j < |pages| :: pages[i] != pages[j]
        invariant forall i | n <= i < |pages| :: fresh(pages[i]) && pages[i].View() == Page({}, {}, {})
        invariant forall i | 0 <= i < n :: pages[i].View() == old(pages[i].View())
        invariant slab == old(slab)
        decreases key - |pages| * 64
      {
        var page := new WakerPage();
        pages := pages + [page];
      }
      slab := slab + {key};
      pages[key / 64].Initialize(key % 64);
    }

    /** Take a future back: fails exactly if its handle was dropped or its slot is empty, and
        otherwise frees the slot and clears its bits. */
    method Take(key: nat) returns (ok: bool)
      requires Valid() && key < |pages| * 64
      modifies this`slab, pages
      ensures Valid()
      ensures ok <==> key in old(slab) && key % 64 !in old(pages[key / 64].View()).dropped
      ensures ok ==> slab == old(slab) - {key}
      ensures ok ==> forall i | 0 <= i < |pages| ::
        pages[i].View() == if i == key / 64 then S.Clear(old(pages[i].View()), key % 64) else old(pages[i].View())
    {
      var page := pages[key / 64];
      var gone := page.WasDropped(key % 64);
      if gone {
        return false;
      }
      page.Clear(key % 64);
      ok := key in slab;
      slab := slab - {key};
    }

    /** Poll the futures at `ixs` in order. Aborts exactly if one of the slots is empty. */
    method PollSlots(n: nat, ixs: seq<nat>, ready: set<nat>) returns (ok: bool, polled: seq<nat>)
      requires Valid() && n < |pages| && forall ix | ix in ixs :: ix < 64
      modifies pages[n]
      ensures ok <==> forall ix | ix in ixs :: Key(n, ix) in slab
      ensures ok ==> polled == Keys(n, ixs)
      ensures ok ==> pages[n].View() == old(pages[n].View()).(
        completed := old(pages[n].View()).completed + Chosen(n, ixs, ready))
    {
      hide Key, Bits;
      polled := [];
      var i := 0;
      while i < |ixs|
        invariant 0 <= i <= |ixs|
        invariant forall ix | ix in ixs[..i] :: Key(n, ix) in slab
        invariant polled == Keys(n, ixs[..i])
        invariant pages[n].View() == old(pages[n].View()).(
          completed := old(pages[n].View()).completed + Chosen(n, ixs[..i], ready))
      {
        assert ixs[i] in ixs;
        assert ixs[..i + 1] == ixs[..i] + [ixs[i]];
        if Key(n, ixs[i]) !in slab {
          ok := false;
          return;
        }
        polled := polled + [Key(n, ixs[i])];
        if Key(n, ixs[i]) in ready {
          pages[n].MarkCompleted(ixs[i]);
        }
        i := i + 1;
      }
      assert ixs[..i] == ixs;
      ok := true;
    }

    /** Remove the futures at `ixs` and clear their slots. */
    method RemoveSlots(n: nat, ixs: seq<nat>)
      requires Valid() && n < |pages| && forall ix | ix in ixs :: ix < 64
      modifies this`slab, pages[n]
      ensures Valid() && slab == old(slab) - Elems(Keys(n, ixs))
      ensures var p := old(pages[n].View());
        pages[n].View() == Page(p.notified - Elems(ixs), p.completed - Elems(ixs), p.dropped - Elems(ixs))
    {
      hide Key, Bits;
      var i := 0;
      ghost var p := pages[n].View();
      while i < |ixs|
        invariant 0 <= i <= |ixs| && slab == old(slab) - Elems(Keys(n, ixs[..i]))
        invariant pages[n].View() ==
          Page(p.notified - Elems(ixs[..i]), p.completed - Elems(ixs[..i]), p.dropped - Elems(ixs[..i]))
      {
        assert ixs[i] in ixs;
        assert ixs[..i + 1] == ixs[..i] + [ixs[i]];
        slab := slab - {Key(n, ixs[i])};
        pages[n].Clear(ixs[i]);
        i := i + 1;
      }
      assert ixs[..i] == ixs;
    }

    /** Poll and clean up page `n`. Aborts exactly if a slot to poll is empty; otherwise polls
        each slot to poll once, in ascending order. */
    method PollPage(n: nat, ready: set<nat>) returns (ok: bool, polled: seq<nat>)
      requires Valid() && n < |pages|
      modifies this`slab, pages[n]
      ensures ok <==> forall ix | ix in Taken(old(pages[n].View())) :: Key(n, ix) in old(slab)
      ensures ok ==> Valid() && slab == old(slab) - KeysOf(n, old(pages[n].View()).dropped)
      ensures ok ==> pages[n].View() == AfterPass(old(pages[n].View()), n, ready)
      ensures ok ==> Ascending(polled) && Elems(polled) == KeysOf(n, Taken(old(pages[n].View())))
    {
      hide Key, Bits;
      ghost var was := pages[n].View();
      var notified := pages[n].TakeNotified();
      var dropped := pages[n].TakeDropped();
      var ixs := IterSetBits(notified);
      BitsBelow(notified);
      ok, polled := PollSlots(n, ixs, ready);
      if ok {
        KeysAscend(n, ixs);
        KeysAre(n, ixs, Taken(was));
        var gone := IterSetBits(dropped);
        BitsBelow(dropped);
        KeysAre(n, gone, was.dropped);
        RemoveSlots(n, gone);
      }
    }
  
    /** An uninterrupted pass: aborts exactly if a future to poll is missing; otherwise polls each
        future to poll once, in ascending order of keys, and removes the dropped ones. */
    method Poll(ready: set<nat>) returns (ok: bool, polled: seq<nat>)
      requires Valid()
      modifies this`slab, pages
      ensures ok <==> TakenKeys(old(Views()), |pages|) <= old(slab)
      ensures ok ==> Valid() && slab == old(slab) - DroppedKeys(old(Views()), |pages|)
      ensures ok ==> Ascending(polled) && Elems(polled) == TakenKeys(old(Views()), |pages|)
      ensures ok ==> forall i | 0 <= i < |pages| :: Views()[i] == AfterPass(old(Views())[i], i, ready)
    {
      hide Key, Bits, Taken, KeysOf, AfterPass, Progress, Small, TakenKeys, DroppedKeys, Ascending, Elems;
      ghost var was := Views();
      ghost var slab0 := slab;
      ViewsBelow();
      PassStart(was, slab0, ready);
      polled := [];
      for n := 0 to |pages|
        invariant Valid() && Progress(was, Views(), n, ready) && Swept(was, slab0, slab, polled, n)
      {
        var more;
        ghost var before, slab1 := Views(), slab;
        ProgressAt(was, before, n, ready);
        ok, more := PollPage(n, ready);
        PageKeys(was, n, slab0);
        if !ok {
          TakenGrows(was, n + 1, |pages|);
          SweptAborts(was, slab0, slab1, polled, n);
          return;
        }
        SweptStep(was, slab0, slab1, polled, more, n);
        ProgressStep(was, before, Views(), n, ready);
        polled := polled + more;
      }
      ProgressEnd(was, Views(), ready);
      ok := true;
    }

    lemma ViewsBelow()
      ensures forall i | 0 <= i < |pages| :: Small(Views()[i])
    {
      forall i | 0 <= i < |pages| ensures Small(Views()[i]) {
        BitsBelow(pages[i].notified);
        BitsBelow(pages[i].dropped);
      }
    }
  }
}
