/** The in-memory queue: queue tokens kept in a fixed array of task slots, and two coroutines
    that complete pushes and pops. */
module MemoryQueue {
  import opened Base

  const MAX_TASKS: nat := 1024
  const UINT32_MAX: nat := 0xFFFF_FFFF

  type Token = nat
  type Sga = seq<Bytes>

  datatype Opcode = PushOp | PopOp

  /** A task slot. `done` once it has been completed, with `value` as its result. */
  datatype Task = Task(valid: bool, token: Token, opcode: Opcode, arg: Sga, done: bool, value: Sga)

  const FreeTask: Task := Task(false, 0, PushOp, [], false, [])

  /** Error numbers, as far as these operations return them. */
  datatype Errno = EINVAL | ENOENT | EAGAIN

  datatype Reply<+T> = Good(value: T) | Bad(errno: Errno)

  /** The queue. `waiting` is the slot whose task the pop coroutine holds while it waits for
      something to be pushed. */
  datatype Queue = Queue(
    qd: nat, tasks: seq<Task>, counter: nat,
    pushTokens: seq<Token>, popTokens: seq<Token>, waiting: Option<nat>, ready: seq<Sga>)

  predicate Shape(q: Queue) {
    && |q.tasks| == MAX_TASKS && q.counter < UINT32_MAX
    && (q.waiting.Some? ==> q.waiting.value < MAX_TASKS)
  }

  function SlotOf(t: nat): (i: nat)
    ensures i < MAX_TASKS
  {
    t % MAX_TASKS
  }

  /** A token carries the counter in its low half and the queue descriptor in its high half. */
  function TokenOf(q: Queue, u: nat): Token { u + q.qd * 0x1_0000_0000 }

  lemma TokenSlot(q: Queue, u: nat)
    ensures SlotOf(TokenOf(q, u)) == SlotOf(u)
  {
    assert TokenOf(q, u) == u + MAX_TASKS * (q.qd * 0x40_0000);
    assert (u + MAX_TASKS * (q.qd * 0x40_0000)) % MAX_TASKS == u % MAX_TASKS;
  }

  // ----- Tokens -----

  /** The first counter from `u` on whose slot is free; reaching the last counter aborts. */
  function NextFree(tasks: seq<Task>, u: nat): (r: Outcome<nat>)
    requires |tasks| == MAX_TASKS && u <= UINT32_MAX
    ensures r.Done? ==> u <= r.value < UINT32_MAX && !tasks[SlotOf(r.value)].valid
    decreases UINT32_MAX - u
  {
    if u == UINT32_MAX then Panic
    else if tasks[SlotOf(u)].valid then NextFree(tasks, u + 1)
    else Done(u)
  }

  // ----- Operations -----

  /** Push: take a token, fill its slot, queue it for the push coroutine. An array without
      segments is refused after the token was taken. */
  function Push(q: Queue, sga: Sga): Outcome<(Queue, Reply<Token>)>
    requires Shape(q)
  {
    var u :- NextFree(q.tasks, q.counter + 1);
    var t := TokenOf(q, u);
    if sga == [] then Done((q.(counter := u), Bad(EINVAL)))
    else
      Done((q.(counter := u, tasks := q.tasks[SlotOf(t) := Task(true, t, PushOp, sga, false, [])],
               pushTokens := q.pushTokens + [t]), Good(t)))
  }

  function Pop(q: Queue): Outcome<(Queue, Token)>
    requires Shape(q)
  {
    var u :- NextFree(q.tasks, q.counter + 1);
    var t := TokenOf(q, u);
    var slot := q.tasks[SlotOf(t)];
    Done((q.(counter := u, tasks := q.tasks[SlotOf(t) := slot.(valid := true, token := t, opcode := PopOp, done := false)],
             popTokens := q.popTokens + [t]), t))
  }

  function Complete(q: Queue, slot: nat, sga: Sga): Queue
    requires slot < |q.tasks|
  {
    q.(tasks := q.tasks[slot := q.tasks[slot].(done := true, value := sga)])
  }

  /** The push coroutine until it yields: every queued push moves to the ready queue. */
  function RunPush(q: Queue): (r: Reply<Queue>)
    requires Shape(q)
    ensures r.Bad? ==> r.errno != EAGAIN
    ensures r.Good? ==> Shape(r.value)
    decreases |q.pushTokens|
  {
    if q.pushTokens == [] then Good(q)
    else
      var slot := SlotOf(q.pushTokens[0]);
      var task := q.tasks[slot];
      if !task.valid then Bad(ENOENT)
      else if task.arg == [] then Bad(EINVAL)
      else RunPush(Complete(q.(pushTokens := q.pushTokens[1..], ready := q.ready + [task.arg]), slot, task.arg))
  }

  /** The pop coroutine until it yields: take the next token, wait for an array, complete. */
  function RunPop(q: Queue): (r: Reply<Queue>)
    requires Shape(q)
    ensures r.Bad? ==> r.errno != EAGAIN
    ensures r.Good? ==> Shape(r.value)
    decreases |q.popTokens|, if q.waiting.Some? then 1 else 0
  {
    if q.waiting.Some? then
      if q.ready == [] then Good(q)
      else RunPop(Complete(q.(waiting := None, ready := q.ready[1..]), q.waiting.value, q.ready[0]))
    else if q.popTokens == [] then Good(q)
    else
      var slot := SlotOf(q.popTokens[0]);
      if !q.tasks[slot].valid then Bad(ENOENT)
      else RunPop(q.(popTokens := q.popTokens[1..], waiting := Some(slot)))
  }

  /** Poll: serve the coroutine of the token's task, then look whether it is done. */
  function Poll(q: Queue, t: Token): (Queue, Reply<Sga>)
    requires Shape(q)
  {
    var slot := SlotOf(t);
    if !q.tasks[slot].valid then (q, Bad(ENOENT))
    else
      var served := if q.tasks[slot].opcode == PushOp then RunPush(q) else RunPop(q);
      if served.Bad? then (q, Bad(served.errno))
      else if !served.value.tasks[slot].done then (served.value, Bad(EAGAIN))
      else (served.value, Good(served.value.tasks[slot].value))
  }

  function Drop(q: Queue, t: Token): Queue
    requires Shape(q)
  {
    q.(tasks := q.tasks[SlotOf(t) := q.tasks[SlotOf(t)].(valid := false)])
  }

  // ----- History and invariant -----

  /** What happened to a queue: everything pushed, with its token, every pop token, how many of
      each have been completed, and the tokens not dropped yet. */
  datatype World = World(
    q: Queue, pushes: seq<(Token, Sga)>, pops: seq<Token>, moved: nat, served: nat, live: set<Token>)

  function Tokens(pushes: seq<(Token, Sga)>): (r: seq<Token>)
    ensures |r| == |pushes| && forall i | 0 <= i < |r| :: r[i] == pushes[i].0
  {
    seq(|pushes|, i requires 0 <= i < |pushes| => pushes[i].0)
  }

  function Arrays(pushes: seq<(Token, Sga)>): (r: seq<Sga>)
    ensures |r| == |pushes| && forall i | 0 <= i < |r| :: r[i] == pushes[i].1
  {
    seq(|pushes|, i requires 0 <= i < |pushes| => pushes[i].1)
  }

  /** The slot array stands for a map from live tokens to tasks: each live token owns its slot,
      and each slot in use belongs to a live token. */
  ghost predicate Slots(q: Queue, live: set<Token>) {
    && Shape(q)
    && (forall t | t in live :: q.tasks[SlotOf(t)].valid && q.tasks[SlotOf(t)].token == t && t <= TokenOf(q, q.counter))
    && (forall i | 0 <= i < MAX_TASKS && q.tasks[i].valid :: q.tasks[i].token in live && SlotOf(q.tasks[i].token) == i)
  }

  function TaskOf(q: Queue, t: Token): Task
    requires |q.tasks| == MAX_TASKS
  {
    q.tasks[SlotOf(t)]
  }

  ghost predicate Increasing(s: seq<Token>) { forall i, j | 0 <= i < j < |s| :: s[i] < s[j] }

  /** The pops the coroutine has not completed: the one it holds and the queued ones. */
  function Outstanding(q: Queue): seq<Token>
    requires Shape(q)
  {
    (if q.waiting.Some? then [q.tasks[q.waiting.value].token] else []) + q.popTokens
  }

  ghost predicate PushesOk(w: World)
    requires |w.q.tasks| == MAX_TASKS
  {
    && w.moved <= |w.pushes| && Increasing(Tokens(w.pushes))
    && w.q.pushTokens == Tokens(w.pushes)[w.moved..]
    && (forall i | w.moved <= i < |w.pushes| ::
          w.pushes[i].0 in w.live && w.pushes[i].1 != [] &&
          TaskOf(w.q, w.pushes[i].0).opcode == PushOp && !TaskOf(w.q, w.pushes[i].0).done &&
          TaskOf(w.q, w.pushes[i].0).arg == w.pushes[i].1)
    && (forall i | 0 <= i < w.moved && w.pushes[i].0 in w.live ::
          TaskOf(w.q, w.pushes[i].0).opcode == PushOp && TaskOf(w.q, w.pushes[i].0).done &&
          TaskOf(w.q, w.pushes[i].0).value == w.pushes[i].1)
    && (forall i | 0 <= i < |w.pushes| :: w.pushes[i].0 <= TokenOf(w.q, w.q.counter))
  }

  ghost predicate PopsOk(w: World)
    requires Shape(w.q)
  {
    && w.served <= |w.pops| && w.served <= |w.pushes| && Increasing(w.pops)
    && Outstanding(w.q) == w.pops[w.served..]
    && (w.q.waiting.Some? ==> w.q.tasks[w.q.waiting.value].valid)
    && (forall i | w.served <= i < |w.pops| ::
          w.pops[i] in w.live && TaskOf(w.q, w.pops[i]).opcode == PopOp && !TaskOf(w.q, w.pops[i]).done)
    && (forall i | 0 <= i < w.served && w.pops[i] in w.live ::
          TaskOf(w.q, w.pops[i]).opcode == PopOp && TaskOf(w.q, w.pops[i]).done &&
          TaskOf(w.q, w.pops[i]).value == w.pushes[i].1)
    && (forall i | 0 <= i < |w.pops| :: w.pops[i] <= TokenOf(w.q, w.q.counter))
  }

  ghost predicate Inv(w: World) {
    && Slots(w.q, w.live) && PushesOk(w) && PopsOk(w)
    && w.served <= w.moved && w.q.ready == Arrays(w.pushes)[w.served..w.moved]
  }

  // ----- One step of a coroutine -----

  lemma CompleteShape(q: Queue, live: set<Token>, t: Token, sga: Sga)
    requires Slots(q, live) && t in live
    ensures var r := Complete(q, SlotOf(t), sga);
      && Slots(r, live)
      && forall u | u in live :: TaskOf(r, u) == if u == t then TaskOf(q, u).(done := true, value := sga) else TaskOf(q, u)
  {
    hide SlotOf;
  }

  /** The push coroutine moves the oldest push that is not in the ready queue yet. */
  function PushOne(q: Queue): Queue
    requires Shape(q) && q.pushTokens != []
  {
    var slot := SlotOf(q.pushTokens[0]);
    Complete(q.(pushTokens := q.pushTokens[1..], ready := q.ready + [q.tasks[slot].arg]), slot, q.tasks[slot].arg)
  }

  lemma PushOneKeeps(w: World)
    requires Inv(w) && w.q.pushTokens != []
    ensures TaskOf(w.q, w.q.pushTokens[0]).valid && TaskOf(w.q, w.q.pushTokens[0]).arg != []
    ensures Inv(w.(q := PushOne(w.q), moved := w.moved + 1))
  {
    hide SlotOf, PopsOk, Outstanding, Increasing;
    NextPush(w);
    var t, sga := w.pushes[w.moved].0, w.pushes[w.moved].1;
    CompleteShape(w.q.(pushTokens := w.q.pushTokens[1..], ready := w.q.ready + [sga]), w.live, t, sga);
    var v := w.(q := PushOne(w.q), moved := w.moved + 1);
    PushesAfter(w, v);
    PopsFrame(w, v);
    assert Arrays(w.pushes)[w.served..w.moved] + [sga] == Arrays(w.pushes)[w.served..w.moved + 1];
  }

  /** The push at the front of the coroutine's queue is the oldest one not moved. */
  lemma NextPush(w: World)
    requires Inv(w) && w.q.pushTokens != []
    ensures w.moved < |w.pushes| && w.q.pushTokens[0] == w.pushes[w.moved].0 && w.q.pushTokens[0] in w.live
    ensures TaskOf(w.q, w.q.pushTokens[0]).valid && TaskOf(w.q, w.q.pushTokens[0]).arg == w.pushes[w.moved].1 != []
    ensures TaskOf(w.q, w.q.pushTokens[0]).opcode == PushOp
  {
    hide SlotOf, PopsOk;
    assert w.q.pushTokens[0] == Tokens(w.pushes)[w.moved];
  }

  lemma PushesAfter(w: World, v: World)
    requires Inv(w) && w.moved < |w.pushes| && Shape(v.q) && v == w.(q := v.q, moved := w.moved + 1)
    requires w.q.pushTokens != [] && v.q.pushTokens == w.q.pushTokens[1..]
    requires v.q.counter == w.q.counter && v.q.qd == w.q.qd
    requires forall u | u in w.live ::
      TaskOf(v.q, u) ==
      if u == w.pushes[w.moved].0 then TaskOf(w.q, u).(done := true, value := w.pushes[w.moved].1) else TaskOf(w.q, u)
    ensures PushesOk(v)
  {
    hide SlotOf, TaskOf, PopsOk, Slots, Outstanding;
    assert forall i | 0 <= i < |w.pushes| && i != w.moved :: Tokens(w.pushes)[i] != Tokens(w.pushes)[w.moved];
  }

  /** Completing a push does not touch the pops. */
  lemma PopsFrame(w: World, v: World)
    requires Inv(w) && Shape(v.q) && v == w.(q := v.q, moved := v.moved)
    requires v.q.popTokens == w.q.popTokens && v.q.waiting == w.q.waiting
    requires v.q.counter == w.q.counter && v.q.qd == w.q.qd
    requires forall i | 0 <= i < MAX_TASKS ::
      v.q.tasks[i].token == w.q.tasks[i].token && v.q.tasks[i].valid == w.q.tasks[i].valid
    requires forall u | u in w.live :: TaskOf(v.q, u) == TaskOf(w.q, u) || TaskOf(w.q, u).opcode == PushOp
    ensures PopsOk(v)
  {
    assert Outstanding(v.q) == Outstanding(w.q);
    hide SlotOf, TaskOf, PushesOk, Slots, Outstanding;
  }

  /** The pop coroutine takes up the next token. */
  lemma TakeKeeps(w: World)
    requires Inv(w) && w.q.waiting.None? && w.q.popTokens != []
    ensures TaskOf(w.q, w.q.popTokens[0]).valid
    ensures Inv(w.(q := w.q.(popTokens := w.q.popTokens[1..], waiting := Some(SlotOf(w.q.popTokens[0])))))
  {
    hide SlotOf, Increasing;
    NextPop(w);
    var t := w.q.popTokens[0];
    var v := w.(q := w.q.(popTokens := w.q.popTokens[1..], waiting := Some(SlotOf(t))));
    assert Outstanding(v.q) == Outstanding(w.q) by { assert [t] + w.q.popTokens[1..] == w.q.popTokens; }
    hide Outstanding;
    assert PushesOk(v) by { hide PopsOk, Slots; }
    assert PopsOk(v) by { hide PushesOk, Slots; }
    assert Slots(v.q, v.live) by { hide PushesOk, PopsOk; }
  }

  lemma NextPop(w: World)
    requires Inv(w) && w.q.waiting.None? && w.q.popTokens != []
    ensures w.q.popTokens[0] in w.live && TaskOf(w.q, w.q.popTokens[0]).valid
    ensures TaskOf(w.q, w.q.popTokens[0]).token == w.q.popTokens[0]
  {
    hide SlotOf, PushesOk;
    assert w.q.popTokens == [] + w.q.popTokens == Outstanding(w.q);
    assert w.q.popTokens[0] == w.pops[w.served..][0] == w.pops[w.served];
  }

  /** The pop coroutine completes the pop it holds with the oldest array. */
  function PopOne(q: Queue): Queue
    requires Shape(q) && q.waiting.Some? && q.ready != []
  {
    Complete(q.(waiting := None, ready := q.ready[1..]), q.waiting.value, q.ready[0])
  }

  lemma TailOf<T>(s: seq<T>, k: nat, m: nat)
    requires k < m <= |s|
    ensures s[k..m][0] == s[k] && s[k..m][1..] == s[k + 1..m]
  {
  }

  /** The pop that the coroutine holds is the oldest one not completed. */
  lemma Held(w: World)
    requires Inv(w) && w.q.waiting.Some? && w.q.ready != []
    ensures w.served < |w.pops| && w.q.popTokens == w.pops[w.served + 1..]
    ensures w.served < w.moved && w.q.ready[0] == w.pushes[w.served].1
    ensures w.q.ready[1..] == Arrays(w.pushes)[w.served + 1..w.moved]
    ensures w.pops[w.served] in w.live && w.q.waiting.value == SlotOf(w.pops[w.served])
  {
    hide SlotOf, PushesOk, Increasing;
    InvShape(w);
    var t := w.q.tasks[w.q.waiting.value].token;
    assert w.pops[w.served..|w.pops|] == w.pops[w.served..] == [t] + w.q.popTokens;
    TailOf(w.pops, w.served, |w.pops|);
    TailOf(Arrays(w.pushes), w.served, w.moved);
  }

  lemma PopOneKeeps(w: World)
    requires Inv(w) && w.q.waiting.Some? && w.q.ready != []
    ensures Inv(w.(q := PopOne(w.q), served := w.served + 1))
    ensures w.served < |w.pops|
  {
    hide SlotOf;
    Held(w);
    var t, sga := w.pops[w.served], w.pushes[w.served].1;
    CompleteShape(w.q.(waiting := None, ready := w.q.ready[1..]), w.live, t, sga);
    var v := w.(q := PopOne(w.q), served := w.served + 1);
    assert Outstanding(v.q) == w.q.popTokens;
    PopsAfter(w, v);
    assert PushesOk(v);
  }

  lemma PopsAfter(w: World, v: World)
    requires Inv(w) && w.served < |w.pops| && w.served < |w.pushes| && Shape(v.q)
    requires v == w.(q := v.q, served := w.served + 1) && v.q.waiting.None? && v.q.counter == w.q.counter && v.q.qd == w.q.qd
    requires Outstanding(v.q) == w.pops[w.served + 1..]
    requires w.pops[w.served] in w.live
    requires forall u | u in w.live ::
      TaskOf(v.q, u) == if u == w.pops[w.served] then TaskOf(w.q, u).(done := true, value := w.pushes[w.served].1) else TaskOf(w.q, u)
    ensures PopsOk(v)
  {
    hide SlotOf, TaskOf, Outstanding, PushesOk;
  }

  // ----- Running a coroutine until it yields -----

  /** Serving the push coroutine never fails and moves every push to the ready queue. */
  lemma {:induction false} RunPushKeeps(w: World)
    requires Inv(w)
    ensures RunPush(w.q).Good? && Inv(w.(q := RunPush(w.q).value, moved := |w.pushes|))
    decreases |w.q.pushTokens|
  {
    hide Inv, Slots, PopsOk, SlotOf, Complete;
    InvShape(w);
    if w.q.pushTokens != [] {
      PushOneKeeps(w);
      var v := w.(q := PushOne(w.q), moved := w.moved + 1);
      InvShape(v);
      PushOneTokens(w.q);
      RunPushKeeps(v);
    }
  }

  lemma PushOneTokens(q: Queue)
    requires Shape(q) && q.pushTokens != []
    ensures PushOne(q).pushTokens == q.pushTokens[1..]
  {
  }

  lemma InvShape(w: World)
    requires Inv(w)
    ensures Shape(w.q) && w.moved <= |w.pushes| && |w.q.pushTokens| == |w.pushes| - w.moved
    ensures |Outstanding(w.q)| == |w.pops| - w.served && |w.q.ready| == w.moved - w.served
  {
  }

  /** Serving the pop coroutine never fails and completes pops until pops or arrays run out. */
  lemma {:induction false} RunPopKeeps(w: World)
    requires Inv(w)
    ensures RunPop(w.q).Good?
    ensures Inv(w.(q := RunPop(w.q).value, served := if |w.pops| <= w.moved then |w.pops| else w.moved))
    decreases |w.q.popTokens|, if w.q.waiting.Some? then 1 else 0
  {
    hide Inv, Slots, PushesOk, PopsOk, SlotOf, Complete;
    InvShape(w);
    if w.q.waiting.Some? {
      if w.q.ready != [] {
        PopOneKeeps(w);
        PopOneTokens(w.q);
        RunPopKeeps(w.(q := PopOne(w.q), served := w.served + 1));
      }
    } else if w.q.popTokens != [] {
      TakeKeeps(w);
      RunPopKeeps(w.(q := w.q.(popTokens := w.q.popTokens[1..], waiting := Some(SlotOf(w.q.popTokens[0])))));
    }
  }

  lemma PopOneTokens(q: Queue)
    requires Shape(q) && q.waiting.Some? && q.ready != []
    ensures PopOne(q).popTokens == q.popTokens && PopOne(q).waiting.None? && Shape(PopOne(q))
  {
  }

  // ----- Calls -----

  datatype Call =
    | DoPush(sga: Sga)
    | DoPop
    | DoPoll(token: Token)
    | DoDrop(token: Token)

  /** Callers poll tokens they have not dropped, and drop tokens that are completed. */
  predicate Allowed(w: World, c: Call)
    requires |w.q.tasks| == MAX_TASKS
  {
    match c
    case DoPush(_) => true
    case DoPop => true
    case DoPoll(t) => t in w.live
    case DoDrop(t) => t in w.live && TaskOf(w.q, t).done
  }

  ghost function Step(w: World, c: Call): Outcome<World>
    requires Shape(w.q)
  {
    match c
    case DoPush(sga) =>
      var r :- Push(w.q, sga);
      if r.1.Bad? then Done(w.(q := r.0))
      else Done(w.(q := r.0, pushes := w.pushes + [(r.1.value, sga)], live := w.live + {r.1.value}))
    case DoPop =>
      var r :- Pop(w.q);
      Done(w.(q := r.0, pops := w.pops + [r.1], live := w.live + {r.1}))
    case DoPoll(t) =>
      var q := Poll(w.q, t).0;
      if TaskOf(w.q, t).opcode == PushOp then Done(w.(q := q, moved := |w.pushes|))
      else Done(w.(q := q, served := if |w.pops| <= w.moved then |w.pops| else w.moved))
    case DoDrop(t) => Done(w.(q := Drop(w.q, t), live := w.live - {t}))
  }

  /** A fresh token is larger than all before and owns a free slot. */
  lemma NewToken(q: Queue, live: set<Token>, u: nat, task: Task)
    requires Slots(q, live) && q.counter < u < UINT32_MAX && !q.tasks[SlotOf(u)].valid
    requires task.valid && task.token == TokenOf(q, u)
    ensures var t := TokenOf(q, u);
      var r := q.(counter := u, tasks := q.tasks[SlotOf(t) := task]);
      && t > TokenOf(q, q.counter) && t !in live && !TaskOf(q, t).valid
      && Slots(r, live + {t}) && TaskOf(r, t) == task
      && forall v | v in live :: TaskOf(r, v) == TaskOf(q, v)
  {
    TokenSlot(q, u);
    hide SlotOf;
  }

  lemma PushKeeps(w: World, sga: Sga)
    requires Inv(w) && Step(w, DoPush(sga)).Done?
    ensures Inv(Step(w, DoPush(sga)).value)
  {
    hide SlotOf, NextFree, Increasing;
    var u := NextFree(w.q.tasks, w.q.counter + 1).value;
    var t := TokenOf(w.q, u);
    var v := Step(w, DoPush(sga)).value;
    if sga == [] {
      CounterMoves(w, u);
    } else {
      hide PushesOk, PopsOk;
      NewToken(w.q, w.live, u, Task(true, t, PushOp, sga, false, []));
      SameSlots(w.q, v.q.(pushTokens := w.q.pushTokens), v.q, v.live);
      PushAppends(w, v, t, sga);
      OutstandingSame(w, v, t);
      PopsSame(w, v, t);
      assert Arrays(v.pushes)[w.served..w.moved] == Arrays(w.pushes)[w.served..w.moved];
    }
  }

  lemma CounterMoves(w: World, u: nat)
    requires Inv(w) && w.q.counter <= u < UINT32_MAX
    ensures Inv(w.(q := w.q.(counter := u)))
  {
    hide SlotOf, Increasing;
    var v := w.(q := w.q.(counter := u));
    assert Outstanding(v.q) == Outstanding(w.q);
    hide Outstanding;
    assert PushesOk(v) by { hide PopsOk, Slots; }
    assert PopsOk(v) by { hide PushesOk, Slots; }
  }

  lemma SameSlots(q: Queue, a: Queue, b: Queue, live: set<Token>)
    requires Slots(a, live) && b == a.(pushTokens := b.pushTokens, popTokens := b.popTokens)
    ensures Slots(b, live)
  {
    hide SlotOf;
  }

  lemma PushAppends(w: World, v: World, t: Token, sga: Sga)
    requires Inv(w) && Shape(v.q) && sga != []
    requires v == w.(q := v.q, pushes := w.pushes + [(t, sga)], live := w.live + {t})
    requires v.q.pushTokens == w.q.pushTokens + [t] && v.q.qd == w.q.qd && v.q.counter >= w.q.counter
    requires TokenOf(w.q, w.q.counter) < t <= TokenOf(v.q, v.q.counter)
    requires TaskOf(v.q, t) == Task(true, t, PushOp, sga, false, [])
    requires forall u | u in w.live :: TaskOf(v.q, u) == TaskOf(w.q, u)
    ensures PushesOk(v)
  {
    hide SlotOf, TaskOf, PopsOk, Slots, Outstanding;
    assert Tokens(v.pushes) == Tokens(w.pushes) + [t];
  }

  lemma PopsSame(w: World, v: World, t: Token)
    requires Inv(w) && Shape(v.q) && v == w.(q := v.q, pushes := v.pushes, live := w.live + {t}) && w.pushes <= v.pushes
    requires Outstanding(v.q) == Outstanding(w.q) && v.q.waiting == w.q.waiting
    requires w.q.waiting.Some? ==> v.q.tasks[v.q.waiting.value] == w.q.tasks[w.q.waiting.value]
    requires v.q.qd == w.q.qd && v.q.counter >= w.q.counter && t > TokenOf(w.q, w.q.counter)
    requires forall u | u in w.live :: TaskOf(v.q, u) == TaskOf(w.q, u)
    ensures PopsOk(v)
  {
    hide SlotOf, TaskOf, PushesOk, Slots, Outstanding;
  }

  lemma OutstandingSame(w: World, v: World, t: Token)
    requires Inv(w) && Shape(v.q) && v.q.waiting == w.q.waiting
    requires |v.q.popTokens| >= |w.q.popTokens| && v.q.popTokens[..|w.q.popTokens|] == w.q.popTokens
    requires forall u | u in w.live :: TaskOf(v.q, u) == TaskOf(w.q, u)
    ensures Outstanding(v.q) == Outstanding(w.q) + v.q.popTokens[|w.q.popTokens|..]
    ensures w.q.waiting.Some? ==> v.q.tasks[v.q.waiting.value] == w.q.tasks[w.q.waiting.value]
  {
    hide SlotOf, PushesOk;
    if w.q.waiting.Some? {
      var i := w.q.waiting.value;
      assert w.q.tasks[i].valid && SlotOf(w.q.tasks[i].token) == i;
      assert TaskOf(v.q, w.q.tasks[i].token) == TaskOf(w.q, w.q.tasks[i].token);
    }
  }

  lemma PopKeeps(w: World)
    requires Inv(w) && Step(w, DoPop).Done?
    ensures Inv(Step(w, DoPop).value)
  {
    hide SlotOf, NextFree;
    var u := NextFree(w.q.tasks, w.q.counter + 1).value;
    var t := TokenOf(w.q, u);
    var v := Step(w, DoPop).value;
    NewToken(w.q, w.live, u, w.q.tasks[SlotOf(t)].(valid := true, token := t, opcode := PopOp, done := false));
    SameSlots(w.q, v.q.(popTokens := w.q.popTokens), v.q, v.live);
    OutstandingSame(w, v, t);
    PopAppends(w, v, t);
    assert PushesOk(v);
  }

  lemma PopAppends(w: World, v: World, t: Token)
    requires Inv(w) && Shape(v.q) && v == w.(q := v.q, pops := w.pops + [t], live := w.live + {t})
    requires Outstanding(v.q) == Outstanding(w.q) + [t] && v.q.waiting == w.q.waiting
    requires w.q.waiting.Some? ==> v.q.tasks[v.q.waiting.value] == w.q.tasks[w.q.waiting.value]
    requires v.q.qd == w.q.qd && v.q.counter >= w.q.counter
    requires TokenOf(w.q, w.q.counter) < t <= TokenOf(v.q, v.q.counter)
    requires TaskOf(v.q, t).opcode == PopOp && !TaskOf(v.q, t).done
    requires forall u | u in w.live :: TaskOf(v.q, u) == TaskOf(w.q, u)
    ensures PopsOk(v)
  {
    hide SlotOf, TaskOf, PushesOk, Slots, Outstanding;
    assert w.pops[w.served..] + [t] == v.pops[v.served..];
  }

  lemma DropKeeps(w: World, t: Token)
    requires Inv(w) && t in w.live && TaskOf(w.q, t).done
    ensures Inv(Step(w, DoDrop(t)).value)
  {
    hide SlotOf;
    var v := Step(w, DoDrop(t)).value;
    assert forall u | u in v.live :: TaskOf(v.q, u) == TaskOf(w.q, u);
    assert Slots(v.q, v.live);
    assert PushesOk(v);
    if w.q.waiting.Some? {
      assert w.q.tasks[w.q.waiting.value].token == Outstanding(w.q)[0] == w.pops[w.served];
    }
    assert Outstanding(v.q) == Outstanding(w.q);
  }

  lemma PollKeeps(w: World, t: Token)
    requires Inv(w) && t in w.live
    ensures Inv(Step(w, DoPoll(t)).value)
  {
    hide SlotOf, RunPush, RunPop, PushesOk, PopsOk;
    assert TaskOf(w.q, t).valid;
    RunPushKeeps(w);
    RunPopKeeps(w);
  }

  lemma StepKeepsInv(w: World, c: Call)
    requires Inv(w) && Allowed(w, c) && Step(w, c).Done?
    ensures Inv(Step(w, c).value)
  {
    hide Inv, Step, Slots;
    match c
    case DoPush(sga) => PushKeeps(w, sga);
    case DoPop => PopKeeps(w);
    case DoPoll(t) => PollKeeps(w, t);
    case DoDrop(t) => DropKeeps(w, t);
  }

  // ----- Tokens never run out while fewer than 1024 are live -----

  lemma {:induction false} SlotTokens(q: Queue, live: set<Token>, n: nat) returns (s: set<Token>)
    requires Slots(q, live) && n <= MAX_TASKS && forall i | 0 <= i < n :: q.tasks[i].valid
    ensures s <= live && |s| == n && forall t | t in s :: SlotOf(t) < n
  {
    hide SlotOf;
    if n == 0 {
      s := {};
    } else {
      s := SlotTokens(q, live, n - 1);
      s := s + {q.tasks[n - 1].token};
    }
  }

  lemma SubsetSize(a: set<Token>, b: set<Token>)
    requires a <= b
    ensures |a| <= |b|
  {
    assert b == a + (b - a);
  }

  /** Live tokens occupy distinct slots, so fewer than 1024 of them leave a slot free. */
  lemma FreeSlot(q: Queue, live: set<Token>) returns (i: nat)
    requires Slots(q, live) && |live| < MAX_TASKS
    ensures i < MAX_TASKS && !q.tasks[i].valid
  {
    hide SlotOf;
    if forall k | 0 <= k < MAX_TASKS :: q.tasks[k].valid {
      var s := SlotTokens(q, live, MAX_TASKS);
      SubsetSize(s, live);
      assert false;
    }
    i :| 0 <= i < MAX_TASKS && !q.tasks[i].valid;
  }

  lemma {:induction false} NextFreeStops(tasks: seq<Task>, u: nat, v: nat)
    requires |tasks| == MAX_TASKS && u <= v < UINT32_MAX && !tasks[SlotOf(v)].valid
    ensures NextFree(tasks, u).Done? && NextFree(tasks, u).value <= v
    decreases v - u
  {
    hide SlotOf;
    if u < v && tasks[SlotOf(u)].valid { NextFreeStops(tasks, u + 1, v); }
  }

  /** The search aborts exactly if no counter that is left has a free slot. */
  lemma NextFreeExact(tasks: seq<Task>, u: nat)
    requires |tasks| == MAX_TASKS && u <= UINT32_MAX
    ensures NextFree(tasks, u).Done? <==> exists v :: u <= v < UINT32_MAX && !tasks[SlotOf(v)].valid
  {
    hide SlotOf;
    if v :| u <= v < UINT32_MAX && !tasks[SlotOf(v)].valid {
      NextFreeStops(tasks, u, v);
    }
  }

  /** The search for a token ends within 1024 steps whenever fewer than 1024 tokens are live and
      the counter is not within that of its end. */
  lemma TokenSearchEnds(q: Queue, live: set<Token>)
    requires Slots(q, live) && |live| < MAX_TASKS && q.counter + MAX_TASKS < UINT32_MAX
    ensures NextFree(q.tasks, q.counter + 1).Done?
    ensures NextFree(q.tasks, q.counter + 1).value <= q.counter + MAX_TASKS
  {
    var i := FreeSlot(q, live);
    var u := q.counter + 1;
    var v := u + (i - u) % MAX_TASKS;
    assert v % MAX_TASKS == i by {
      var d := (i - u) / MAX_TASKS;
      assert v == i - MAX_TASKS * d;
      assert (i - MAX_TASKS * d) % MAX_TASKS == i % MAX_TASKS;
    }
    NextFreeStops(q.tasks, u, v);
  }

  // ----- Runs -----

  function FreeTasks(): (r: seq<Task>)
    ensures |r| == MAX_TASKS && forall i | 0 <= i < MAX_TASKS :: r[i] == FreeTask
  {
    seq(MAX_TASKS, _ => FreeTask)
  }

  function Start(qd: nat): World { World(Queue(qd, FreeTasks(), 0, [], [], None, []), [], [], 0, 0, {}) }

  ghost predicate Run(worlds: seq<World>, calls: seq<Call>) {
    && |worlds| == |calls| + 1 && worlds[0] == Start(worlds[0].q.qd)
    && forall i | 0 <= i < |calls| ::
        Shape(worlds[i].q) && Allowed(worlds[i], calls[i]) && Step(worlds[i], calls[i]) == Done(worlds[i + 1])
  }

  lemma RunStep(worlds: seq<World>, calls: seq<Call>, i: nat)
    requires Run(worlds, calls) && i < |calls|
    ensures |worlds| == |calls| + 1
    ensures Shape(worlds[i].q) && Allowed(worlds[i], calls[i]) && Step(worlds[i], calls[i]) == Done(worlds[i + 1])
  {
    hide Step, Allowed, Shape;
  }

  lemma RunStart(worlds: seq<World>, calls: seq<Call>)
    requires Run(worlds, calls)
    ensures |worlds| == |calls| + 1 && Inv(worlds[0])
  {
    hide Step, Allowed;
  }

  lemma {:induction false} RunInv(worlds: seq<World>, calls: seq<Call>, i: nat)
    requires Run(worlds, calls) && i <= |calls|
    ensures Inv(worlds[i])
  {
    hide Inv, Step, Shape, Run, Allowed;
    if i == 0 {
      RunStart(worlds, calls);
    } else {
      RunStep(worlds, calls, i - 1);
      RunInv(worlds, calls, i - 1);
      StepKeepsInv(worlds[i - 1], calls[i - 1]);
    }
  }

  /** The queue is first in, first out: after every run, polling the k-th pop answers the k-th
      array pushed, provided the push coroutine has moved that many, and asks to try again
      otherwise; and polling any push answers its own array. No poll fails. */
  lemma FirstInFirstOut(worlds: seq<World>, calls: seq<Call>, i: nat, k: nat)
    requires Run(worlds, calls) && i <= |calls|
    ensures var w := worlds[i];
      && Shape(w.q) && w.moved <= |w.pushes|
      && (k < |w.pops| && w.pops[k] in w.live ==>
            Poll(w.q, w.pops[k]).1 == if k < w.moved then Good(w.pushes[k].1) else Bad(EAGAIN))
      && (k < |w.pushes| && w.pushes[k].0 in w.live ==> Poll(w.q, w.pushes[k].0).1 == Good(w.pushes[k].1))
  {
    RunInv(worlds, calls, i);
    var w := worlds[i];
    InvShape(w);
    if k < |w.pops| && w.pops[k] in w.live { PolledPop(w, k); }
    if k < |w.pushes| && w.pushes[k].0 in w.live { PolledPush(w, k); }
  }

  lemma PolledPop(w: World, k: nat)
    requires Inv(w) && k < |w.pops| && w.pops[k] in w.live
    ensures w.moved <= |w.pushes|
    ensures Poll(w.q, w.pops[k]).1 == if k < w.moved then Good(w.pushes[k].1) else Bad(EAGAIN)
  {
    hide SlotOf, RunPop, RunPush;
    RunPopKeeps(w);
    var v := w.(q := RunPop(w.q).value, served := if |w.pops| <= w.moved then |w.pops| else w.moved);
    assert TaskOf(w.q, w.pops[k]).valid && TaskOf(w.q, w.pops[k]).opcode == PopOp;
    assert TaskOf(v.q, w.pops[k]).done == (k < v.served);
  }

  lemma PolledPush(w: World, k: nat)
    requires Inv(w) && k < |w.pushes| && w.pushes[k].0 in w.live
    ensures Poll(w.q, w.pushes[k].0).1 == Good(w.pushes[k].1)
  {
    hide SlotOf, RunPop, RunPush;
    RunPushKeeps(w);
    var v := w.(q := RunPush(w.q).value, moved := |w.pushes|);
    assert TaskOf(w.q, w.pushes[k].0).valid && TaskOf(w.q, w.pushes[k].0).opcode == PushOp;
    assert TaskOf(v.q, w.pushes[k].0).done;
  }

  /** Pops complete in the order they were made, each with the array pushed in the same place:
      whatever has completed and is not dropped holds its array, and nothing after `served` has. */
  lemma PopsCompleteInOrder(worlds: seq<World>, calls: seq<Call>, i: nat, j: nat, k: nat)
    requires Run(worlds, calls) && i <= |calls| && j < k < |worlds[i].pops|
    requires |worlds[i].q.tasks| == MAX_TASKS
    requires worlds[i].pops[j] in worlds[i].live && worlds[i].pops[k] in worlds[i].live
    ensures TaskOf(worlds[i].q, worlds[i].pops[k]).done ==> TaskOf(worlds[i].q, worlds[i].pops[j]).done
  {
    RunInv(worlds, calls, i);
  }

  /** Live tokens occupy distinct slots. */
  lemma DistinctSlots(worlds: seq<World>, calls: seq<Call>, i: nat, t: Token, u: Token)
    requires Run(worlds, calls) && i <= |calls| && t in worlds[i].live && u in worlds[i].live && t != u
    ensures SlotOf(t) != SlotOf(u)
  {
    RunInv(worlds, calls, i);
  }

  /** What the calls answer. After every run, while fewer than 1024 tokens are live and the counter
      is not within that of its end, a push of a nonempty array and a pop are given a token larger
      than every token before, whose task is pending; a push of an empty array is refused and
      queues nothing. */
  lemma CallsAreGranted(worlds: seq<World>, calls: seq<Call>, i: nat, sga: Sga)
    requires Run(worlds, calls) && i <= |calls| && |worlds[i].live| < MAX_TASKS
    requires worlds[i].q.counter + MAX_TASKS < UINT32_MAX
    ensures Shape(worlds[i].q) && Push(worlds[i].q, sga).Done? && Pop(worlds[i].q).Done?
    ensures var w := worlds[i];
      var (q, reply) := Push(w.q, sga).value;
      if sga == [] then reply == Bad(EINVAL) && q == w.q.(counter := q.counter)
      else
        && reply.Good? && Fresh(w, reply.value) && |q.tasks| == MAX_TASKS
        && TaskOf(q, reply.value) == Task(true, reply.value, PushOp, sga, false, [])
        && q.pushTokens == w.q.pushTokens + [reply.value]
    ensures var w := worlds[i];
      var (q, token) := Pop(w.q).value;
      && Fresh(w, token) && |q.tasks| == MAX_TASKS
      && TaskOf(q, token).valid && TaskOf(q, token).opcode == PopOp && !TaskOf(q, token).done
      && q.popTokens == w.q.popTokens + [token]
  {
    hide Run, SlotOf, NextFree;
    RunStart(worlds, calls);
    RunInv(worlds, calls, i);
    var w := worlds[i];
    TokenSearchEnds(w.q, w.live);
    FreshToken(w, NextFree(w.q.tasks, w.q.counter + 1).value);
  }

  /** A token that no call was given before. */
  ghost predicate Fresh(w: World, t: Token) {
    && (forall u | u in w.live :: u < t)
    && (forall k | 0 <= k < |w.pushes| :: w.pushes[k].0 < t) && forall k | 0 <= k < |w.pops| :: w.pops[k] < t
  }

  lemma FreshToken(w: World, u: nat)
    requires Inv(w) && u > w.q.counter
    ensures Fresh(w, TokenOf(w.q, u))
  {
    hide SlotOf, Outstanding, Increasing;
  }

  /** A token that was dropped is unknown, until its slot is given to another token; from then on
      it stands for that one, for a poll looks only at the slot. */
  lemma DroppedTokens(worlds: seq<World>, calls: seq<Call>, i: nat, t: Token)
    requires Run(worlds, calls) && i <= |calls|
    ensures Shape(worlds[i].q)
    ensures var w := worlds[i];
      && Poll(Drop(w.q, t), t).1 == Bad(ENOENT)
      && ((forall u | u in w.live :: SlotOf(u) != SlotOf(t)) ==> Poll(w.q, t) == (w.q, Bad(ENOENT)))
      && forall u | u in w.live && SlotOf(u) == SlotOf(t) :: Poll(w.q, t) == Poll(w.q, u)
  {
    hide Run, SlotOf, RunPush, RunPop;
    RunStart(worlds, calls);
    RunInv(worlds, calls, i);
    var w := worlds[i];
    if w.q.tasks[SlotOf(t)].valid { assert w.q.tasks[SlotOf(t)].token in w.live; }
  }

  /** A queued push whose slot is empty makes the push coroutine fail, whatever comes before. */
  lemma {:induction false} EmptySlotFailsPush(q: Queue, i: nat)
    requires Shape(q) && i < |q.pushTokens| && !q.tasks[SlotOf(q.pushTokens[i])].valid
    ensures RunPush(q).Bad?
    decreases i
  {
    hide SlotOf;
    if i > 0 && q.tasks[SlotOf(q.pushTokens[0])].valid && q.tasks[SlotOf(q.pushTokens[0])].arg != [] {
      EmptySlotFailsPush(PushOne(q), i - 1);
    }
  }

  /** A queued pop whose slot is empty makes the pop coroutine fail as soon as there are arrays
      for the pops before it. */
  lemma {:induction false} EmptySlotFailsPop(q: Queue, i: nat)
    requires Shape(q) && i < |q.popTokens| && !q.tasks[SlotOf(q.popTokens[i])].valid
    requires |q.ready| >= i + if q.waiting.Some? then 1 else 0
    ensures RunPop(q).Bad?
    decreases i, if q.waiting.Some? then 1 else 0
  {
    hide SlotOf;
    if q.waiting.Some? {
      EmptySlotFailsPop(PopOne(q), i);
    } else if i > 0 && q.tasks[SlotOf(q.popTokens[0])].valid {
      EmptySlotFailsPop(q.(popTokens := q.popTokens[1..], waiting := Some(SlotOf(q.popTokens[0]))), i - 1);
    }
  }

  /** Dropping only completed tokens is needed. After any run, dropping a push that has not
      completed makes the push coroutine fail, and so every poll of a push; and dropping a queued
      pop makes the pop coroutine fail once it gets there. */
  lemma EarlyDropFails(worlds: seq<World>, calls: seq<Call>, i: nat, k: nat)
    requires Run(worlds, calls) && i <= |calls|
    ensures Shape(worlds[i].q)
    ensures var q := worlds[i].q;
      && (k < |q.pushTokens| ==> RunPush(Drop(q, q.pushTokens[k])).Bad?)
      && (k < |q.popTokens| && |q.ready| >= k + (if q.waiting.Some? then 1 else 0) ==>
            RunPop(Drop(q, q.popTokens[k])).Bad?)
  {
    hide SlotOf, Run, RunPush, RunPop;
    RunStart(worlds, calls);
    RunInv(worlds, calls, i);
    var q := worlds[i].q;
    if k < |q.pushTokens| { EmptySlotFailsPush(Drop(q, q.pushTokens[k]), k); }
    if k < |q.popTokens| && |q.ready| >= k + (if q.waiting.Some? then 1 else 0) {
      EmptySlotFailsPop(Drop(q, q.popTokens[k]), k);
    }
  }

  // ----- The queue as an object -----

  class MemoryQueue {
    const qd: nat
    const tasks: array<Task>
    var counter: nat
    var pushTokens: seq<Token>
    var popTokens: seq<Token>
    var waiting: Option<nat>
    var ready: seq<Sga>

    ghost predicate Valid()
      reads this, tasks
    {
      && tasks.Length == MAX_TASKS && counter < UINT32_MAX
      && (waiting.Some? ==> waiting.value < MAX_TASKS)
    }

    ghost function View(): (q: Queue)
      reads this, tasks
      ensures Valid() ==> Shape(q)
    {
      Queue(qd, tasks[..], counter, pushTokens, popTokens, waiting, ready)
    }

    constructor (qd: nat)
      ensures Valid() && fresh(tasks) && View() == Start(qd).q
    {
      this.qd := qd;
      tasks := new Task[MAX_TASKS](_ => FreeTask);
      counter, pushTokens, popTokens, waiting, ready := 0, [], [], None, [];
      new;
      assert tasks[..] == FreeTasks();
    }

    /** Advance the counter to the next one with a free slot. */
    method NewQToken() returns (ok: bool)
      requires Valid()
      modifies this`counter
      ensures ok <==> NextFree(tasks[..], old(counter) + 1).Done?
      ensures ok ==> Valid() && counter == NextFree(tasks[..], old(counter) + 1).value
    {
      hide SlotOf;
      counter := counter + 1;
      if counter == UINT32_MAX {
        return false;
      }
      while tasks[SlotOf(counter)].valid
        invariant counter < UINT32_MAX
        invariant NextFree(tasks[..], counter) == NextFree(tasks[..], old(counter) + 1)
        decreases UINT32_MAX - counter
      {
        counter := counter + 1;
        if counter == UINT32_MAX {
          return false;
        }
      }
      ok := true;
    }

    method PushArray(sga: Sga) returns (ok: bool, reply: Reply<Token>)
      requires Valid()
      modifies this, tasks
      ensures ok <==> Push(old(View()), sga).Done?
      ensures ok ==> Valid() && Push(old(View()), sga) == Done((View(), reply))
    {
      hide SlotOf, NextFree;
      reply := Bad(EINVAL);
      ok := NewQToken();
      if ok && sga != [] {
        var t := counter + qd * 0x1_0000_0000;
        tasks[SlotOf(t)] := Task(true, t, PushOp, sga, false, []);
        pushTokens := pushTokens + [t];
        reply := Good(t);
      }
    }

    method PopArray() returns (ok: bool, token: Token)
      requires Valid()
      modifies this, tasks
      ensures ok <==> Pop(old(View())).Done?
      ensures ok ==> Valid() && Pop(old(View())) == Done((View(), token))
    {
      hide SlotOf, NextFree;
      token := 0;
      ok := NewQToken();
      if ok {
        token := counter + qd * 0x1_0000_0000;
        tasks[SlotOf(token)] := tasks[SlotOf(token)].(valid := true, token := token, opcode := PopOp, done := false);
        popTokens := popTokens + [token];
      }
    }

    /** The push coroutine, from one yield to the next. */
    method ServePush() returns (error: Option<Errno>)
      requires Valid()
      modifies this, tasks
      ensures error == (if RunPush(old(View())).Bad? then Some(RunPush(old(View())).errno) else None)
      ensures error.None? ==> Valid() && Good(View()) == RunPush(old(View()))
    {
      hide SlotOf;
      while pushTokens != []
        invariant Valid() && RunPush(View()) == RunPush(old(View()))
        decreases |pushTokens|
      {
        ghost var before := View();
        var slot := SlotOf(pushTokens[0]);
        pushTokens := pushTokens[1..];
        if !tasks[slot].valid {
          return Some(ENOENT);
        }
        var sga := tasks[slot].arg;
        if sga == [] {
          return Some(EINVAL);
        }
        ready := ready + [sga];
        tasks[slot] := tasks[slot].(done := true, value := sga);
        assert View() == PushOne(before);
      }
      error := None;
    }

    /** The pop coroutine, from one yield to the next; it may yield while it holds a task. */
    method ServePop() returns (error: Option<Errno>)
      requires Valid()
      modifies this, tasks
      ensures error == (if RunPop(old(View())).Bad? then Some(RunPop(old(View())).errno) else None)
      ensures error.None? ==> Valid() && Good(View()) == RunPop(old(View()))
    {
      hide SlotOf;
      while waiting.Some? || popTokens != []
        invariant Valid() && RunPop(View()) == RunPop(old(View()))
        decreases |popTokens|, if waiting.Some? then 1 else 0
      {
        ghost var before := View();
        if waiting.None? {
          var slot := SlotOf(popTokens[0]);
          popTokens := popTokens[1..];
          if !tasks[slot].valid {
            return Some(ENOENT);
          }
          waiting := Some(slot);
        } else {
          if ready == [] {
            return None;
          }
          var slot := waiting.value;
          tasks[slot] := tasks[slot].(done := true, value := ready[0]);
          ready := ready[1..];
          waiting := None;
          assert View() == PopOne(before);
        }
      }
      error := None;
    }

    method PollToken(t: Token) returns (reply: Reply<Sga>)
      requires Valid()
      modifies this, tasks
      ensures reply == Poll(old(View()), t).1
      ensures reply.Good? || reply.errno == EAGAIN ==> Valid() && View() == Poll(old(View()), t).0
    {
      hide SlotOf, RunPush, RunPop;
      var slot := SlotOf(t);
      if !tasks[slot].valid {
        return Bad(ENOENT);
      }
      var error;
      if tasks[slot].opcode == PushOp {
        error := ServePush();
      } else {
        error := ServePop();
      }
      if error.Some? {
        return Bad(error.value);
      }
      if !tasks[slot].done {
        return Bad(EAGAIN);
      }
      reply := Good(tasks[slot].value);
    }

    method DropToken(t: Token)
      requires Valid()
      modifies tasks
      ensures Valid() && View() == Drop(old(View()), t)
    {
      hide SlotOf;
      tasks[SlotOf(t)] := tasks[SlotOf(t)].(valid := false);
    }
  }
}
