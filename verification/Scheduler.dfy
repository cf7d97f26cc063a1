/** The timer scheduler: one-shot tasks and counted recurring tasks, removed lazily and only
    when some task asks for it. */
module Scheduler {
  import opened Time

  type TaskId = nat

  /** `TimerFunc`; the callback is known by its id. */
  datatype Task = Task(id: TaskId, next: int, once: bool, counter: int, interval: int)

  const UNLIMITED: int := -1

  function Later(t: Task, now: int): Task {
    t.(next := now + t.interval * TICKS_PER_SECOND)
  }

  predicate Fires(t: Task, now: int) {
    now >= t.next && (t.once || t.counter == UNLIMITED || t.counter > 0)
  }

  /** The round of the loop for one task. */
  function Advance(t: Task, now: int): Task {
    if now < t.next || t.once then t
    else if t.counter > 0 then Later(t.(counter := t.counter - 1), now)
    else if t.counter == UNLIMITED then Later(t, now)
    else t
  }

  predicate AsksRemoval(t: Task, now: int) {
    now >= t.next && (t.once || (t.counter != UNLIMITED && t.counter <= 0))
  }

  predicate Erasable(t: Task, now: int) {
    (now >= t.next && t.once) || (!t.once && t.counter == 0)
  }

  function AdvanceAll(tasks: seq<Task>, now: int): (r: seq<Task>)
    ensures |r| == |tasks|
  {
    seq(|tasks|, i requires 0 <= i < |tasks| => Advance(tasks[i], now))
  }

  /** The callbacks run by the loop, in order. */
  function Fired(tasks: seq<Task>, now: int): seq<TaskId> {
    if tasks == [] then []
    else
      var n := |tasks| - 1;
      Fired(tasks[..n], now) + (if Fires(tasks[n], now) then [tasks[n].id] else [])
  }

  function Keep(tasks: seq<Task>, now: int): seq<Task> {
    if tasks == [] then []
    else
      var n := |tasks| - 1;
      Keep(tasks[..n], now) + (if Erasable(tasks[n], now) then [] else [tasks[n]])
  }

  predicate SomeAsks(tasks: seq<Task>, now: int) {
    exists i :: 0 <= i < |tasks| && AsksRemoval(tasks[i], now)
  }

  function Updated(tasks: seq<Task>, now: int): seq<Task> {
    var advanced := AdvanceAll(tasks, now);
    if SomeAsks(tasks, now) then Keep(advanced, now) else advanced
  }

  // ---------------------------------------------------------------- the class

  class Timer {
    var tasks: seq<Task>
    var registered: nat
    ghost var log: seq<Fire>

    ghost function View(): State
      reads this
    {
      State(tasks, registered, log)
    }

    constructor ()
      ensures View() == State([], 0, []) && Wellformed(View())
    {
      tasks, registered, log := [], 0, [];
    }

    /** The new task has not fired and will be treated as if it were alone; no other task
        notices. */
    method DelayExecute(now: int, delaySeconds: int) returns (id: TaskId)
      requires Wellformed(View())
      modifies this`tasks, this`registered
      ensures Wellformed(View()) && !Live(old(tasks), id)
      ensures Tracks(View(), Solo(NewTask(id, Delay(now, delaySeconds)), []))
      ensures forall o :: Tracks(old(View()), o) ==> Tracks(View(), o)
      ensures View() == Step(old(View()), Delay(now, delaySeconds))
    {
      hide Tracks, Wellformed, Live;
      RegisterTracks(View(), Delay(now, delaySeconds));
      id := registered;
      tasks := tasks + [Task(id, now + delaySeconds * TICKS_PER_SECOND, true, 1, 0)];
      registered := registered + 1;
    }

    method RecurringExecute(now: int, interval: int, counter: int) returns (id: TaskId)
      requires Wellformed(View())
      modifies this`tasks, this`registered
      ensures Wellformed(View()) && !Live(old(tasks), id)
      ensures Tracks(View(), Solo(NewTask(id, Recur(now, interval, counter)), []))
      ensures forall o :: Tracks(old(View()), o) ==> Tracks(View(), o)
      ensures View() == Step(old(View()), Recur(now, interval, counter))
    {
      hide Tracks, Wellformed, Live;
      RegisterTracks(View(), Recur(now, interval, counter));
      id := registered;
      tasks := tasks + [Task(id, now, false, counter, interval)];
      registered := registered + 1;
    }

    /** `erase(remove_if(...))`. */
    method EraseDone(now: int)
      modifies this`tasks
      ensures tasks == Keep(old(tasks), now)
    {
      ghost var was := tasks;
      var kept: seq<Task> := [];
      var i := 0;
      while i < |tasks|
        invariant i <= |tasks| && tasks == was
        invariant kept == Keep(was[..i], now)
      {
        assert was[..i + 1][..i] == was[..i];
        if !Erasable(tasks[i], now) {
          kept := kept + [tasks[i]];
        }
        i := i + 1;
      }
      assert was[..i] == was;
      tasks := kept;
    }

    /** The loop of `Update` and the removal after it. */
    method RunTasks(now: int) returns (fired: seq<TaskId>)
      modifies this`tasks
      ensures tasks == Updated(old(tasks), now)
      ensures fired == Fired(old(tasks), now)
    {
      hide Keep, Erasable;
      fired := [];
      if tasks == [] {
        return;
      }
      ghost var was := tasks;
      var remove := false;
      var i := 0;
      while i < |tasks|
        invariant i <= |tasks| == |was|
        invariant forall k :: 0 <= k < |tasks| ==> tasks[k] == if k < i then Advance(was[k], now) else was[k]
        invariant fired == Fired(was[..i], now)
        invariant remove <==> exists k :: 0 <= k < i && AsksRemoval(was[k], now)
      {
        assert was[..i + 1][..i] == was[..i];
        var t := tasks[i];
        i := i + 1;
        if now >= t.next {
          if t.once {
            remove := true;
          } else {
            if t.counter != -1 && t.counter > 0 {
              t := t.(counter := t.counter - 1);
            } else if t.counter != -1 {
              remove := true;
              continue;
            }
            t := t.(next := now + t.interval * TICKS_PER_SECOND);
            tasks := tasks[i - 1 := t];
          }
          fired := fired + [t.id];
        }
      }
      assert was[..i] == was;
      assert tasks == AdvanceAll(was, now);
      if remove {
        EraseDone(now);
      }
    }

    /** Every task, in the list or gone from it, does what it would do alone. */
    method Update(now: int) returns (fired: seq<TaskId>)
      requires Wellformed(View())
      modifies this`tasks, this`log
      ensures Wellformed(View())
      ensures forall o :: Tracks(old(View()), o) ==> Tracks(View(), After(o, now))
      ensures View() == Step(old(View()), Call.Update(now))
      ensures fired == Fired(old(tasks), now)
    {
      hide Wellformed, Tracks, After, Updated;
      ghost var s := View();
      UpdateWellformed(s, now);
      fired := RunTasks(now);
      log := log + Stamped(fired, now);
      forall o | Tracks(s, o)
        ensures Tracks(View(), After(o, now))
      {
        TracksUpdate(s, o, now);
      }
    }
  }

  // ---------------------------------------------------------------- runs

  datatype Call =
    | Delay(now: int, seconds: int)
    | Recur(now: int, interval: int, counter: int)
    | Update(now: int)

  datatype Fire = Fire(id: TaskId, at: int)

  /** Tasks get their ids in the order of registration. */
  datatype State = State(tasks: seq<Task>, registered: nat, log: seq<Fire>)

  function Stamped(ids: seq<TaskId>, now: int): seq<Fire> {
    seq(|ids|, i requires 0 <= i < |ids| => Fire(ids[i], now))
  }

  function NewTask(id: TaskId, c: Call): Task
    requires !c.Update?
  {
    match c
    case Delay(now, seconds) => Task(id, now + seconds * TICKS_PER_SECOND, true, 1, 0)
    case Recur(now, interval, counter) => Task(id, now, false, counter, interval)
  }

  function Step(s: State, c: Call): State {
    match c
    case Update(now) => State(Updated(s.tasks, now), s.registered, s.log + Stamped(Fired(s.tasks, now), now))
    case _ => State(s.tasks + [NewTask(s.registered, c)], s.registered + 1, s.log)
  }

  function Run(s: State, cs: seq<Call>): State {
    if cs == [] then s else Step(Run(s, cs[..|cs| - 1]), cs[|cs| - 1])
  }

  function FiresOf(log: seq<Fire>, id: TaskId): seq<int> {
    if log == [] then []
    else
      var n := |log| - 1;
      FiresOf(log[..n], id) + (if log[n].id == id then [log[n].at] else [])
  }

  /** The instants of the Update calls. */
  function Updates(cs: seq<Call>): seq<int> {
    if cs == [] then []
    else
      var n := |cs| - 1;
      Updates(cs[..n]) + (if cs[n].Update? then [cs[n].now] else [])
  }

  // ---------------------------------------------------------------- one task alone

  /** A task that is never removed, through a sequence of updates; a one-shot is done after its
      first fire. */
  datatype Solo = Solo(task: Task, fires: seq<int>)

  predicate Done(o: Solo) {
    if o.task.once then o.fires != [] else o.task.counter == 0
  }

  function Alone(task: Task, updates: seq<int>): Solo {
    if updates == [] then Solo(task, [])
    else
      var n := |updates| - 1;
      var o := Alone(task, updates[..n]);
      if Fires(o.task, updates[n]) && !Done(o)
      then Solo(Advance(o.task, updates[n]), o.fires + [updates[n]]) else o
  }

  predicate UniqueIds(tasks: seq<Task>) {
    forall i, j :: 0 <= i < j < |tasks| ==> tasks[i].id != tasks[j].id
  }

  /** Ids are unique, and nothing has fired that was not registered. */
  predicate Wellformed(s: State) {
    && UniqueIds(s.tasks)
    && (forall i :: 0 <= i < |s.tasks| ==> s.tasks[i].id < s.registered)
    && (forall i :: 0 <= i < |s.log| ==> s.log[i].id < s.registered)
  }

  predicate Live(tasks: seq<Task>, id: TaskId) {
    exists i :: 0 <= i < |tasks| && tasks[i].id == id
  }

  /** The scheduler treats the task as if it were alone: it is in the list exactly as it would
      be, or it is done and gone. */
  predicate Tracks(s: State, o: Solo) {
    && o.task.id < s.registered
    && FiresOf(s.log, o.task.id) == o.fires
    && (Live(s.tasks, o.task.id) ==> o.task in s.tasks && (o.task.once ==> !Done(o)))
    && (!Live(s.tasks, o.task.id) ==> Done(o))
  }

  lemma {:induction false} FiresOfConcat(a: seq<Fire>, b: seq<Fire>, id: TaskId)
    ensures FiresOf(a + b, id) == FiresOf(a, id) + FiresOf(b, id)
    decreases |b|
  {
    if b == [] {
      assert a + b == a;
    } else {
      var n := |b| - 1;
      assert (a + b)[..|a + b| - 1] == a + b[..n];
      FiresOfConcat(a, b[..n], id);
    }
  }

  predicate SomeFires(tasks: seq<Task>, now: int, id: TaskId) {
    exists i :: 0 <= i < |tasks| && tasks[i].id == id && Fires(tasks[i], now)
  }

  lemma {:induction false} SomeFiresLast(tasks: seq<Task>, now: int, id: TaskId)
    requires tasks != []
    ensures var n := |tasks| - 1;
            SomeFires(tasks, now, id) <==> SomeFires(tasks[..n], now, id) || (tasks[n].id == id && Fires(tasks[n], now))
    ensures UniqueIds(tasks) ==> UniqueIds(tasks[..|tasks| - 1])
    ensures UniqueIds(tasks) && tasks[|tasks| - 1].id == id ==> !SomeFires(tasks[..|tasks| - 1], now, id)
  {
    hide Fires;
    var n := |tasks| - 1;
    if SomeFires(tasks[..n], now, id) {
      var i :| 0 <= i < n && tasks[..n][i].id == id && Fires(tasks[..n][i], now);
      assert tasks[i] == tasks[..n][i];
    }
    if SomeFires(tasks, now, id) {
      var i :| 0 <= i < |tasks| && tasks[i].id == id && Fires(tasks[i], now);
      if i < n {
        assert tasks[..n][i] == tasks[i];
      }
    }
  }

  lemma {:induction false} StampedMore(ids: seq<TaskId>, more: seq<TaskId>, now: int)
    ensures Stamped(ids + more, now) == Stamped(ids, now) + Stamped(more, now)
  {
  }

  lemma {:induction false} FiresOfOne(id: TaskId, other: TaskId, now: int)
    ensures FiresOf(Stamped([other], now), id) == if other == id then [now] else []
    ensures FiresOf(Stamped([], now), id) == []
  {
    assert Stamped([other], now) == [Fire(other, now)];
    assert [Fire(other, now)][..0] == [];
  }

  lemma {:induction false} FiredOnce(tasks: seq<Task>, now: int, id: TaskId)
    requires UniqueIds(tasks)
    ensures FiresOf(Stamped(Fired(tasks, now), now), id) == if SomeFires(tasks, now, id) then [now] else []
  {
    hide Fires, UniqueIds, SomeFires, FiresOf, Stamped;
    if tasks == [] {
      NobodyFires(now, id);
      FiresOfOne(id, id, now);
    } else {
      var n := |tasks| - 1;
      SomeFiresLast(tasks, now, id);
      FiredOnce(tasks[..n], now, id);
      var last: seq<TaskId> := if Fires(tasks[n], now) then [tasks[n].id] else [];
      StampedMore(Fired(tasks[..n], now), last, now);
      FiresOfConcat(Stamped(Fired(tasks[..n], now), now), Stamped(last, now), id);
      FiresOfOne(id, tasks[n].id, now);
    }
  }

  lemma {:induction false} NobodyFires(now: int, id: TaskId)
    ensures !SomeFires([], now, id)
  {
  }

  lemma {:induction false} KeepHas(tasks: seq<Task>, now: int, t: Task)
    ensures t in Keep(tasks, now) <==> t in tasks && !Erasable(t, now)
  {
    if tasks != [] {
      KeepHas(tasks[..|tasks| - 1], now, t);
    }
  }

  lemma {:induction false} KeepUnique(tasks: seq<Task>, now: int)
    requires UniqueIds(tasks)
    ensures UniqueIds(Keep(tasks, now))
  {
    if tasks != [] {
      var n := |tasks| - 1;
      KeepUnique(tasks[..n], now);
      forall i | 0 <= i < |Keep(tasks[..n], now)|
        ensures Keep(tasks[..n], now)[i].id != tasks[n].id
      {
        KeepHas(tasks[..n], now, Keep(tasks[..n], now)[i]);
      }
    }
  }

  lemma {:induction false} UpdatedHas(tasks: seq<Task>, now: int, t: Task)
    ensures t in Updated(tasks, now) <==>
            t in AdvanceAll(tasks, now) && (SomeAsks(tasks, now) ==> !Erasable(t, now))
  {
    KeepHas(AdvanceAll(tasks, now), now, t);
  }

  lemma {:induction false} AdvancedId(tasks: seq<Task>, now: int, t: Task)
    requires t in AdvanceAll(tasks, now)
    ensures exists i :: 0 <= i < |tasks| && t == Advance(tasks[i], now) && t.id == tasks[i].id
  {
  }

  lemma {:induction false} UpdateWellformed(s: State, now: int)
    requires Wellformed(s)
    ensures Wellformed(Step(s, Update(now)))
  {
    var t := Step(s, Update(now));
    KeepUnique(AdvanceAll(s.tasks, now), now);
    forall i | 0 <= i < |t.tasks|
      ensures t.tasks[i].id < t.registered
    {
      UpdatedHas(s.tasks, now, t.tasks[i]);
      AdvancedId(s.tasks, now, t.tasks[i]);
    }
    forall i | 0 <= i < |Fired(s.tasks, now)|
      ensures Fired(s.tasks, now)[i] < s.registered
    {
      FiredIds(s.tasks, now, i);
    }
  }

  lemma {:induction false} FiredIds(tasks: seq<Task>, now: int, i: nat)
    requires i < |Fired(tasks, now)|
    ensures exists k :: 0 <= k < |tasks| && tasks[k].id == Fired(tasks, now)[i]
  {
    var n := |tasks| - 1;
    if i < |Fired(tasks[..n], now)| {
      FiredIds(tasks[..n], now, i);
    }
  }

  lemma {:induction false} StepWellformed(s: State, c: Call)
    requires Wellformed(s)
    ensures Wellformed(Step(s, c))
  {
    if c.Update? {
      UpdateWellformed(s, c.now);
    }
  }

  function After(o: Solo, now: int): Solo {
    if Fires(o.task, now) && !Done(o) then Solo(Advance(o.task, now), o.fires + [now]) else o
  }

  /** What one update does to a tracked task that is in the list. */
  lemma {:induction false} LiveAfterUpdate(tasks: seq<Task>, now: int, t: Task)
    requires UniqueIds(tasks) && t in tasks
    ensures Live(Updated(tasks, now), t.id) <==> !(SomeAsks(tasks, now) && Erasable(Advance(t, now), now))
    ensures Live(Updated(tasks, now), t.id) ==> Advance(t, now) in Updated(tasks, now)
    ensures SomeFires(tasks, now, t.id) <==> Fires(t, now)
  {
    var k :| 0 <= k < |tasks| && tasks[k] == t;
    var u := Advance(t, now);
    assert AdvanceAll(tasks, now)[k] == u;
    UpdatedHas(tasks, now, u);
    if Live(Updated(tasks, now), t.id) {
      var j :| 0 <= j < |Updated(tasks, now)| && Updated(tasks, now)[j].id == t.id;
      UpdatedHas(tasks, now, Updated(tasks, now)[j]);
      AdvancedId(tasks, now, Updated(tasks, now)[j]);
    }
  }

  lemma {:induction false} GoneStaysGone(tasks: seq<Task>, now: int, id: TaskId)
    requires !Live(tasks, id)
    ensures !Live(Updated(tasks, now), id)
  {
    if j :| 0 <= j < |Updated(tasks, now)| && Updated(tasks, now)[j].id == id {
      UpdatedHas(tasks, now, Updated(tasks, now)[j]);
      AdvancedId(tasks, now, Updated(tasks, now)[j]);
    }
  }

  lemma {:induction false} TracksUpdate(s: State, o: Solo, now: int)
    requires Wellformed(s) && Tracks(s, o)
    ensures Tracks(Step(s, Update(now)), After(o, now))
  {
    hide Updated, Fired, Wellformed;
    var id := o.task.id;
    assert UniqueIds(s.tasks) by {
      WellformedUnique(s);
    }
    FiresOfConcat(s.log, Stamped(Fired(s.tasks, now), now), id);
    FiredOnce(s.tasks, now, id);
    if Live(s.tasks, id) {
      LiveAfterUpdate(s.tasks, now, o.task);
      var k :| 0 <= k < |s.tasks| && s.tasks[k] == o.task;
      assert AsksRemoval(s.tasks[k], now) ==> SomeAsks(s.tasks, now);
    } else {
      GoneStaysGone(s.tasks, now, id);
      assert forall i :: 0 <= i < |s.tasks| ==> s.tasks[i].id != id;
    }
  }

  lemma {:induction false} WellformedUnique(s: State)
    requires Wellformed(s)
    ensures UniqueIds(s.tasks)
  {
  }

  lemma {:induction false} TracksRegister(s: State, o: Solo, c: Call)
    requires Wellformed(s) && Tracks(s, o) && !c.Update?
    ensures Tracks(Step(s, c), o)
  {
  }

  lemma {:induction false} NothingBefore(log: seq<Fire>, id: TaskId)
    requires forall i :: 0 <= i < |log| ==> log[i].id < id
    ensures FiresOf(log, id) == []
  {
    if log != [] {
      NothingBefore(log[..|log| - 1], id);
    }
  }

  lemma {:induction false} TracksNew(s: State, c: Call)
    requires Wellformed(s) && !c.Update?
    ensures Wellformed(Step(s, c)) && Tracks(Step(s, c), Solo(NewTask(s.registered, c), []))
  {
    NothingBefore(s.log, s.registered);
    var t := Step(s, c);
    assert t.tasks[|s.tasks|] == NewTask(s.registered, c);
    StepWellformed(s, c);
  }

  lemma {:induction false} RegisterTracks(s: State, c: Call)
    requires Wellformed(s) && !c.Update?
    ensures Wellformed(Step(s, c)) && !Live(s.tasks, s.registered)
    ensures Tracks(Step(s, c), Solo(NewTask(s.registered, c), []))
    ensures forall o :: Tracks(s, o) ==> Tracks(Step(s, c), o)
  {
    hide Tracks, Step;
    TracksNew(s, c);
    forall o | Tracks(s, o)
      ensures Tracks(Step(s, c), o)
    {
      TracksRegister(s, o, c);
    }
  }

  /** Independence: in any run a task fires exactly when it would fire alone, whatever other
      tasks are registered, fire or are removed in between. */
  lemma {:induction false} TaskIsIndependent(s: State, c: Call, cs: seq<Call>)
    requires Wellformed(s) && !c.Update?
    ensures Wellformed(Run(Step(s, c), cs))
    ensures Tracks(Run(Step(s, c), cs), Alone(NewTask(s.registered, c), Updates(cs)))
  {
    hide Wellformed, Tracks, Step;
    if cs == [] {
      TracksNew(s, c);
    } else {
      var n := |cs| - 1;
      TaskIsIndependent(s, c, cs[..n]);
      var t := Run(Step(s, c), cs[..n]);
      var us := Updates(cs[..n]);
      var task := NewTask(s.registered, c);
      StepWellformed(t, cs[n]);
      if cs[n].Update? {
        TracksUpdate(t, Alone(task, us), cs[n].now);
        assert (us + [cs[n].now])[..|us|] == us;
        assert Alone(task, us + [cs[n].now]) == After(Alone(task, us), cs[n].now);
      } else {
        TracksRegister(t, Alone(task, us), cs[n]);
        assert us + [] == us;
      }
    }
  }

  // ---------------------------------------------------------------- what a task alone does

  lemma {:induction false} AloneKeeps(task: Task, updates: seq<int>)
    ensures var t := Alone(task, updates).task;
            t.id == task.id && t.once == task.once && t.interval == task.interval
  {
    if updates != [] {
      AloneKeeps(task, updates[..|updates| - 1]);
    }
  }

  /** Conservation: fires and remaining counter add up to the number asked for. */
  lemma {:induction false} AloneConserves(task: Task, updates: seq<int>)
    requires !task.once && task.counter >= 0
    ensures var o := Alone(task, updates);
            o.task.counter >= 0 && |o.fires| + o.task.counter == task.counter
  {
    if updates != [] {
      AloneKeeps(task, updates[..|updates| - 1]);
      AloneConserves(task, updates[..|updates| - 1]);
    }
  }

  lemma {:induction false} AloneUnlimited(task: Task, updates: seq<int>)
    requires !task.once && task.counter < 0
    ensures Alone(task, updates).task.counter == task.counter
    ensures task.counter != UNLIMITED ==> Alone(task, updates).fires == []
  {
    if updates != [] {
      AloneKeeps(task, updates[..|updates| - 1]);
      AloneUnlimited(task, updates[..|updates| - 1]);
    }
  }

  predicate Spaced(fires: seq<int>, gap: int) {
    forall i :: 0 < i < |fires| ==> fires[i - 1] + gap <= fires[i]
  }

  lemma {:induction false} AloneSpaced(task: Task, updates: seq<int>)
    requires !task.once
    ensures var o := Alone(task, updates);
            && Spaced(o.fires, task.interval * TICKS_PER_SECOND)
            && o.task.next == (if o.fires == [] then task.next else o.fires[|o.fires| - 1] + task.interval * TICKS_PER_SECOND)
            && (o.fires != [] ==> o.fires[0] >= task.next)
  {
    if updates != [] {
      AloneKeeps(task, updates[..|updates| - 1]);
      AloneSpaced(task, updates[..|updates| - 1]);
    }
  }

  /** The instants that fire when nothing limits their number: the first that is not before
      `due`, then each that is not before the last one plus `gap`. */
  function Greedy(updates: seq<int>, due: int, gap: int): seq<int> {
    if updates == [] then []
    else
      var n := |updates| - 1;
      var earlier := Greedy(updates[..n], due, gap);
      var next := if earlier == [] then due else earlier[|earlier| - 1] + gap;
      if updates[n] >= next then earlier + [updates[n]] else earlier
  }

  function Take(v: seq<int>, n: nat): seq<int> {
    if |v| <= n then v else v[..n]
  }

  lemma {:induction false} AloneGreedy(task: Task, updates: seq<int>)
    requires !task.once && task.counter >= 0
    ensures Alone(task, updates).fires == Take(Greedy(updates, task.next, task.interval * TICKS_PER_SECOND), task.counter)
  {
    if updates != [] {
      var before := updates[..|updates| - 1];
      AloneKeeps(task, before);
      AloneConserves(task, before);
      AloneSpaced(task, before);
      AloneGreedy(task, before);
    }
  }

  lemma {:induction false} AloneForever(task: Task, updates: seq<int>)
    requires !task.once && task.counter == UNLIMITED
    ensures Alone(task, updates).fires == Greedy(updates, task.next, task.interval * TICKS_PER_SECOND)
  {
    if updates != [] {
      var before := updates[..|updates| - 1];
      AloneKeeps(task, before);
      AloneUnlimited(task, before);
      AloneSpaced(task, before);
      AloneForever(task, before);
    }
  }

  /** The first instant that is not before `due`, if any. */
  function FirstFrom(updates: seq<int>, due: int): seq<int> {
    if updates == [] then []
    else
      var n := |updates| - 1;
      var earlier := FirstFrom(updates[..n], due);
      if earlier != [] then earlier else if updates[n] >= due then [updates[n]] else []
  }

  lemma {:induction false} AloneOnce(task: Task, updates: seq<int>)
    requires task.once
    ensures Alone(task, updates) == Solo(task, FirstFrom(updates, task.next))
  {
    if updates != [] {
      AloneOnce(task, updates[..|updates| - 1]);
    }
  }

  // ---------------------------------------------------------------- the promises of the interface

  /** A task registered for `n` executions fires at the first `n` updates that are an interval
      after its last fire, and is removed only after `n` fires; what is left in its counter is
      what it still owes. */
  lemma {:induction false} RecurringTask(s: State, now: int, interval: int, n: nat, cs: seq<Call>)
    requires Wellformed(s)
    ensures var id := s.registered;
            var end := Run(Step(s, Recur(now, interval, n)), cs);
            var fires := FiresOf(end.log, id);
            && fires == Take(Greedy(Updates(cs), now, interval * TICKS_PER_SECOND), n)
            && |fires| <= n
            && Spaced(fires, interval * TICKS_PER_SECOND)
            && (!Live(end.tasks, id) ==> |fires| == n)
            && (forall i :: 0 <= i < |end.tasks| && end.tasks[i].id == id ==> |fires| + end.tasks[i].counter == n)
  {
    hide Step, Advance, Fires;
    var c := Recur(now, interval, n);
    var task := NewTask(s.registered, c);
    TaskIsIndependent(s, c, cs);
    AloneKeeps(task, Updates(cs));
    AloneConserves(task, Updates(cs));
    AloneSpaced(task, Updates(cs));
    AloneGreedy(task, Updates(cs));
  }

  /** A task registered with -1 fires at all such updates and is never removed; any other negative count never fires. */
  lemma {:induction false} UnlimitedTask(s: State, now: int, interval: int, counter: int, cs: seq<Call>)
    requires Wellformed(s) && counter < 0
    ensures var id := s.registered;
            var end := Run(Step(s, Recur(now, interval, counter)), cs);
            && Live(end.tasks, id)
            && Spaced(FiresOf(end.log, id), interval * TICKS_PER_SECOND)
            && FiresOf(end.log, id) ==
               if counter == UNLIMITED then Greedy(Updates(cs), now, interval * TICKS_PER_SECOND) else []
  {
    hide Step, Advance, Fires;
    var c := Recur(now, interval, counter);
    var task := NewTask(s.registered, c);
    TaskIsIndependent(s, c, cs);
    AloneKeeps(task, Updates(cs));
    AloneUnlimited(task, Updates(cs));
    AloneSpaced(task, Updates(cs));
    if counter == UNLIMITED {
      AloneForever(task, Updates(cs));
    }
  }

  /** A delayed task fires once, at the first update not before its due time, and is removed by
      that update. */
  lemma {:induction false} DelayedTask(s: State, now: int, seconds: int, cs: seq<Call>)
    requires Wellformed(s)
    ensures var id := s.registered;
            var end := Run(Step(s, Delay(now, seconds)), cs);
            && FiresOf(end.log, id) == FirstFrom(Updates(cs), now + seconds * TICKS_PER_SECOND)
            && (Live(end.tasks, id) <==> FiresOf(end.log, id) == [])
  {
    hide Step, Advance, Fires;
    var c := Delay(now, seconds);
    TaskIsIndependent(s, c, cs);
    AloneOnce(NewTask(s.registered, c), Updates(cs));
  }
}
