/** The initial copy: threads take tables from a shared linked list under a mutex, copy them row by row, and
    the main thread adds up what they counted. */
module CopyQueue {
  import opened OptionType

  // ---- The linked list ---------------------------------------------------------------------------------------

  class TaskHd {
    const id: nat
    var next: TaskHd?

    constructor (id: nat)
      ensures this.id == id && next == null
    {
      this.id := id;
      this.next := null;
    }
  }

  /** The shared head of the list and its length.  `rest` is the list that is left. */
  class ThreadHd {
    var lTask: TaskHd?
    var ntask: int
    ghost var rest: seq<TaskHd>

    ghost predicate Valid()
      reads this, rest
    {
      && ntask == |rest|
      && lTask == (if rest == [] then null else rest[0])
      && forall i | 0 <= i < |rest| - 1 :: rest[i].next == rest[i + 1]
    }

    /** The list of all tables, in order. */
    constructor (tasks: array<TaskHd>)
      requires forall i, j | 0 <= i < j < tasks.Length :: tasks[i] != tasks[j]
      modifies tasks[..]
      ensures Valid() && rest == tasks[..]
    {
      ntask := tasks.Length;
      rest := tasks[..];
      lTask := if tasks.Length >= 1 then tasks[0] else null;
      new;
      for i := 0 to tasks.Length
        invariant ntask == tasks.Length && rest == tasks[..] == old(tasks[..])
        invariant lTask == if rest == [] then null else rest[0]
        invariant forall k | 0 <= k < i && k < |rest| - 1 :: rest[k].next == rest[k + 1]
      {
        if i != ntask - 1 {
          tasks[i].next := tasks[i + 1];
        }
      }
    }

    /** What a thread does while it holds the mutex: it gets the first task, or null when none is left. */
    method Take() returns (curr: TaskHd?)
      requires Valid()
      modifies this
      ensures Valid()
      ensures old(rest) == [] ==> curr == null && rest == []
      ensures old(rest) != [] ==> curr == old(rest)[0] && rest == old(rest)[1..]
    {
      var nlist := ntask;
      if nlist == 1 {
        curr := lTask;
        lTask := null;
        ntask := 0;
        rest := [];
      } else if nlist > 1 {
        var tmp := lTask.next;
        curr := lTask;
        lTask := tmp;
        ntask := ntask - 1;
        rest := rest[1..];
      } else {
        curr := null;
      }
    }
  }

  // ---- The threads as a state machine ------------------------------------------------------------------------

  /** Where a thread is.  A row is counted twice, first by the thread and then for its table. */
  datatype Phase = Ready | Copying(task: nat) | Counted(task: nat) | AllOk | Failed(atTask: Option<nat>)

  datatype ThreadState = ThreadState(phase: Phase, count: nat)

  /** `owner` is history: the thread that took it. */
  datatype TaskState = TaskState(count: nat, complete: bool, owner: Option<nat>)

  datatype Copy = Copy(queue: seq<nat>, ntask: int, threads: seq<ThreadState>, tasks: seq<TaskState>)

  datatype Event = Take(t: nat) | CountForThread(t: nat) | CountForTask(t: nat) | Finish(t: nat) | Fail(t: nat)

  function Start(nth: nat, n: nat): Copy {
    Copy(seq(n, i => i), n, seq(nth, _ => ThreadState(Ready, 0)), seq(n, _ => TaskState(0, false, None)))
  }

  predicate Enabled(ev: Event, c: Copy) {
    && ev.t < |c.threads|
    && var p := c.threads[ev.t].phase;
    match ev
    case Take(_) => p.Ready? && (c.queue != [] ==> c.queue[0] < |c.tasks|)
    case CountForThread(_) => p.Copying?
    case CountForTask(_) => p.Counted? && p.task < |c.tasks|
    case Finish(_) => p.Copying? && p.task < |c.tasks|
    case Fail(_) => p.Ready? || p.Copying?
  }

  function WithThread(c: Copy, t: nat, th: ThreadState): Copy
    requires t < |c.threads|
  {
    c.(threads := c.threads[t := th])
  }

  function WithTask(c: Copy, j: nat, k: TaskState): Copy
    requires j < |c.tasks|
  {
    c.(tasks := c.tasks[j := k])
  }

  function Do(ev: Event, c: Copy): Copy
    requires Enabled(ev, c)
  {
    var th := c.threads[ev.t];
    match ev
    case Take(t) =>
      if c.queue == [] then WithThread(c, t, th.(phase := AllOk))
      else
        var j := c.queue[0];
        WithTask(WithThread(c, t, th.(phase := Copying(j))), j, c.tasks[j].(owner := Some(t)))
          .(queue := c.queue[1..], ntask := c.ntask - 1)
    case CountForThread(t) => WithThread(c, t, ThreadState(Counted(th.phase.task), th.count + 1))
    case CountForTask(t) =>
      var j := th.phase.task;
      WithTask(WithThread(c, t, th.(phase := Copying(j))), j, c.tasks[j].(count := c.tasks[j].count + 1))
    case Finish(t) =>
      var j := th.phase.task;
      WithTask(WithThread(c, t, th.(phase := Ready)), j, c.tasks[j].(complete := true))
    case Fail(t) => WithThread(c, t, th.(phase := Failed(if th.phase.Copying? then Some(th.phase.task) else None)))
  }

  function Ids(tasks: seq<TaskHd>): (r: seq<nat>)
    ensures |r| == |tasks| && forall i | 0 <= i < |tasks| :: r[i] == tasks[i].id
  {
    seq(|tasks|, i requires 0 <= i < |tasks| => tasks[i].id)
  }

  /** The list as the program keeps it does what the step does. */
  method TakeTask(hd: ThreadHd, ghost t: nat, ghost c: Copy) returns (curr: TaskHd?)
    requires hd.Valid() && Enabled(Take(t), c) && c.queue == Ids(hd.rest) && c.ntask == hd.ntask
    modifies hd
    ensures
      var c' := Do(Take(t), c);
      && hd.Valid() && c'.queue == Ids(hd.rest) && c'.ntask == hd.ntask
      && c'.threads[t].phase == if curr == null then AllOk else Copying(curr.id)
  {
    curr := hd.Take();
  }

  // ---- Sums --------------------------------------------------------------------------------------------------

  function Sum<T>(f: T -> int, s: seq<T>): int {
    if s == [] then 0 else Sum(f, s[..|s| - 1]) + f(s[|s| - 1])
  }

  lemma {:induction false} SumUpdate<T>(f: T -> int, s: seq<T>, i: nat, x: T)
    requires i < |s|
    ensures Sum(f, s[i := x]) == Sum(f, s) - f(s[i]) + f(x)
  {
    var n := |s| - 1;
    if i == n {
      assert s[i := x][..n] == s[..n];
    } else {
      assert s[i := x][..n] == s[..n][i := x];
      SumUpdate(f, s[..n], i, x);
    }
  }

  lemma {:induction false} SumZero<T>(f: T -> int, s: seq<T>)
    requires forall i | 0 <= i < |s| :: f(s[i]) == 0
    ensures Sum(f, s) == 0
  {
    if s != [] {
      SumZero(f, s[..|s| - 1]);
    }
  }

  /** A sum of natural numbers is zero when, and only when, all of them are. */
  lemma {:induction false} SumIsZero<T>(f: T -> int, s: seq<T>)
    requires forall i | 0 <= i < |s| :: f(s[i]) >= 0
    ensures Sum(f, s) >= 0
    ensures Sum(f, s) == 0 <==> forall i | 0 <= i < |s| :: f(s[i]) == 0
  {
    if s != [] {
      var init := s[..|s| - 1];
      assert forall i | 0 <= i < |init| :: init[i] == s[i];
      SumIsZero(f, init);
    }
  }

  function Halfway(th: ThreadState): int { if th.phase.Counted? then 1 else 0 }

  function ThreadRows(th: ThreadState): int { th.count }

  function TaskRows(k: TaskState): int { k.count }

  // ---- Invariant ---------------------------------------------------------------------------------------------

  function Held(p: Phase): Option<nat> {
    match p
    case Copying(j) => Some(j)
    case Counted(j) => Some(j)
    case Failed(at) => at
    case _ => None
  }

  /** The queue is what has not been handed out, in order. */
  predicate QueueInv(c: Copy) {
    && c.ntask == |c.queue| <= |c.tasks|
    && forall i | 0 <= i < |c.queue| :: c.queue[i] == |c.tasks| - |c.queue| + i
  }

  predicate TaskInv(c: Copy, j: nat)
    requires j < |c.tasks| && |c.queue| <= |c.tasks|
  {
    var k := c.tasks[j];
    if j < |c.tasks| - |c.queue| then
      k.owner.Some? && k.owner.value < |c.threads| && (k.complete || Held(c.threads[k.owner.value].phase) == Some(j))
    else k == TaskState(0, false, None)
  }

  /** What a thread holds was handed to it and is not complete. */
  predicate ThreadInv(c: Copy, t: nat)
    requires t < |c.threads| && |c.queue| <= |c.tasks|
  {
    && (c.threads[t].phase.AllOk? ==> c.queue == [])
    && (Held(c.threads[t].phase).Some? ==>
        var j := Held(c.threads[t].phase).value;
        j < |c.tasks| - |c.queue| && c.tasks[j].owner == Some(t) && !c.tasks[j].complete)
  }

  ghost predicate Inv(c: Copy) {
    && QueueInv(c)
    && (forall j | 0 <= j < |c.tasks| :: TaskInv(c, j))
    && (forall t | 0 <= t < |c.threads| :: ThreadInv(c, t))
    && Sum(ThreadRows, c.threads) == Sum(TaskRows, c.tasks) + Sum(Halfway, c.threads)
  }

  lemma {:induction false} StartInv(nth: nat, n: nat)
    ensures Inv(Start(nth, n))
  {
    var c := Start(nth, n);
    SumZero(ThreadRows, c.threads);
    SumZero(TaskRows, c.tasks);
    SumZero(Halfway, c.threads);
    forall j | 0 <= j < n ensures TaskInv(c, j) {}
    forall t | 0 <= t < nth ensures ThreadInv(c, t) {}
  }

  /** The part of the invariant that is about who holds what. */
  ghost predicate Handed(c: Copy) {
    && QueueInv(c)
    && (forall j | 0 <= j < |c.tasks| :: TaskInv(c, j))
    && (forall t | 0 <= t < |c.threads| :: ThreadInv(c, t))
  }

  lemma {:induction false} StepKeepsHanded(ev: Event, c: Copy)
    requires Handed(c) && Enabled(ev, c)
    ensures Handed(Do(ev, c))
  {
    var c', t := Do(ev, c), ev.t;
    assert ThreadInv(c, t);
    var mine := Held(c.threads[t].phase);
    if ev.Take? && c.queue != [] {
      assert TaskInv(c, c.queue[0]);
    }
    forall j | 0 <= j < |c'.tasks| ensures TaskInv(c', j) {
      assert TaskInv(c, j);
    }
    forall u | 0 <= u < |c'.threads| ensures ThreadInv(c', u) {
      assert ThreadInv(c, u);
    }
  }

  lemma {:induction false} StepKeepsSums(ev: Event, c: Copy)
    requires Enabled(ev, c) && Sum(ThreadRows, c.threads) == Sum(TaskRows, c.tasks) + Sum(Halfway, c.threads)
    ensures
      var c' := Do(ev, c);
      Sum(ThreadRows, c'.threads) == Sum(TaskRows, c'.tasks) + Sum(Halfway, c'.threads)
  {
    var c', t := Do(ev, c), ev.t;
    SumUpdate(ThreadRows, c.threads, t, c'.threads[t]);
    SumUpdate(Halfway, c.threads, t, c'.threads[t]);
    if ev.Take? && c.queue != [] {
      var j := c.queue[0];
      SumUpdate(TaskRows, c.tasks, j, c'.tasks[j]);
    } else if ev.CountForTask? || ev.Finish? {
      var j := c.threads[t].phase.task;
      SumUpdate(TaskRows, c.tasks, j, c'.tasks[j]);
    }
  }

  /** Every step, in whatever order the threads take them, keeps the invariant. */
  lemma {:induction false} StepKeeps(ev: Event, c: Copy)
    requires Inv(c) && Enabled(ev, c)
    ensures Inv(Do(ev, c))
  {
    StepKeepsHanded(ev, c);
    StepKeepsSums(ev, c);
  }

  // ---- What follows ------------------------------------------------------------------------------------------

  /** The states of any run from the start. */
  ghost predicate Run(nth: nat, n: nat, trace: seq<Copy>) {
    && trace != [] && trace[0] == Start(nth, n)
    && forall i | 0 < i < |trace| :: Moves(trace[i - 1], trace[i])
  }

  ghost predicate Moves(c: Copy, c': Copy) { exists ev :: Enabled(ev, c) && c' == Do(ev, c) }

  lemma {:induction false} RunInv(nth: nat, n: nat, trace: seq<Copy>, i: nat)
    requires Run(nth, n, trace) && i < |trace|
    ensures Inv(trace[i]) && |trace[i].threads| == nth && |trace[i].tasks| == n
  {
    if i == 0 {
      StartInv(nth, n);
    } else {
      RunInv(nth, n, trace, i - 1);
      assert Moves(trace[i - 1], trace[i]);
      var ev :| Enabled(ev, trace[i - 1]) && trace[i] == Do(ev, trace[i - 1]);
      StepKeeps(ev, trace[i - 1]);
    }
  }

  /** In no run is a task handed out twice: once it has an owner it keeps it, and only one thread holds it. */
  lemma {:induction false} HandedOnce(nth: nat, n: nat, trace: seq<Copy>, i: nat, k: nat, j: nat)
    requires Run(nth, n, trace) && i <= k < |trace| && j < n
    ensures |trace[i].tasks| == |trace[k].tasks| == n
    ensures trace[i].tasks[j].owner.Some? ==> trace[k].tasks[j].owner == trace[i].tasks[j].owner
  {
    RunInv(nth, n, trace, i);
    RunInv(nth, n, trace, k);
    if i < k {
      HandedOnce(nth, n, trace, i, k - 1, j);
      RunInv(nth, n, trace, k - 1);
      assert Moves(trace[k - 1], trace[k]);
      var ev :| Enabled(ev, trace[k - 1]) && trace[k] == Do(ev, trace[k - 1]);
      if ev.Take? && trace[k - 1].queue != [] {
        assert TaskInv(trace[k - 1], trace[k - 1].queue[0]);
      }
    }
  }

  lemma {:induction false} HeldByOne(c: Copy, t: nat, u: nat)
    requires Inv(c) && t < |c.threads| && u < |c.threads|
    requires Held(c.threads[t].phase).Some? && Held(c.threads[t].phase) == Held(c.threads[u].phase)
    ensures t == u
  {
    assert ThreadInv(c, t) && ThreadInv(c, u);
  }

  predicate Ended(c: Copy) { forall t | 0 <= t < |c.threads| :: c.threads[t].phase.AllOk? || c.threads[t].phase.Failed? }

  function Incomplete(c: Copy): set<nat> { set j: nat | j < |c.tasks| && !c.tasks[j].complete }

  function FailedThreads(c: Copy): set<nat> { set t: nat | t < |c.threads| && c.threads[t].phase.Failed? }

  /** A set that is mapped one to one into another is no larger. */
  lemma {:induction false} NoLarger(a: set<nat>, b: set<nat>, f: map<nat, nat>)
    requires forall x | x in a :: x in f && f[x] in b
    requires forall x, y | x in a && y in a && x != y :: f[x] != f[y]
    ensures |a| <= |b|
    decreases |a|
  {
    if x :| x in a {
      NoLarger(a - {x}, b - {f[x]}, f);
    }
  }

  /** Once some thread has ended well every task has been handed out; when all threads have ended, every task
      that is not complete was dropped by a thread that failed, each by another one. */
  lemma {:induction false} LeftBehind(c: Copy)
    requires Inv(c) && exists t :: 0 <= t < |c.threads| && c.threads[t].phase.AllOk?
    ensures c.queue == [] && forall j | 0 <= j < |c.tasks| :: c.tasks[j].owner.Some?
    ensures Ended(c) ==> |Incomplete(c)| <= |FailedThreads(c)|
  {
    var t: nat :| t < |c.threads| && c.threads[t].phase.AllOk?;
    assert ThreadInv(c, t);
    forall j | 0 <= j < |c.tasks| ensures c.tasks[j].owner.Some? {
      assert TaskInv(c, j);
    }
    if Ended(c) {
      var owner := map j: nat | j in Incomplete(c) :: c.tasks[j].owner.value;
      forall j | j in Incomplete(c) ensures owner[j] in FailedThreads(c) {
        assert TaskInv(c, j);
      }
      forall i, j | i in Incomplete(c) && j in Incomplete(c) && i != j ensures owner[i] != owner[j] {
        assert TaskInv(c, i) && TaskInv(c, j);
      }
      NoLarger(Incomplete(c), FailedThreads(c), owner);
    }
  }

  // ---- What the steps of a run did -----------------------------------------------------------------------------

  /** A run with its steps. */
  ghost predicate Steps(nth: nat, n: nat, evs: seq<Event>, trace: seq<Copy>) {
    && |trace| == |evs| + 1 && trace[0] == Start(nth, n)
    && forall i | 0 <= i < |evs| :: Enabled(evs[i], trace[i]) && trace[i + 1] == Do(evs[i], trace[i])
  }

  lemma {:induction false} StepsRun(nth: nat, n: nat, evs: seq<Event>, trace: seq<Copy>)
    requires Steps(nth, n, evs, trace)
    ensures Run(nth, n, trace)
  {
    forall i | 0 < i < |trace| ensures Moves(trace[i - 1], trace[i]) {
      assert Enabled(evs[i - 1], trace[i - 1]) && trace[i] == Do(evs[i - 1], trace[i - 1]);
    }
  }

  /** Step `m` is one of thread `t` while it copies task `j`. */
  predicate WhileCopying(evs: seq<Event>, trace: seq<Copy>, m: nat, t: nat, j: nat)
    requires m < |evs| && m < |trace|
  {
    evs[m].t == t && t < |trace[m].threads| && trace[m].threads[t].phase == Copying(j)
  }

  /** One of the first `i` steps finished task `j`. */
  ghost predicate FinishedBefore(evs: seq<Event>, trace: seq<Copy>, i: nat, j: nat)
    requires i <= |evs| < |trace|
  {
    exists m, t | 0 <= m < i :: evs[m].Finish? && WhileCopying(evs, trace, m, t, j)
  }

  lemma {:induction false} FinishedMore(evs: seq<Event>, trace: seq<Copy>, i: nat, j: nat)
    requires i < |evs| < |trace|
    ensures FinishedBefore(evs, trace, i + 1, j) <==>
      FinishedBefore(evs, trace, i, j) || (evs[i].Finish? && WhileCopying(evs, trace, i, evs[i].t, j))
  {
  }

  /** A task is complete exactly when the thread that was copying it has finished it. */
  lemma {:induction false} CompleteIff(nth: nat, n: nat, evs: seq<Event>, trace: seq<Copy>, i: nat, j: nat)
    requires Steps(nth, n, evs, trace) && i <= |evs| && j < n
    ensures |trace[i].tasks| == n
    ensures trace[i].tasks[j].complete <==> FinishedBefore(evs, trace, i, j)
  {
    if i > 0 {
      hide FinishedBefore;
      CompleteIff(nth, n, evs, trace, i - 1, j);
      FinishedMore(evs, trace, i - 1, j);
    }
  }

  /** How many of the first `i` steps counted a row of task `j`. */
  function RowsCounted(evs: seq<Event>, trace: seq<Copy>, i: nat, j: nat): nat
    requires i <= |evs| < |trace|
  {
    if i == 0 then 0
    else
      var (ev, c) := (evs[i - 1], trace[i - 1]);
      RowsCounted(evs, trace, i - 1, j)
      + if ev.CountForTask? && ev.t < |c.threads| && c.threads[ev.t].phase == Counted(j) then 1 else 0
  }

  /** A task's number is that of the rows counted for it. */
  lemma {:induction false} CountIs(nth: nat, n: nat, evs: seq<Event>, trace: seq<Copy>, i: nat, j: nat)
    requires Steps(nth, n, evs, trace) && i <= |evs| && j < n
    ensures |trace[i].tasks| == n && trace[i].tasks[j].count == RowsCounted(evs, trace, i, j)
  {
    if i > 0 {
      CountIs(nth, n, evs, trace, i - 1, j);
    }
  }

  /** The thread failed while it was copying. */
  ghost predicate FailedCopying(evs: seq<Event>, trace: seq<Copy>, i: nat, t: nat)
    requires i <= |evs| < |trace|
  {
    exists m, j | 0 <= m < i :: evs[m] == Fail(t) && WhileCopying(evs, trace, m, t, j)
  }

  ghost function CopyFailures(nth: nat, evs: seq<Event>, trace: seq<Copy>, i: nat): set<nat>
    requires i <= |evs| < |trace|
  {
    set t: nat | t < nth && FailedCopying(evs, trace, i, t)
  }

  lemma {:induction false} FailedMore(evs: seq<Event>, trace: seq<Copy>, i: nat, t: nat)
    requires i < |evs| < |trace| && t < |trace[i].threads|
    ensures FailedCopying(evs, trace, i + 1, t) <==>
      FailedCopying(evs, trace, i, t) || (evs[i] == Fail(t) && trace[i].threads[t].phase.Copying?)
  {
    if evs[i] == Fail(t) && trace[i].threads[t].phase.Copying? {
      assert WhileCopying(evs, trace, i, t, trace[i].threads[t].phase.task);
    }
  }

  /** A thread that failed while it was copying says so, and keeps the task. */
  lemma {:induction false} FailedCopyingIs(nth: nat, n: nat, evs: seq<Event>, trace: seq<Copy>, i: nat, t: nat)
    requires Steps(nth, n, evs, trace) && i <= |evs| && t < nth
    ensures |trace[i].threads| == nth
    ensures FailedCopying(evs, trace, i, t) <==> trace[i].threads[t].phase.Failed? && trace[i].threads[t].phase.atTask.Some?
  {
    if i > 0 {
      hide FailedCopying;
      FailedCopyingIs(nth, n, evs, trace, i - 1, t);
      FailedMore(evs, trace, i - 1, t);
    }
  }

  /** When all threads have ended and one of them well, as many tasks are not complete as threads failed while they were
      copying. */
  lemma {:induction false} LeftBehindExactly(nth: nat, n: nat, evs: seq<Event>, trace: seq<Copy>, i: nat)
    requires Steps(nth, n, evs, trace) && i <= |evs| && Ended(trace[i])
    requires exists t :: 0 <= t < |trace[i].threads| && trace[i].threads[t].phase.AllOk?
    ensures |Incomplete(trace[i])| == |CopyFailures(nth, evs, trace, i)|
  {
    hide FailedCopying;
    var c := trace[i];
    StepsRun(nth, n, evs, trace);
    RunInv(nth, n, trace, i);
    LeftBehind(c);
    forall t | 0 <= t < nth
      ensures FailedCopying(evs, trace, i, t) <==> c.threads[t].phase.Failed? && c.threads[t].phase.atTask.Some?
    {
      FailedCopyingIs(nth, n, evs, trace, i, t);
    }
    var failures := CopyFailures(nth, evs, trace, i);
    var owner := map j: nat | j in Incomplete(c) :: c.tasks[j].owner.value;
    var dropped := map t: nat | t in failures :: c.threads[t].phase.atTask.value;
    forall j | j in Incomplete(c) ensures owner[j] in failures && dropped[owner[j]] == j {
      assert TaskInv(c, j);
    }
    forall t | t in failures ensures dropped[t] in Incomplete(c) && owner[dropped[t]] == t {
      assert ThreadInv(c, t);
    }
    NoLarger(Incomplete(c), failures, owner);
    NoLarger(failures, Incomplete(c), dropped);
  }

  // ---- The final tallies -------------------------------------------------------------------------------------

  function OkRows(th: ThreadState): int { if th.phase.AllOk? then th.count else 0 }

  function LostRows(th: ThreadState): int { if th.phase.AllOk? then 0 else th.count }

  method Tally(threads: array<ThreadState>, tasks: array<TaskState>) returns (sCount: int, tCount: int, haveErr: bool)
    ensures sCount == Sum(OkRows, threads[..]) && tCount == Sum(TaskRows, tasks[..])
    ensures haveErr <==> exists i :: 0 <= i < threads.Length && !threads[i].phase.AllOk?
  {
    sCount, tCount, haveErr := 0, 0, false;
    for i := 0 to threads.Length
      invariant sCount == Sum(OkRows, threads[..i])
      invariant haveErr <==> exists k :: 0 <= k < i && !threads[k].phase.AllOk?
    {
      assert threads[..i + 1][..i] == threads[..i];
      if threads[i].phase.AllOk? {
        sCount := sCount + threads[i].count;
      } else {
        haveErr := true;
      }
    }
    assert threads[..threads.Length] == threads[..];
    for i := 0 to tasks.Length
      invariant tCount == Sum(TaskRows, tasks[..i])
    {
      assert tasks[..i + 1][..i] == tasks[..i];
      tCount := tCount + tasks[i].count;
    }
    assert tasks[..tasks.Length] == tasks[..];
  }

  lemma {:induction false} SumSplits(threads: seq<ThreadState>)
    ensures Sum(ThreadRows, threads) == Sum(OkRows, threads) + Sum(LostRows, threads)
  {
    if threads != [] {
      SumSplits(threads[..|threads| - 1]);
    }
  }

  /** When all threads have ended the rows counted by threads are those counted for tasks; the two numbers that
      are printed are equal exactly when no thread that failed had copied a row. */
  lemma {:induction false} TalliesAgree(c: Copy)
    requires Inv(c) && Ended(c)
    ensures Sum(ThreadRows, c.threads) == Sum(TaskRows, c.tasks)
    ensures Sum(OkRows, c.threads) <= Sum(TaskRows, c.tasks)
    ensures Sum(OkRows, c.threads) == Sum(TaskRows, c.tasks)
       <==> forall t | 0 <= t < |c.threads| && !c.threads[t].phase.AllOk? :: c.threads[t].count == 0
  {
    SumZero(Halfway, c.threads);
    SumSplits(c.threads);
    SumIsZero(LostRows, c.threads);
    if forall t | 0 <= t < |c.threads| && !c.threads[t].phase.AllOk? :: c.threads[t].count == 0 {
      forall i | 0 <= i < |c.threads| ensures LostRows(c.threads[i]) == 0 {}
    } else {
      var t :| 0 <= t < |c.threads| && !c.threads[t].phase.AllOk? && c.threads[t].count != 0;
      assert LostRows(c.threads[t]) != 0;
    }
  }

  /** Without an error everything was copied, and the numbers agree. */
  lemma {:induction false} NoErrorAllCopied(c: Copy)
    requires Inv(c) && c.threads != [] && forall t | 0 <= t < |c.threads| :: c.threads[t].phase.AllOk?
    ensures forall j | 0 <= j < |c.tasks| :: c.tasks[j].complete
    ensures Sum(OkRows, c.threads) == Sum(TaskRows, c.tasks)
  {
    assert c.threads[0].phase.AllOk? && ThreadInv(c, 0);
    forall j | 0 <= j < |c.tasks| ensures c.tasks[j].complete {
      assert TaskInv(c, j);
    }
    TalliesAgree(c);
  }
}
