/** The apply thread's loops as the program runs them: every run of them is a run of the state machine. */
module ApplyLoop {
  import opened OptionType
  import opened Replay
  import opened SyncLog
  import opened ApplyThread
  import opened ApplyProofs

  /** The row of `db_sync_status`, and the writes of it that were tried, with their outcomes. */
  class Status {
    var applyId: int
    var tried: seq<(int, bool)>

    constructor (applyId: int)
      ensures this.applyId == applyId && tried == []
    {
      this.applyId := applyId;
      this.tried := [];
    }

    /** The write may fail; the caller is not told. */
    method UpdateTaskStatus(id: int) returns (ghost ok: bool)
      modifies this
      ensures applyId == if ok then id else old(applyId)
      ensures tried == old(tried) + [(id, ok)]
    {
      var written: bool := *;
      if written {
        applyId := id;
      }
      tried := tried + [(id, written)];
      ok := written;
    }
  }

  ghost predicate Moves<K, V>(log: seq<LogRow<K, V>>, a: Apply<K, V>, a': Apply<K, V>) {
    exists ev :: Step(log, ev, a, a')
  }

  /** Each state comes from the one before it by a step. */
  ghost predicate Trace<K, V>(log: seq<LogRow<K, V>>, trace: seq<Apply<K, V>>) {
    trace != [] && forall i | 0 < i < |trace| :: Moves(log, trace[i - 1], trace[i])
  }

  function Last<T>(s: seq<T>): T
    requires s != []
  {
    s[|s| - 1]
  }

  lemma {:induction false} Extend<K, V>(log: seq<LogRow<K, V>>, trace: seq<Apply<K, V>>, ev: Event, a: Apply<K, V>)
    requires Trace(log, trace) && Step(log, ev, Last(trace), a)
    ensures Trace(log, trace + [a]) && Last(trace + [a]) == a && (trace + [a])[0] == trace[0]
  {
    var longer := trace + [a];
    forall i | 0 < i < |longer| ensures Moves(log, longer[i - 1], longer[i]) {
      if i < |trace| {
        assert Moves(log, trace[i - 1], trace[i]);
      }
    }
  }

  /** The same with the steps. */
  ghost predicate Steps<K, V>(log: seq<LogRow<K, V>>, evs: seq<Event>, trace: seq<Apply<K, V>>) {
    && |trace| == |evs| + 1
    && forall i | 0 <= i < |evs| :: Step(log, evs[i], trace[i], trace[i + 1])
  }

  lemma {:induction false} StepsTrace<K, V>(log: seq<LogRow<K, V>>, evs: seq<Event>, trace: seq<Apply<K, V>>)
    requires Steps(log, evs, trace)
    ensures Trace(log, trace)
  {
    forall i | 0 < i < |trace| ensures Moves(log, trace[i - 1], trace[i]) {
      assert Step(log, evs[i - 1], trace[i - 1], trace[i]);
    }
  }

  /** The position that a step writes, and whether it got there. */
  function Written<K, V>(ev: Event, a: Apply<K, V>): seq<(int, bool)> {
    if (ev.WriteBack? || ev.EndOfCursor?) && a.thread.Some? then [(a.thread.value.applyId, ev.ok)] else []
  }

  /** The writes of a number of steps. */
  function Writes<K, V>(evs: seq<Event>, trace: seq<Apply<K, V>>): seq<(int, bool)>
    requires |evs| <= |trace|
    decreases |evs|
  {
    if evs == [] then [] else Writes(evs[..|evs| - 1], trace) + Written(evs[|evs| - 1], trace[|evs| - 1])
  }

  lemma {:induction false} WritesOfPrefix<K, V>(evs: seq<Event>, trace: seq<Apply<K, V>>, more: seq<Apply<K, V>>)
    requires |evs| <= |trace|
    ensures Writes(evs, trace + more) == Writes(evs, trace)
    decreases |evs|
  {
    if evs != [] {
      WritesOfPrefix(evs[..|evs| - 1], trace, more);
    }
  }

  /** One step more. */
  lemma {:induction false} StepMore<K, V>(log: seq<LogRow<K, V>>, evs: seq<Event>, trace: seq<Apply<K, V>>, ev: Event, a: Apply<K, V>)
    requires Steps(log, evs, trace) && Step(log, ev, Last(trace), a)
    ensures Steps(log, evs + [ev], trace + [a]) && Last(trace + [a]) == a && (trace + [a])[0] == trace[0]
    ensures Writes(evs + [ev], trace + [a]) == Writes(evs, trace) + Written(ev, Last(trace))
  {
    assert (evs + [ev])[..|evs|] == evs;
    WritesOfPrefix(evs, trace, [a]);
    forall i | 0 <= i < |evs| + 1 ensures Step(log, (evs + [ev])[i], (trace + [a])[i], (trace + [a])[i + 1]) {
      if i < |evs| {
        assert Step(log, evs[i], trace[i], trace[i + 1]);
      }
    }
  }

  lemma {:induction false} Alone<T>(s: seq<T>)
    ensures s + [] == s && [] + s == s
  {
  }

  /** A step in front. */
  lemma {:induction false} StepBefore<K, V>(log: seq<LogRow<K, V>>, a: Apply<K, V>, ev: Event, evs: seq<Event>, trace: seq<Apply<K, V>>)
    requires Steps(log, evs, trace) && Step(log, ev, a, trace[0])
    ensures Steps(log, [ev] + evs, [a] + trace) && Last([a] + trace) == Last(trace)
    ensures Writes([ev] + evs, [a] + trace) == Written(ev, a) + Writes(evs, trace)
  {
    WritesBefore(a, ev, evs, trace);
    forall i | 0 <= i < |evs| + 1 ensures Step(log, ([ev] + evs)[i], ([a] + trace)[i], ([a] + trace)[i + 1]) {
      if i > 0 {
        assert Step(log, evs[i - 1], trace[i - 1], trace[i]);
      }
    }
  }

  lemma {:induction false} WritesBefore<K, V>(a: Apply<K, V>, ev: Event, evs: seq<Event>, trace: seq<Apply<K, V>>)
    requires |evs| <= |trace|
    ensures Writes([ev] + evs, [a] + trace) == Written(ev, a) + Writes(evs, trace)
    decreases |evs|
  {
    var all, n := [ev] + evs, |evs|;
    if n == 0 {
      assert all[..0] == [];
    } else {
      assert all[..n] == [ev] + evs[..n - 1];
      WritesBefore(a, ev, evs[..n - 1], trace);
    }
  }

  /** What holds of the start and is kept by every step holds all along. */
  lemma {:induction false} TraceKeeps<K, V>(txns: seq<seq<Op<K, V>>>, s0: map<K, V>, log: seq<LogRow<K, V>>, entries: seq<nat>,
                                            trace: seq<Apply<K, V>>, n: nat)
    requires ValidHistory(txns, s0) && Trace(log, trace) && Inv(txns, s0, log, entries, trace[0]) && n < |trace|
    ensures Inv(txns, s0, log, entries, trace[n])
  {
    if n > 0 {
      TraceKeeps(txns, s0, log, entries, trace, n - 1);
      assert Moves(log, trace[n - 1], trace[n]);
      var ev :| Step(log, ev, trace[n - 1], trace[n]);
      StepKeeps(txns, s0, log, entries, ev, trace[n - 1], trace[n]);
    }
  }

  ghost function State<K, V>(status: Status, applier: Applier<K, V>, done: nat, lost: nat): Apply<K, V>
    reads status, applier, applier.target
  {
    Apply(status.applyId, applier.target.View(), Some(applier.View()), done, lost)
  }

  /** A row that the thread gets over is one step of the machine. */
  lemma {:induction false} FetchStep<K, V>(log: seq<LogRow<K, V>>, a: Apply<K, V>, th: Thread, s: Session<K, V>)
    requires a.thread.Some? && a.thread.value.next < a.thread.value.limit <= |log| && !a.thread.value.writing
    requires ApplyRow(a.thread.value, a.session, log[a.thread.value.next]) == Continue(th, s)
    ensures th.next == a.thread.value.next + 1 <= |log| && th.limit == a.thread.value.limit
    ensures Step(log, Fetch, a, Apply(a.durable, s, Some(th), Most(a.done, Commits(log[..th.next])), a.lost))
  {
  }

  /** The thread is at a row that it does not get over. */
  ghost predicate Stuck<K, V>(log: seq<LogRow<K, V>>, a: Apply<K, V>) {
    && a.thread.Some?
    && var th := a.thread.value;
    th.next < th.limit <= |log| && !th.writing && ApplyRow(th, a.session, log[th.next]).Exit?
  }

  /** The program is in the state that the steps lead to, and has tried to write what they write. */
  ghost predicate Follows<K, V>(log: seq<LogRow<K, V>>, applier: Applier<K, V>, status: Status, evs: seq<Event>, trace: seq<Apply<K, V>>,
                                before: seq<(int, bool)>)
    reads status, applier, applier.target
  {
    && trace != [] && Steps(log, evs, trace) && Last(trace) == State(status, applier, Last(trace).done, Last(trace).lost)
    && status.tried == before + Writes(evs, trace)
  }

  /** It has given up at a row that it does not get over, and nothing has been done about that row. */
  ghost predicate GaveUp<K, V>(log: seq<LogRow<K, V>>, applier: Applier<K, V>, status: Status, evs: seq<Event>, trace: seq<Apply<K, V>>,
                               before: seq<(int, bool)>)
    reads status, applier, applier.target
  {
    && trace != [] && Steps(log, evs, trace) && Stuck(log, Last(trace))
    && Last(trace).durable == status.applyId && Last(trace).session.db == applier.target.db
    && status.tried == before + Writes(evs, trace)
  }

  /** One round of the inner loop: the next row, and the position after every fifth commit. */
  method FetchOne<K, V>(log: seq<LogRow<K, V>>, applier: Applier<K, V>, status: Status,
                        ghost evs: seq<Event>, ghost trace: seq<Apply<K, V>>, ghost before: seq<(int, bool)>)
      returns (go: bool, ghost evs': seq<Event>, ghost longer: seq<Apply<K, V>>)
    requires applier.next < applier.limit <= |log| && !applier.writing
    requires Follows(log, applier, status, evs, trace, before)
    modifies applier, applier.target, status
    ensures longer != [] && longer[0] == trace[0]
    ensures go ==> Follows(log, applier, status, evs', longer, before)
    ensures go ==> applier.next == old(applier.next) + 1 && applier.limit == old(applier.limit) && !applier.writing
    ensures !go ==> GaveUp(log, applier, status, evs', longer, before)
  {
    hide Steps;
    hide Writes;
    hide ApplyRow;
    hide Step;
    ghost var a := Last(trace);
    go := applier.Fetched(log[applier.next]);
    evs', longer := evs, trace;
    if !go {
      return;
    }
    FetchStep(log, a, applier.View(), applier.target.View());
    ghost var b := State(status, applier, Most(a.done, Commits(log[..applier.next])), a.lost);
    StepMore(log, evs, trace, Fetch, b);
    Alone(Writes(evs, trace));
    evs', longer := evs + [Fetch], trace + [b];
    if applier.writing {
      evs', longer := WritePositionBack(log, applier, status, evs', longer, before);
    }
  }

  /** The position, whether it gets there or not. */
  method WritePositionBack<K, V>(log: seq<LogRow<K, V>>, applier: Applier<K, V>, status: Status,
                                 ghost evs: seq<Event>, ghost trace: seq<Apply<K, V>>, ghost before: seq<(int, bool)>)
      returns (ghost evs': seq<Event>, ghost longer: seq<Apply<K, V>>)
    requires applier.writing && Follows(log, applier, status, evs, trace, before)
    modifies applier, status
    ensures Follows(log, applier, status, evs', longer, before) && longer[0] == trace[0]
    ensures applier.next == old(applier.next) && applier.limit == old(applier.limit) && !applier.writing
  {
    hide Steps;
    hide Writes;
    ghost var a := Last(trace);
    applier.nCommit := 0;
    ghost var ok := status.UpdateTaskStatus(applier.applyId);
    applier.writing := false;
    ghost var c := State(status, applier, a.done, if ok then a.lost else a.lost + 1);
    assert Step(log, WriteBack(ok), a, c);
    StepMore(log, evs, trace, WriteBack(ok), c);
    evs', longer := evs + [WriteBack(ok)], trace + [c];
  }

  /** The inner loop: rows until the cursor is exhausted, then the position once more.  `go` is false when the
      thread gives up; its connection, and what was open on it, go with it. */
  method DrainCursor<K, V>(log: seq<LogRow<K, V>>, applier: Applier<K, V>, status: Status, ghost start: Apply<K, V>)
      returns (go: bool, ghost evs: seq<Event>, ghost trace: seq<Apply<K, V>>)
    requires applier.next <= applier.limit <= |log| && !applier.writing
    requires start == State(status, applier, start.done, start.lost)
    modifies applier, applier.target, status
    ensures trace != [] && trace[0] == start
    ensures go ==> Follows(log, applier, status, evs, trace, old(status.tried))
    ensures go ==> applier.next == applier.limit == old(applier.limit) && applier.nCommit == 0 && !applier.writing
    ensures !go ==> GaveUp(log, applier, status, evs, trace, old(status.tried))
  {
    evs, trace := [], [start];
    while true
      invariant applier.next <= applier.limit == old(applier.limit) && !applier.writing
      invariant Follows(log, applier, status, evs, trace, old(status.tried)) && trace[0] == start
      decreases applier.limit - applier.next
    {
      if applier.next == applier.limit {
        if applier.nCommit != 0 {
          ghost var a := Last(trace);
          applier.nCommit := 0;
          ghost var ok := status.UpdateTaskStatus(applier.applyId);
          ghost var b := State(status, applier, a.done, if ok then a.lost else a.lost + 1);
          assert Step(log, EndOfCursor(ok), a, b);
          StepMore(log, evs, trace, EndOfCursor(ok), b);
          evs, trace := evs + [EndOfCursor(ok)], trace + [b];
        }
        return true, evs, trace;
      }
      go, evs, trace := FetchOne(log, applier, status, evs, trace, old(status.tried));
      if !go {
        return;
      }
    }
  }

  /** One round of the outer loop: a cursor over the rows behind the position, read to its end. */
  method Round<K, V>(log: seq<LogRow<K, V>>, applier: Applier<K, V>, status: Status, ghost start: Apply<K, V>)
      returns (go: bool, ghost evs: seq<Event>, ghost trace: seq<Apply<K, V>>)
    requires applier.next == applier.limit && applier.nCommit == 0 && !applier.writing
    requires start == State(status, applier, start.done, start.lost)
    modifies applier, applier.target, status
    ensures trace != [] && trace[0] == start && evs != [] && evs[0] == Declare
    ensures go ==> Follows(log, applier, status, evs, trace, old(status.tried))
    ensures go ==> applier.next == applier.limit == |log| && applier.nCommit == 0 && !applier.writing
    ensures !go ==> GaveUp(log, applier, status, evs, trace, old(status.tried))
  {
    hide Steps;
    hide Writes;
    hide Stuck;
    BelowSplits(log, applier.applyId);
    applier.sqlType := SqlBegin;
    applier.next := Below(log, applier.applyId);
    applier.limit := |log|;
    ghost var declared := State(status, applier, start.done, start.lost);
    assert Step(log, Declare, start, declared);
    ghost var rest, told;
    go, told, rest := DrainCursor(log, applier, status, declared);
    StepBefore(log, start, Declare, told, rest);
    Alone(Writes(told, rest));
    evs, trace := [Declare] + told, [start] + rest;
  }

  // ---- When the position is written ----------------------------------------------------------------------------

  /** The step gets over a `commit;` row. */
  predicate CommitsOne<K, V>(log: seq<LogRow<K, V>>, ev: Event, a: Apply<K, V>) {
    ev.Fetch? && a.thread.Some? && a.thread.value.next < |log| && log[a.thread.value.next].sql.CommitSql?
  }

  /** The commits since the position was written last, or since the thread began. */
  function CommitsSince<K, V>(log: seq<LogRow<K, V>>, evs: seq<Event>, trace: seq<Apply<K, V>>): nat
    requires |evs| <= |trace|
    decreases |evs|
  {
    if evs == [] then 0
    else
      var n := |evs| - 1;
      match evs[n]
      case Fetch => CommitsSince(log, evs[..n], trace) + if CommitsOne(log, Fetch, trace[n]) then 1 else 0
      case Declare => CommitsSince(log, evs[..n], trace)
      case _ => 0
  }

  /** The thread counts those commits, and it is about to write exactly at the fifth. */
  lemma {:induction false} CountsCommits<K, V>(log: seq<LogRow<K, V>>, evs: seq<Event>, trace: seq<Apply<K, V>>, n: nat)
    requires Steps(log, evs, trace) && trace[0].thread.None? && n <= |evs|
    ensures trace[n].thread.Some? ==>
      trace[n].thread.value.nCommit == CommitsSince(log, evs[..n], trace) <= 5
      && (trace[n].thread.value.writing <==> CommitsSince(log, evs[..n], trace) == 5)
  {
    if n > 0 {
      CountsCommits(log, evs, trace, n - 1);
      assert evs[..n][..n - 1] == evs[..n - 1];
      assert Step(log, evs[n - 1], trace[n - 1], trace[n]);
    }
  }

  /** In every run the position is written at the fifth commit since it was written last and not before, unless the
      cursor is at its end; and no row is fetched between the fifth commit and the write. */
  lemma {:induction false} WrittenAtFifth<K, V>(log: seq<LogRow<K, V>>, evs: seq<Event>, trace: seq<Apply<K, V>>, n: nat)
    requires Steps(log, evs, trace) && trace[0].thread.None? && n < |evs|
    ensures evs[n].WriteBack? ==> CommitsSince(log, evs[..n], trace) == 5
    ensures evs[n].Fetch? ==> CommitsSince(log, evs[..n], trace) < 5
    ensures evs[n].EndOfCursor? ==> 0 < CommitsSince(log, evs[..n], trace) < 5 && trace[n].thread.value.next == trace[n].thread.value.limit
    ensures evs[n].Declare? ==> CommitsSince(log, evs[..n], trace) == 0
  {
    CountsCommits(log, evs, trace, n);
    assert Step(log, evs[n], trace[n], trace[n + 1]);
  }
}
