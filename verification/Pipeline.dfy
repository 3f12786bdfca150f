/** Receive thread, local log and apply thread together, with every interleaving, crash and restart of
    either side: what reaches the target is what the source did. */
module Pipeline {
  import opened OptionType
  import opened Replay
  import opened SyncLog
  import opened ApplyThread
  import opened ApplyProofs
  import opened Receive
  import opened ReceiveLog

  datatype Pipe<K, V> = Pipe(recv: Recv<K, V>, apply: Apply<K, V>)

  datatype PipeEvent = OnReceive(r: Receive.Event) | OnApply(a: ApplyThread.Event)

  function Init<K, V>(s0: map<K, V>): Pipe<K, V> {
    Pipe(Receive.Init(), Apply(0, Session(s0, Idle), None, 0, 0))
  }

  /** One step.  A failed report or a lost connection is followed by the end of the process or by a clean
      reconnect. */
  ghost predicate Step<K, V>(src: seq<SrcTxn<K, V>>, ev: PipeEvent, p: Pipe<K, V>, p': Pipe<K, V>)
    requires CommitOrder(src)
  {
    match ev
    case OnReceive(r) =>
      && Receive.Step(src, r, p.recv, p'.recv) && p'.apply == p.apply
      && (r.Connect? ==> CleanConnect(src, p.recv))
    case OnApply(a) =>
      ApplyThread.Step(p.recv.log, a, p.apply, p'.apply) && p'.recv == p.recv
  }

  ghost predicate IsRun<K, V>(src: seq<SrcTxn<K, V>>, s0: map<K, V>, evs: seq<PipeEvent>, run: seq<Pipe<K, V>>)
    requires CommitOrder(src)
  {
    && |run| == |evs| + 1 && run[0] == Init(s0)
    && forall i | 0 <= i < |evs| :: Step(src, evs[i], run[i], run[i + 1])
  }

  ghost predicate PipeInv<K, V>(src: seq<SrcTxn<K, V>>, s0: map<K, V>, p: Pipe<K, V>)
    requires CommitOrder(src)
  {
    && LogInv(src, p.recv)
    && Inv(Txns(src), s0, p.recv.log, p.recv.entries, p.apply)
  }

  /** A receive step leaves the committed log as it is, or adds one whole transaction to it. */
  lemma {:induction false} LogGrows<K, V>(src: seq<SrcTxn<K, V>>, ev: Receive.Event, r: Recv<K, V>, r': Recv<K, V>)
    returns (grew: bool, more: seq<LogRow<K, V>>, n: nat)
    requires CommitOrder(src) && LogInv(src, r) && Receive.Step(src, ev, r, r')
    ensures !grew ==> r'.log == r.log && r'.entries == r.entries
    ensures grew ==> r'.log == r.log + more && r'.entries == r.entries + [n]
  {
    grew, more, n := false, [], 0;
    if ev.Store? {
      var m := r.pending.value;
      OpenWith(src, r, m);
      if IsCommit(src, m) {
        StoreCommitKeeps(src, r, m);
        grew, n := true, m.txn;
        more := r.open.value + [LogRow(r.nextId, TxnSqls(src[m.txn].ops)[m.row])];
      } else {
        StoreRowIs(src, r, m);
      }
    }
  }

  lemma {:induction false} PipeKeeps<K, V>(src: seq<SrcTxn<K, V>>, s0: map<K, V>, ev: PipeEvent, p: Pipe<K, V>, p': Pipe<K, V>)
    requires CommitOrder(src) && ValidHistory(Txns(src), s0)
    requires PipeInv(src, s0, p) && Step(src, ev, p, p')
    ensures PipeInv(src, s0, p')
  {
    match ev
    case OnReceive(r) =>
      StepKeepsLog(src, r, p.recv, p'.recv);
      var grew, more, n := LogGrows(src, r, p.recv, p'.recv);
      if grew {
        GrowthKeeps(Txns(src), s0, p.recv.log, p.recv.entries, more, n, p.apply);
      }
    case OnApply(a) =>
      ApplyProofs.StepKeeps(Txns(src), s0, p.recv.log, p.recv.entries, a, p.apply, p'.apply);
  }

  lemma {:induction false} RunInv<K, V>(src: seq<SrcTxn<K, V>>, s0: map<K, V>, evs: seq<PipeEvent>, run: seq<Pipe<K, V>>, n: nat)
    requires CommitOrder(src) && ValidHistory(Txns(src), s0)
    requires IsRun(src, s0, evs, run) && n <= |evs|
    ensures PipeInv(src, s0, run[n])
  {
    if n == 0 {
      InitLog(src);
      InitInv(Txns(src), s0);
    } else {
      RunInv(src, s0, evs, run, n - 1);
      PipeKeeps(src, s0, evs[n - 1], run[n - 1], run[n]);
    }
  }

  /** Convergence of the pipeline.  In every run, with any number of crashes and restarts of the process
      and of the server, failed reports, clean reconnects, and the re-sent and re-applied transactions they
      cause, and with fresh changes of keys: whenever the apply thread has read the whole log, and the
      log ends with the furthest transaction it holds, the target is exactly the source after that many
      transactions. */
  lemma {:induction false} PipelineConverges<K, V>(src: seq<SrcTxn<K, V>>, s0: map<K, V>, evs: seq<PipeEvent>, run: seq<Pipe<K, V>>, n: nat)
    requires CommitOrder(src) && ValidHistory(Txns(src), s0)
    requires IsRun(src, s0, evs, run) && n <= |evs|
    requires run[n].apply.thread.Some? && run[n].apply.thread.value.next == |run[n].recv.log|
    requires var entries := run[n].recv.entries; Front(entries, |entries|) == High(entries, |entries|)
    ensures
      var entries := run[n].recv.entries;
      && High(entries, |entries|) <= |src|
      && run[n].apply.session == Session(Source(Txns(src), s0, High(entries, |entries|)), Idle)
  {
    RunInv(src, s0, evs, run, n);
    Converged(Txns(src), s0, run[n].recv.log, run[n].recv.entries, run[n].apply);
  }

  lemma {:induction false} StepForward<K, V>(src: seq<SrcTxn<K, V>>, s0: map<K, V>, ev: PipeEvent, p: Pipe<K, V>, p': Pipe<K, V>)
    requires CommitOrder(src) && PipeInv(src, s0, p) && Step(src, ev, p, p')
    ensures p.apply.durable <= p'.apply.durable
  {
    hide Inv;
    hide LogInv;
    if ev.OnApply? {
      DurableMonotone(Txns(src), s0, p.recv.log, p.recv.entries, ev.a, p.apply, p'.apply);
    }
  }

  lemma {:induction false} NeverBack<K, V>(src: seq<SrcTxn<K, V>>, s0: map<K, V>, evs: seq<PipeEvent>, run: seq<Pipe<K, V>>, m: nat, n: nat)
    requires CommitOrder(src) && ValidHistory(Txns(src), s0)
    requires IsRun(src, s0, evs, run) && m <= n <= |evs|
    ensures run[m].apply.durable <= run[n].apply.durable
    decreases n
  {
    hide PipeInv;
    hide Step;
    if m < n {
      NeverBack(src, s0, evs, run, m, n - 1);
      RunInv(src, s0, evs, run, n - 1);
      StepForward(src, s0, evs[n - 1], run[n - 1], run[n]);
    }
  }

  /** The checkpoint window over whole runs: the durable position is 0 or the id of a `commit;` row, never
      goes back, and everything at or below it is committed on the target; at most five transactions are
      committed above it, and five more for each position write that was lost. */
  lemma {:induction false} PipelineWindow<K, V>(src: seq<SrcTxn<K, V>>, s0: map<K, V>, evs: seq<PipeEvent>, run: seq<Pipe<K, V>>, m: nat, n: nat)
    requires CommitOrder(src) && ValidHistory(Txns(src), s0)
    requires IsRun(src, s0, evs, run) && m <= n <= |evs|
    ensures run[m].apply.durable <= run[n].apply.durable
    ensures
      var (log, a) := (run[n].recv.log, run[n].apply);
      && (a.durable == 0 || exists i :: CommitRow(log, i, a.durable))
      && Below(log, a.durable) <= |log|
      && Commits(log[..Below(log, a.durable)]) <= a.done <= Commits(log[..Below(log, a.durable)]) + 5 * (a.lost + 1)
  {
    assert |run| == |evs| + 1;
    hide Inv;
    hide LogInv;
    hide IsRun;
    RunInv(src, s0, evs, run, n);
    CheckpointWindow(Txns(src), s0, run[n].recv.log, run[n].recv.entries, run[n].apply);
    NeverBack(src, s0, evs, run, m, n);
  }
}
