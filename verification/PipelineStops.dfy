/** A transaction that the apply thread does not get over, while the receive thread goes on. */
module PipelineStops {
  import opened Replay
  import opened SyncLog
  import opened ApplyThread
  import opened ApplyProofs
  import opened ThreadStops
  import opened Receive
  import opened ReceiveLog
  import opened Pipeline

  lemma {:induction false} RunLog<K, V>(src: seq<SrcTxn<K, V>>, s0: map<K, V>, evs: seq<PipeEvent>, run: seq<Pipe<K, V>>, n: nat)
    requires CommitOrder(src) && Pipeline.IsRun(src, s0, evs, run) && n <= |evs|
    ensures LogInv(src, run[n].recv) && Known(Txns(src), run[n].recv.entries)
  {
    if n == 0 {
      InitLog(src);
    } else {
      RunLog(src, s0, evs, run, n - 1);
      StepIn(src, s0, evs, run, n - 1);
      if evs[n - 1].OnReceive? {
        StepKeepsLog(src, evs[n - 1].r, run[n - 1].recv, run[n].recv);
      }
    }
  }

  /** One transaction more in the log, behind the one that holds the thread up. */
  lemma {:induction false} HeldUpGrows<K, V>(txns: seq<seq<Op<K, V>>>, log: seq<LogRow<K, V>>, entries: seq<nat>, more: seq<LogRow<K, V>>,
                                             i: nat, e: nat, a: Apply<K, V>, j: nat, l: nat)
    requires Known(txns, entries) && e < |entries| && HeldUp(txns, log, entries, e, a, j, l)
    requires GoodLog(txns, log + more, entries + [i])
    ensures HeldUp(txns, log + more, entries + [i], e, a, j, l)
  {
    MarksGrow(txns, log, entries, more, i, a.durable, e);
    if a.thread.Some? {
      ThreadGrows(txns, log, entries, more, i, a.thread.value, a.session, e, j, l);
    }
  }

  lemma {:induction false} PipeHeldUp<K, V>(src: seq<SrcTxn<K, V>>, ev: PipeEvent, p: Pipe<K, V>, p': Pipe<K, V>, e: nat, j: nat, l: nat)
    returns (j': nat, l': nat)
    requires CommitOrder(src) && LogInv(src, p.recv) && Pipeline.Step(src, ev, p, p') && e < |p.recv.entries|
    requires HeldUp(Txns(src), p.recv.log, p.recv.entries, e, p.apply, j, l)
    requires !GetsOver(Txns(src)[p.recv.entries[e]], p.apply.session.db)
    ensures LogInv(src, p'.recv) && e < |p'.recv.entries| && p'.recv.entries[e] == p.recv.entries[e]
    ensures HeldUp(Txns(src), p'.recv.log, p'.recv.entries, e, p'.apply, j', l')
    ensures p'.apply.session.db == p.apply.session.db && p'.apply.durable == p.apply.durable
  {
    hide HeldUp;
    hide GetsOver;
    match ev
    case OnReceive(r) =>
      StepKeepsLog(src, r, p.recv, p'.recv);
      var grew, more, i := LogGrows(src, r, p.recv, p'.recv);
      j', l' := j, l;
      if grew {
        HeldUpGrows(Txns(src), p.recv.log, p.recv.entries, more, i, e, p.apply, j, l);
      }
    case OnApply(a) =>
      j', l' := StepHeldUp(Txns(src), p.recv.log, p.recv.entries, e, a, p.apply, p'.apply, j, l);
  }

  /** The apply thread has stopped before log transaction `e`, which it does not get over. */
  ghost predicate StoppedBefore<K, V>(src: seq<SrcTxn<K, V>>, p: Pipe<K, V>, e: nat) {
    && Known(Txns(src), p.recv.entries) && e < |p.recv.entries|
    && p.apply.thread.None? && p.apply.session.tx.Idle?
    && Marks(Txns(src), p.recv.log, p.recv.entries, p.apply.durable, e)
    && !GetsOver(Txns(src)[p.recv.entries[e]], p.apply.session.db)
  }

  /** What such a state and those after it have in common. */
  ghost predicate StillBefore<K, V>(src: seq<SrcTxn<K, V>>, p: Pipe<K, V>, q: Pipe<K, V>, e: nat)
    requires e < |p.recv.entries|
  {
    && Known(Txns(src), q.recv.entries) && e < |q.recv.entries| && q.recv.entries[e] == p.recv.entries[e]
    && q.apply.session.db == p.apply.session.db && q.apply.durable == p.apply.durable
    && exists j, l :: HeldUp(Txns(src), q.recv.log, q.recv.entries, e, q.apply, j, l)
  }

  lemma {:induction false} StillAtFirst<K, V>(src: seq<SrcTxn<K, V>>, p: Pipe<K, V>, e: nat)
    requires StoppedBefore(src, p, e)
    ensures StillBefore(src, p, p, e)
  {
    assert HeldUp(Txns(src), p.recv.log, p.recv.entries, e, p.apply, 0, e);
  }

  lemma {:induction false} StillAfter<K, V>(src: seq<SrcTxn<K, V>>, ev: PipeEvent, p: Pipe<K, V>, q: Pipe<K, V>, q': Pipe<K, V>, e: nat)
    requires CommitOrder(src) && StoppedBefore(src, p, e) && StillBefore(src, p, q, e)
    requires LogInv(src, q.recv) && Known(Txns(src), q'.recv.entries) && Pipeline.Step(src, ev, q, q')
    ensures StillBefore(src, p, q', e)
  {
    hide HeldUp;
    hide GetsOver;
    hide Marks;
    hide LogInv;
    var j, l :| HeldUp(Txns(src), q.recv.log, q.recv.entries, e, q.apply, j, l);
    var j', l' := PipeHeldUp(src, ev, q, q', e, j, l);
  }

  /** Along any steps of both threads. */
  lemma {:induction false} StillAlong<K, V>(src: seq<SrcTxn<K, V>>, evs: seq<PipeEvent>, run: seq<Pipe<K, V>>, p: Pipe<K, V>, e: nat, n: nat)
    requires CommitOrder(src) && StoppedBefore(src, p, e) && n <= |evs| && |run| == |evs| + 1 && run[0] == p
    requires forall i | 0 <= i < |evs| :: Pipeline.Step(src, evs[i], run[i], run[i + 1])
    requires forall i | 0 <= i <= |evs| :: LogInv(src, run[i].recv) && Known(Txns(src), run[i].recv.entries)
    ensures e < |p.recv.entries| && StillBefore(src, p, run[n], e)
  {
    hide StillBefore;
    hide LogInv;
    hide Pipeline.Step;
    hide GetsOver;
    if n == 0 {
      StillAtFirst(src, p, e);
    } else {
      StillAlong(src, evs, run, p, e, n - 1);
      StillAfter(src, evs[n - 1], p, run[n - 1], run[n], e);
    }
  }

  /** In every run of both threads: once the apply thread has stopped before a transaction that it does not get over, the
      tables and the durable position stay what they are, whatever is received and however often it starts anew. */
  lemma {:induction false} StopsTheTarget<K, V>(src: seq<SrcTxn<K, V>>, s0: map<K, V>, evs: seq<PipeEvent>, run: seq<Pipe<K, V>>,
                                                e: nat, m: nat, n: nat)
    requires CommitOrder(src) && Pipeline.IsRun(src, s0, evs, run) && m <= n <= |evs| && StoppedBefore(src, run[m], e)
    ensures run[n].apply.session.db == run[m].apply.session.db && run[n].apply.durable == run[m].apply.durable
    ensures StillBefore(src, run[m], run[n], e)
  {
    hide LogInv;
    hide Pipeline.Step;
    hide HeldUp;
    hide GetsOver;
    forall i | m <= i <= |evs| ensures LogInv(src, run[i].recv) && Known(Txns(src), run[i].recv.entries) {
      RunLog(src, s0, evs, run, i);
    }
    var steps, states := evs[m..], run[m..];
    StillAlong(src, steps, states, run[m], e, n - m);
    assert states[n - m] == run[n];
  }

  lemma {:induction false} StepIn<K, V>(src: seq<SrcTxn<K, V>>, s0: map<K, V>, evs: seq<PipeEvent>, run: seq<Pipe<K, V>>, n: nat)
    requires CommitOrder(src) && Pipeline.IsRun(src, s0, evs, run) && n < |evs|
    ensures Pipeline.Step(src, evs[n], run[n], run[n + 1])
  {
    hide Pipeline.Step;
  }
}
