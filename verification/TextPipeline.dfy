/** The pipeline down to texts and rows: the receive thread logs texts, the apply thread runs them on the tables of
    the target, and these come to hold what the source's tables hold. */
module TextPipeline {
  import opened OptionType
  import opened Replay
  import opened SqlMeaning
  import opened KeyedTables
  import opened Databases
  import opened TextThread
  import opened ApplyProofs
  import opened Receive
  import opened ReceiveLog
  import P = Pipeline

  datatype TextPipe = TextPipe(recv: Recv<RowId, TableRow>, log: seq<TextRow>, apply: TextApply)

  function Init(db: Database): TextPipe {
    TextPipe(Receive.Init(), [], TextApply(0, TextSession(db, TextIdle), None))
  }

  /** One step of either thread, of the server or of a crash.  What the receive thread adds to the log are texts of
      its messages. */
  ghost predicate Step(cat: Catalog, src: seq<SrcTxn<RowId, TableRow>>, ev: P.PipeEvent, p: TextPipe, p': TextPipe)
    requires CommitOrder(src)
  {
    match ev
    case OnReceive(r) =>
      && Receive.Step(src, r, p.recv, p'.recv) && p'.apply == p.apply
      && (r.Connect? ==> CleanConnect(src, p.recv))
      && p.log <= p'.log && Rendered(cat, p'.recv.log, p'.log)
    case OnApply(a) =>
      TextStep(cat, p.log, a, p.apply, p'.apply) && p'.recv == p.recv && p'.log == p.log
  }

  ghost predicate IsRun(cat: Catalog, src: seq<SrcTxn<RowId, TableRow>>, db: Database, evs: seq<P.PipeEvent>, run: seq<TextPipe>)
    requires CommitOrder(src)
  {
    && |run| == |evs| + 1 && run[0] == Init(db)
    && forall i | 0 <= i < |evs| :: Step(cat, src, evs[i], run[i], run[i + 1])
  }

  /** The abstract pipeline in the same state. */
  ghost predicate Shadow(cat: Catalog, src: seq<SrcTxn<RowId, TableRow>>, s0: DbMap, p: TextPipe, q: P.Pipe<RowId, TableRow>)
    requires CommitOrder(src)
  {
    && P.PipeInv(src, s0, q) && q.recv == p.recv
    && Rendered(cat, p.recv.log, p.log) && SameApply(cat, q.apply, p.apply)
  }

  lemma {:induction false} StepShadow(cat: Catalog, src: seq<SrcTxn<RowId, TableRow>>, s0: DbMap, ev: P.PipeEvent,
                                      p: TextPipe, p': TextPipe, q: P.Pipe<RowId, TableRow>) returns (q': P.Pipe<RowId, TableRow>)
    requires CommitOrder(src) && ValidHistory(Txns(src), s0)
    requires Shadow(cat, src, s0, p, q) && Step(cat, src, ev, p, p')
    ensures Shadow(cat, src, s0, p', q')
  {
    match ev {
      case OnReceive(r) => q' := q.(recv := p'.recv);
      case OnApply(a) =>
        var b := StepSame(cat, p.recv.log, p.log, a, q.apply, p.apply, p'.apply);
        q' := q.(apply := b);
    }
    P.PipeKeeps(src, s0, ev, q, q');
  }

  lemma {:induction false} RunShadow(cat: Catalog, src: seq<SrcTxn<RowId, TableRow>>, s0: DbMap, db: Database,
                                     evs: seq<P.PipeEvent>, run: seq<TextPipe>, n: nat) returns (q: P.Pipe<RowId, TableRow>)
    requires CommitOrder(src) && ValidHistory(Txns(src), s0) && HoldsAll(cat, s0, db)
    requires IsRun(cat, src, db, evs, run) && n <= |evs|
    ensures Shadow(cat, src, s0, run[n], q)
  {
    if n == 0 {
      q := P.Init(s0);
      InitLog(src);
      InitInv(Txns(src), s0);
    } else {
      var before := RunShadow(cat, src, s0, db, evs, run, n - 1);
      q := StepShadow(cat, src, s0, evs[n - 1], run[n - 1], run[n], before);
    }
  }

  /** Convergence of texts and rows, for all tables together.  In every run, with crashes and restarts anywhere,
      failed reports and clean reconnects: whenever the apply thread has read the whole log, and the log ends with
      the furthest transaction it holds, every table of the target holds exactly the rows that the source had in
      it after that many transactions. */
  lemma {:induction false} TextsConverge(cat: Catalog, src: seq<SrcTxn<RowId, TableRow>>, s0: DbMap, db: Database,
                                         evs: seq<P.PipeEvent>, run: seq<TextPipe>, n: nat)
    requires CommitOrder(src) && ValidHistory(Txns(src), s0) && HoldsAll(cat, s0, db)
    requires IsRun(cat, src, db, evs, run) && n <= |evs|
    requires run[n].apply.thread.Some? && run[n].apply.thread.value.next == |run[n].log|
    requires var entries := run[n].recv.entries; Front(entries, |entries|) == High(entries, |entries|)
    ensures
      var entries := run[n].recv.entries;
      && High(entries, |entries|) <= |src|
      && HoldsAll(cat, Source(Txns(src), s0, High(entries, |entries|)), run[n].apply.session.db)
      && run[n].apply.session.tx.TextIdle?
  {
    var q := RunShadow(cat, src, s0, db, evs, run, n);
    Converged(Txns(src), s0, q.recv.log, q.recv.entries, q.apply);
  }

  // ---- The rows ----------------------------------------------------------------------------------------------

  lemma {:induction false} OnceEach<T>(rows: seq<T>, r: T)
    requires forall i, j | 0 <= i < j < |rows| :: rows[i] != rows[j]
    ensures multiset(rows)[r] == if r in rows then 1 else 0
  {
    if rows != [] {
      var n := |rows| - 1;
      assert rows == rows[..n] + [rows[n]];
      OnceEach(rows[..n], r);
    }
  }

  /** Two tables with the same map hold the same rows. */
  lemma {:induction false} SameMapSameRows(s: Schema, m: map<Key, TableRow>, a: seq<TableRow>, b: seq<TableRow>)
    requires HoldsIn(s, m, a) && HoldsIn(s, m, b)
    ensures multiset(a) == multiset(b)
  {
    NoRowTwice(s, m, a);
    NoRowTwice(s, m, b);
    forall r: TableRow ensures multiset(a)[r] == multiset(b)[r] {
      OnceEach(a, r);
      OnceEach(b, r);
      RowsOfMap(s, m, a, r);
      RowsOfMap(s, m, b, r);
    }
  }

  lemma {:induction false} NoRowTwice(s: Schema, m: map<Key, TableRow>, rows: seq<TableRow>)
    requires HoldsIn(s, m, rows)
    ensures forall i, j | 0 <= i < j < |rows| :: rows[i] != rows[j]
  {
    forall i, j | 0 <= i < j < |rows| ensures rows[i] != rows[j] {
      DifferentKeys(s.key, rows, i, j);
    }
  }

  lemma {:induction false} RowsOfMap(s: Schema, m: map<Key, TableRow>, rows: seq<TableRow>, r: TableRow)
    requires HoldsIn(s, m, rows)
    ensures r in rows <==> KeyOf(s.key, r) in m && m[KeyOf(s.key, r)] == r
  {
    if KeyOf(s.key, r) in m && m[KeyOf(s.key, r)] == r {
      var j := FindRow(s.key, m, rows, KeyOf(s.key, r));
    }
  }

  /** When the source's tables hold what the source's map says, the target's hold the same rows. */
  lemma {:induction false} SameRows(cat: Catalog, m: DbMap, source: Database, target: Database)
    requires HoldsAll(cat, m, source) && HoldsAll(cat, m, target)
    ensures source.Keys == target.Keys && forall t | t in cat :: multiset(source[t]) == multiset(target[t])
  {
    forall t | t in cat ensures multiset(source[t]) == multiset(target[t]) {
      SameMapSameRows(cat[t], Part(m, t), source[t], target[t]);
    }
  }
}
