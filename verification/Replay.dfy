/** What it means to run the logged statements of keyed tables again.

    A table with a key is a map from key to row.  A logged INSERT stores a row and is refused when
    the key is taken, a logged UPDATE replaces every column of the row it finds (and finds nothing
    when the key is free), a logged DELETE frees the key, and `Rekey` is an UPDATE that also changes
    the key.  The module proves the algebra behind replaying a log that has already been applied:
    running again any part of a segment of the log never takes away the ability of the whole segment
    to bring the target back to the source. */
module Replay {

  datatype Op<K, V> =
    | Insert(key: K, row: V)
    | Update(key: K, row: V)
    | Delete(key: K)
    | Rekey(key: K, newKey: K, row: V)

  datatype Outcome<K, V> = Done(db: map<K, V>) | DuplicateKey

  /** One statement on the target. */
  function Exec<K, V>(op: Op<K, V>, db: map<K, V>): Outcome<K, V> {
    match op
    case Insert(k, v) => if k in db then DuplicateKey else Done(db[k := v])
    case Update(k, v) => if k in db then Done(db[k := v]) else Done(db)
    case Delete(k) => Done(db - {k})
    case Rekey(k, k', v) =>
      if k !in db then Done(db)
      else if k' != k && k' in db then DuplicateKey
      else Done((db - {k})[k' := v])
  }

  /** A statement whose duplicate-key error, if any, is passed over. */
  function Lenient<K, V>(op: Op<K, V>, db: map<K, V>): map<K, V> {
    match Exec(op, db)
    case Done(db') => db'
    case DuplicateKey => db
  }

  function Run<K, V>(ops: seq<Op<K, V>>, db: map<K, V>): map<K, V> {
    if ops == [] then db else Run(ops[1..], Lenient(ops[0], db))
  }

  /** The statement did on the source what its kind says: an INSERT used a free key, an UPDATE or
      DELETE found its row, and a new key was free. */
  predicate Applicable<K, V>(op: Op<K, V>, db: map<K, V>) {
    match op
    case Insert(k, _) => k !in db
    case Update(k, _) => k in db
    case Delete(k) => k in db
    case Rekey(k, k', _) => k in db && (k' == k || k' !in db)
  }

  predicate ValidRun<K, V>(ops: seq<Op<K, V>>, db: map<K, V>) {
    ops != [] ==> Applicable(ops[0], db) && ValidRun(ops[1..], Lenient(ops[0], db))
  }

  lemma {:induction false} RunAppend<K, V>(a: seq<Op<K, V>>, b: seq<Op<K, V>>, db: map<K, V>)
    ensures Run(a + b, db) == Run(b, Run(a, db))
  {
    if a == [] {
      assert a + b == b;
    } else {
      assert (a + b)[1..] == a[1..] + b;
      RunAppend(a[1..], b, Lenient(a[0], db));
    }
  }

  lemma {:induction false} ValidAppend<K, V>(a: seq<Op<K, V>>, b: seq<Op<K, V>>, db: map<K, V>)
    ensures ValidRun(a + b, db) <==> ValidRun(a, db) && ValidRun(b, Run(a, db))
  {
    if a == [] {
      assert a + b == b;
    } else {
      assert (a + b)[1..] == a[1..] + b;
      ValidAppend(a[1..], b, Lenient(a[0], db));
    }
  }

  // ---- One key at a time -------------------------------------------------------------------------

  datatype Slot<V> = Free | Taken(row: V)

  datatype KeyOp<V> = Ins(row: V) | Upd(row: V) | Del

  function At<K, V>(db: map<K, V>, k: K): Slot<V> {
    if k in db then Taken(db[k]) else Free
  }

  function KeyStep<V>(o: KeyOp<V>, s: Slot<V>): Slot<V> {
    match o
    case Ins(v) => if s.Free? then Taken(v) else s
    case Upd(v) => if s.Free? then s else Taken(v)
    case Del => Free
  }

  function KeyRun<V>(os: seq<KeyOp<V>>, s: Slot<V>): Slot<V> {
    if os == [] then s else KeyRun(os[1..], KeyStep(os[0], s))
  }

  predicate KeyValid<V>(os: seq<KeyOp<V>>, s: Slot<V>) {
    os != [] ==> (os[0].Ins? <==> s.Free?) && KeyValid(os[1..], KeyStep(os[0], s))
  }

  /** The part of a run that concerns one key. */
  ghost function OnKey<K, V>(ops: seq<Op<K, V>>, k: K): seq<KeyOp<V>> {
    if ops == [] then []
    else
      var rest := OnKey(ops[1..], k);
      match ops[0]
      case Insert(k', v) => if k' == k then [Ins(v)] + rest else rest
      case Update(k', v) => if k' == k then [Upd(v)] + rest else rest
      case Delete(k') => if k' == k then [Del] + rest else rest
      case Rekey(_, _, _) => rest
  }

  predicate KeyPreserving<K, V>(ops: seq<Op<K, V>>) {
    forall i | 0 <= i < |ops| :: !ops[i].Rekey?
  }

  /** Keys do not interact: the slot of a key after a run is decided by the statements on it. */
  lemma {:induction false} RunOnKey<K, V>(ops: seq<Op<K, V>>, db: map<K, V>, k: K)
    requires KeyPreserving(ops)
    ensures At(Run(ops, db), k) == KeyRun(OnKey(ops, k), At(db, k))
    ensures ValidRun(ops, db) ==> KeyValid(OnKey(ops, k), At(db, k))
  {
    if ops != [] {
      var db' := Lenient(ops[0], db);
      RunOnKey(ops[1..], db', k);
      if ops[0].key == k {
        assert OnKey(ops, k)[1..] == OnKey(ops[1..], k);
      } else {
        assert At(db', k) == At(db, k);
      }
    }
  }

  lemma {:induction false} OnKeyAppend<K, V>(a: seq<Op<K, V>>, b: seq<Op<K, V>>, k: K)
    ensures OnKey(a + b, k) == OnKey(a, k) + OnKey(b, k)
  {
    if a == [] {
      assert a + b == b;
    } else {
      assert (a + b)[1..] == a[1..] + b;
      OnKeyAppend(a[1..], b, k);
    }
  }

  lemma {:induction false} KeyRunAppend<V>(a: seq<KeyOp<V>>, b: seq<KeyOp<V>>, s: Slot<V>)
    ensures KeyRun(a + b, s) == KeyRun(b, KeyRun(a, s))
  {
    if a == [] {
      assert a + b == b;
    } else {
      assert (a + b)[1..] == a[1..] + b;
      KeyRunAppend(a[1..], b, KeyStep(a[0], s));
    }
  }

  lemma {:induction false} DbExtensional<K, V>(a: map<K, V>, b: map<K, V>)
    requires forall k :: At(a, k) == At(b, k)
    ensures a == b
  {
    forall k ensures k in a <==> k in b {
      assert At(a, k) == At(b, k);
    }
    forall k | k in a ensures a[k] == b[k] {
      assert At(a, k) == At(b, k);
    }
  }

  predicate HasDel<V>(os: seq<KeyOp<V>>) {
    exists i | 0 <= i < |os| :: os[i].Del?
  }

  /** A DELETE in the run makes the end independent of where the run starts. */
  lemma {:induction false} DelForgets<V>(os: seq<KeyOp<V>>, s: Slot<V>, t: Slot<V>)
    requires HasDel(os)
    ensures KeyRun(os, s) == KeyRun(os, t)
  {
    if !os[0].Del? {
      var i :| 0 <= i < |os| && os[i].Del?;
      assert os[1..][i - 1].Del?;
      DelForgets(os[1..], KeyStep(os[0], s), KeyStep(os[0], t));
    }
  }

  /** UPDATEs alone: a taken slot stays taken and, when there is one, the last row wins. */
  lemma {:induction false} UpdatesForget<V>(os: seq<KeyOp<V>>, s: Slot<V>, t: Slot<V>)
    requires forall i | 0 <= i < |os| :: os[i].Upd?
    requires s.Taken? && t.Taken?
    ensures KeyRun(os, s).Taken?
    ensures os != [] ==> KeyRun(os, s) == KeyRun(os, t)
  {
    if os != [] {
      UpdatesForget(os[1..], KeyStep(os[0], s), KeyStep(os[0], t));
    }
  }

  lemma {:induction false} UpdatesMiss<V>(os: seq<KeyOp<V>>)
    requires forall i | 0 <= i < |os| :: os[i].Upd?
    ensures KeyRun(os, Free) == Free
  {
    if os != [] {
      UpdatesMiss(os[1..]);
    }
  }

  /** Without a DELETE, everything after the first statement of a valid run is an UPDATE. */
  lemma {:induction false} TailUpdates<V>(os: seq<KeyOp<V>>, s: Slot<V>)
    requires KeyValid(os, s) && !HasDel(os) && os != []
    ensures forall i | 1 <= i < |os| :: os[i].Upd?
    ensures s.Taken? ==> forall i | 0 <= i < |os| :: os[i].Upd?
  {
    var rest := os[1..];
    if rest != [] {
      assert !os[0].Del?;
      assert forall i | 0 <= i < |rest| :: !rest[i].Del? by {
        forall i | 0 <= i < |rest| ensures !rest[i].Del? {
          assert rest[i] == os[i + 1];
        }
      }
      TailUpdates(rest, KeyStep(os[0], s));
      forall i | 1 <= i < |os| ensures os[i].Upd? {
        assert os[i] == rest[i - 1];
      }
    }
  }

  /** The heart of the argument, for one key.  `a + b + c` is what the source did to a key.  If a
      slot is brought to the source's by the whole of it, it still is after `b` has been run on it
      once more. */
  lemma {:induction false} KeyAbsorb<V>(a: seq<KeyOp<V>>, b: seq<KeyOp<V>>, c: seq<KeyOp<V>>, s: Slot<V>, v: Slot<V>)
    requires KeyValid(a + b + c, s)
    requires KeyRun(a + b + c, v) == KeyRun(a + b + c, s)
    ensures KeyRun(a + b + c, KeyRun(b, v)) == KeyRun(a + b + c, s)
  {
    var x := a + b + c;
    var u := KeyRun(b, v);
    if b == [] {
    } else if HasDel(x) {
      DelForgets(x, u, s);
    } else {
      TailUpdates(x, s);
      if s.Taken? {
        if v.Free? {
          UpdatesMiss(x);
          UpdatesForget(x, s, s);
          assert false;
        }
        assert forall i | 0 <= i < |b| :: b[i] == x[|a| + i];
        UpdatesForget(b, v, v);
        UpdatesForget(x, u, s);
      } else if |x| == 1 {
        assert a == [] && c == [] && b == x;
        assert KeyRun(x[1..], KeyStep(x[0], v)) == KeyStep(x[0], v);
        assert KeyRun(x[1..], KeyStep(x[0], u)) == KeyStep(x[0], u);
        assert KeyRun(x[1..], KeyStep(x[0], s)) == KeyStep(x[0], s);
      } else {
        assert KeyStep(x[0], u).Taken? && KeyStep(x[0], s).Taken?;
        UpdatesForget(x[1..], KeyStep(x[0], u), KeyStep(x[0], s));
      }
    }
  }

  /** The same for whole tables without key changes: running again the middle of a valid segment keeps
      the segment able to heal the target. */
  lemma {:induction false} AbsorbPlain<K, V>(a: seq<Op<K, V>>, b: seq<Op<K, V>>, c: seq<Op<K, V>>, s: map<K, V>, t: map<K, V>)
    requires KeyPreserving(a + b + c) && ValidRun(a + b + c, s)
    requires Run(a + b + c, t) == Run(a + b + c, s)
    ensures Run(a + b + c, Run(b, t)) == Run(a + b + c, s)
  {
    var x := a + b + c;
    var t' := Run(b, t);
    assert KeyPreserving(b) by {
      forall i | 0 <= i < |b| ensures !b[i].Rekey? { assert b[i] == x[|a| + i]; }
    }
    forall k ensures At(Run(x, t'), k) == At(Run(x, s), k) {
      OnKeyAppend(a + b, c, k);
      OnKeyAppend(a, b, k);
      RunOnKey(x, s, k);
      RunOnKey(x, t, k);
      RunOnKey(x, t', k);
      RunOnKey(b, t, k);
      KeyAbsorb(OnKey(a, k), OnKey(b, k), OnKey(c, k), At(s, k), At(t, k));
    }
    DbExtensional(Run(x, t'), Run(x, s));
  }

  // ---- Key changes ---------------------------------------------------------------------------------

  /** The statement moves its row to another key. */
  predicate MovesKey<K(==), V>(op: Op<K, V>) { op.Rekey? && op.newKey != op.key }

  predicate Frees<K(==), V>(op: Op<K, V>, k: K) { op.key == k && (op.Delete? || MovesKey(op)) }

  /** A key that a row is moved away from is never inserted, and a key that a row is moved to was not
      freed before. */
  ghost predicate FreshMoves<K, V>(ops: seq<Op<K, V>>) {
    && (forall i, j | 0 <= i < |ops| && 0 <= j < |ops| && MovesKey(ops[i]) && ops[j].Insert? :: ops[j].key != ops[i].key)
    && (forall i, j | 0 <= j < i < |ops| && MovesKey(ops[i]) :: !Frees(ops[j], ops[i].newKey))
  }

  /** The keys in `left` are moved away from or not used again: all that are moved away from are among
      them, none is inserted, and no row is moved to a key that was freed. */
  ghost predicate Leaves<K, V>(ops: seq<Op<K, V>>, left: set<K>) {
    && (forall i | 0 <= i < |ops| && MovesKey(ops[i]) :: ops[i].key in left)
    && (forall i | 0 <= i < |ops| && ops[i].Insert? :: ops[i].key !in left)
    && (forall i, j | 0 <= j < i < |ops| && MovesKey(ops[i]) :: !Frees(ops[j], ops[i].newKey))
  }

  ghost function LeftKeys<K, V>(ops: seq<Op<K, V>>): set<K> {
    set i | 0 <= i < |ops| && MovesKey(ops[i]) :: ops[i].key
  }

  lemma {:induction false} LeavesTail<K, V>(ops: seq<Op<K, V>>, left: set<K>)
    requires Leaves(ops, left) && ops != []
    ensures Leaves(ops[1..], left)
  {
    forall i, j | 0 <= j < i < |ops| - 1 && MovesKey(ops[1..][i]) ensures !Frees(ops[1..][j], ops[1..][i].newKey) {
      assert !Frees(ops[j + 1], ops[i + 1].newKey);
    }
  }

  /** What is left of a statement once the rows have been moved: nothing of a move, and nothing of a
      statement on a key that is moved away from. */
  ghost function SettleOp<K, V>(op: Op<K, V>, left: set<K>): seq<Op<K, V>> {
    if MovesKey(op) || op.key in left then []
    else if op.Rekey? then [Update(op.key, op.row)]
    else [op]
  }

  ghost function Settle<K, V>(ops: seq<Op<K, V>>, left: set<K>): seq<Op<K, V>> {
    if ops == [] then [] else SettleOp(ops[0], left) + Settle(ops[1..], left)
  }

  lemma {:induction false} SettleAppend<K, V>(a: seq<Op<K, V>>, b: seq<Op<K, V>>, left: set<K>)
    ensures Settle(a + b, left) == Settle(a, left) + Settle(b, left)
  {
    if a == [] {
      assert a + b == b;
    } else {
      assert (a + b)[1..] == a[1..] + b;
      SettleAppend(a[1..], b, left);
    }
  }

  lemma {:induction false} SettleKeepsKeys<K, V>(ops: seq<Op<K, V>>, left: set<K>)
    ensures KeyPreserving(Settle(ops, left))
  {
    if ops != [] {
      SettleKeepsKeys(ops[1..], left);
    }
  }

  /** The rows that the moves in `ops` bring to keys that stay. */
  ghost function Gains<K, V>(ops: seq<Op<K, V>>, left: set<K>): map<K, V> {
    if ops == [] then map[]
    else
      var rest := Gains(ops[1..], left);
      if MovesKey(ops[0]) && ops[0].newKey !in left && ops[0].newKey !in rest then rest[ops[0].newKey := ops[0].row] else rest
  }

  lemma {:induction false} GainedBy<K, V>(ops: seq<Op<K, V>>, left: set<K>, k: K) returns (i: nat)
    requires k in Gains(ops, left)
    ensures i < |ops| && MovesKey(ops[i]) && ops[i].newKey == k && k !in left
  {
    if k in Gains(ops[1..], left) {
      var j := GainedBy(ops[1..], left, k);
      i := j + 1;
    } else {
      i := 0;
    }
  }

  /** A taken key that is not freed cannot be moved to. */
  lemma {:induction false} TakenStays<K, V>(ops: seq<Op<K, V>>, db: map<K, V>, k: K, i: nat)
    requires ValidRun(ops, db) && k in db && i < |ops| && MovesKey(ops[i]) && ops[i].newKey == k
    requires forall j | 0 <= j < i :: !Frees(ops[j], k)
    ensures false
  {
    if i > 0 {
      forall j | 0 <= j < i - 1 ensures !Frees(ops[1..][j], k) { assert !Frees(ops[j + 1], k); }
      assert !Frees(ops[0], k);
      TakenStays(ops[1..], Lenient(ops[0], db), k, i - 1);
    }
  }

  /** The table as it would be had the moves in `ops` been made already. */
  ghost function Moved<K, V>(ops: seq<Op<K, V>>, left: set<K>, db: map<K, V>): map<K, V> {
    (db - left) + Gains(ops, left)
  }

  /** A key that is still to be moved to is not used before. */
  lemma {:induction false} GainUnused<K, V>(ops: seq<Op<K, V>>, left: set<K>, db: map<K, V>)
    requires ops != [] && ValidRun(ops, db) && Leaves(ops, left) && !MovesKey(ops[0])
    ensures ops[0].key !in Gains(ops[1..], left)
  {
    var k := ops[0].key;
    if k in Gains(ops[1..], left) {
      var i := GainedBy(ops[1..], left, k);
      forall j | 0 <= j < i ensures !Frees(ops[1..][j], k) { assert ops[i + 1] == ops[1..][i] && !Frees(ops[j + 1], k); }
      assert !Frees(ops[0], ops[i + 1].newKey);
      TakenStays(ops[1..], Lenient(ops[0], db), k, i);
    }
  }

  /** A key is moved to but once. */
  lemma {:induction false} GainOnce<K, V>(ops: seq<Op<K, V>>, left: set<K>, db: map<K, V>)
    requires ops != [] && ValidRun(ops, db) && Leaves(ops, left) && MovesKey(ops[0])
    ensures ops[0].newKey !in Gains(ops[1..], left)
  {
    var k := ops[0].newKey;
    if k in Gains(ops[1..], left) {
      var i := GainedBy(ops[1..], left, k);
      forall j | 0 <= j < i ensures !Frees(ops[1..][j], k) { assert ops[i + 1] == ops[1..][i] && !Frees(ops[j + 1], k); }
      TakenStays(ops[1..], Lenient(ops[0], db), k, i);
    }
  }

  /** One statement on the source is what is left of it on the table with the moves made. */
  lemma {:induction false} SettledStep<K, V>(ops: seq<Op<K, V>>, left: set<K>, db: map<K, V>)
    requires ops != [] && ValidRun(ops, db) && Leaves(ops, left)
    ensures
      var (rest, db') := (ops[1..], Lenient(ops[0], db));
      && Run(SettleOp(ops[0], left), Moved(ops, left, db)) == Moved(rest, left, db')
      && ValidRun(SettleOp(ops[0], left), Moved(ops, left, db))
  {
    if MovesKey(ops[0]) {
      SettledMove(ops, left, db);
    } else {
      SettledStay(ops, left, db);
    }
  }

  lemma {:induction false} SettledMove<K, V>(ops: seq<Op<K, V>>, left: set<K>, db: map<K, V>)
    requires ops != [] && ValidRun(ops, db) && Leaves(ops, left) && MovesKey(ops[0])
    ensures SettleOp(ops[0], left) == [] && Moved(ops, left, db) == Moved(ops[1..], left, Lenient(ops[0], db))
  {
    GainOnce(ops, left, db);
    assert ops[0].key in left;
  }

  lemma {:induction false} RunOne<K, V>(op: Op<K, V>, db: map<K, V>)
    ensures Run([op], db) == Lenient(op, db) && (ValidRun([op], db) <==> Applicable(op, db))
  {
    assert [op][1..] == [];
  }

  lemma {:induction false} SettledStay<K, V>(ops: seq<Op<K, V>>, left: set<K>, db: map<K, V>)
    requires ops != [] && ValidRun(ops, db) && Leaves(ops, left) && !MovesKey(ops[0])
    ensures
      var (rest, db') := (ops[1..], Lenient(ops[0], db));
      && Run(SettleOp(ops[0], left), Moved(ops, left, db)) == Moved(rest, left, db')
      && ValidRun(SettleOp(ops[0], left), Moved(ops, left, db))
  {
    hide Leaves;
    GainUnused(ops, left, db);
    var op, m := ops[0], Moved(ops, left, db);
    if op.key !in left {
      var o := if op.Rekey? then Update(op.key, op.row) else op;
      RunOne(o, m);
    }
  }

  /** So a valid segment with its moves made first is a valid segment without moves, to the same end. */
  lemma {:induction false} SettledRun<K, V>(ops: seq<Op<K, V>>, left: set<K>, db: map<K, V>)
    requires ValidRun(ops, db) && Leaves(ops, left)
    ensures ValidRun(Settle(ops, left), Moved(ops, left, db))
    ensures Run(Settle(ops, left), Moved(ops, left, db)) == Run(ops, db) - left
  {
    if ops != [] {
      var db' := Lenient(ops[0], db);
      LeavesTail(ops, left);
      SettledStep(ops, left, db);
      SettledRun(ops[1..], left, db');
      RunAppend(SettleOp(ops[0], left), Settle(ops[1..], left), Moved(ops, left, db));
      ValidAppend(SettleOp(ops[0], left), Settle(ops[1..], left), Moved(ops, left, db));
    }
  }

  /** Where the keys that are moved away from are gone, the moves do nothing, and the keys stay gone. */
  lemma {:induction false} GoneRun<K, V>(ops: seq<Op<K, V>>, left: set<K>, t: map<K, V>)
    requires Leaves(ops, left) && t.Keys !! left
    ensures Run(ops, t) == Run(Settle(ops, left), t) && Run(ops, t).Keys !! left
  {
    if ops != [] {
      var op := ops[0];
      LeavesTail(ops, left);
      var t' := Lenient(op, t);
      assert op.Delete? && op.key in left ==> t' == t;
      assert op.Rekey? && !MovesKey(op) && op.key in t ==> (t - {op.key})[op.key := op.row] == t[op.key := op.row];
      if SettleOp(op, left) != [] {
        var o := SettleOp(op, left)[0];
        assert SettleOp(op, left) == [o] && [o][1..] == [];
        assert Run([o], t) == Lenient(o, t);
      }
      assert Run(SettleOp(op, left), t) == t' && t'.Keys !! left;
      RunAppend(SettleOp(op, left), Settle(ops[1..], left), t);
      GoneRun(ops[1..], left, t');
    }
  }

  lemma {:induction false} LeavesPart<K, V>(a: seq<Op<K, V>>, b: seq<Op<K, V>>, c: seq<Op<K, V>>, left: set<K>)
    requires Leaves(a + b + c, left)
    ensures Leaves(b, left)
  {
    var x := a + b + c;
    assert forall i | 0 <= i < |b| :: b[i] == x[|a| + i];
    forall i, j | 0 <= j < i < |b| && MovesKey(b[i]) ensures !Frees(b[j], b[i].newKey) {
      assert !Frees(x[|a| + j], x[|a| + i].newKey);
    }
  }

  /** Running again the middle of a valid segment keeps the segment able to heal the target, on any table
      from which the keys that rows were moved away from are gone. */
  lemma {:induction false} Absorb<K, V>(a: seq<Op<K, V>>, b: seq<Op<K, V>>, c: seq<Op<K, V>>, left: set<K>, s: map<K, V>, t: map<K, V>)
    requires ValidRun(a + b + c, s) && Leaves(a + b + c, left) && Run(a + b + c, s).Keys !! left
    requires Run(a + b + c, t) == Run(a + b + c, s) && t.Keys !! left
    ensures Run(a + b + c, Run(b, t)) == Run(a + b + c, s) && Run(b, t).Keys !! left
  {
    var x := a + b + c;
    var x', s' := Settle(x, left), Moved(x, left, s);
    LeavesPart(a, b, c, left);
    SettledRun(x, left, s);
    assert Run(x, s) - left == Run(x, s);
    GoneRun(x, left, t);
    GoneRun(b, left, t);
    GoneRun(x, left, Run(b, t));
    SettleAppend(a + b, c, left);
    SettleAppend(a, b, left);
    SettleKeepsKeys(x, left);
    AbsorbPlain(Settle(a, left), Settle(b, left), Settle(c, left), s', t);
  }

  /** A valid segment run a second time on its own result changes nothing. */
  lemma {:induction false} Idempotent<K, V>(x: seq<Op<K, V>>, left: set<K>, s: map<K, V>)
    requires ValidRun(x, s) && Leaves(x, left) && Run(x, s).Keys !! left
    ensures Run(x, Run(x, s)) == Run(x, s)
  {
    SettledRun(x, left, s);
    SettleKeepsKeys(x, left);
    var x', s' := Settle(x, left), Moved(x, left, s);
    assert Run(x, s) - left == Run(x, s);
    assert [] + x' + [] == x';
    AbsorbPlain([], x', [], s', s');
    GoneRun(x, left, Run(x, s));
  }

  /** A key that a row was moved away from does not come back. */
  lemma {:induction false} LeftStaysGone<K, V>(ops: seq<Op<K, V>>, db: map<K, V>, k: K)
    requires ValidRun(ops, db) && FreshMoves(ops) && k in LeftKeys(ops)
    ensures k !in Run(ops, db)
  {
    hide FreshMoves;
    hide Creates;
    var i :| 0 <= i < |ops| && MovesKey(ops[i]) && ops[i].key == k;
    assert ops[..i] + ops[i..] == ops;
    ValidAppend(ops[..i], ops[i..], db);
    RunAppend(ops[..i], ops[i..], db);
    var db' := Run(ops[..i], db);
    var after := ops[i..][1..];
    forall j | 0 <= j < |after| ensures !Creates(after[j], k) {
      assert after[j] == ops[i + 1 + j];
      NotAgain(ops, i, i + 1 + j);
    }
    NotCreated(after, Lenient(ops[i], db'), k);
  }

  lemma {:induction false} NotAgain<K, V>(ops: seq<Op<K, V>>, i: nat, j: nat)
    requires FreshMoves(ops) && i < j < |ops| && MovesKey(ops[i])
    ensures !Creates(ops[j], ops[i].key)
  {
    assert Frees(ops[i], ops[i].key);
  }

  predicate Creates<K(==), V>(op: Op<K, V>, k: K) { (op.Insert? && op.key == k) || (MovesKey(op) && op.newKey == k) }

  lemma {:induction false} NotCreated<K, V>(ops: seq<Op<K, V>>, db: map<K, V>, k: K)
    requires k !in db && forall j | 0 <= j < |ops| :: !Creates(ops[j], k)
    ensures k !in Run(ops, db)
  {
    if ops != [] {
      assert !Creates(ops[0], k);
      NotCreated(ops[1..], Lenient(ops[0], db), k);
    }
  }

  // ---- Source transactions -----------------------------------------------------------------------

  /** The statements of source transactions `i` up to `j`. */
  function Ops<K, V>(txns: seq<seq<Op<K, V>>>, i: nat, j: nat): seq<Op<K, V>>
    requires i <= j <= |txns|
    decreases j - i
  {
    if i == j then [] else txns[i] + Ops(txns, i + 1, j)
  }

  /** The source after its first `n` transactions. */
  function Source<K, V>(txns: seq<seq<Op<K, V>>>, s0: map<K, V>, n: nat): map<K, V>
    requires n <= |txns|
  {
    Run(Ops(txns, 0, n), s0)
  }

  /** Every statement did on the source what its kind says, and the moves are fresh. */
  ghost predicate ValidHistory<K, V>(txns: seq<seq<Op<K, V>>>, s0: map<K, V>) {
    var ops := Ops(txns, 0, |txns|);
    ValidRun(ops, s0) && FreshMoves(ops)
  }

  lemma {:induction false} OpsSplit<K, V>(txns: seq<seq<Op<K, V>>>, i: nat, m: nat, j: nat)
    requires i <= m <= j <= |txns|
    ensures Ops(txns, i, j) == Ops(txns, i, m) + Ops(txns, m, j)
    decreases m - i
  {
    if i < m {
      OpsSplit(txns, i + 1, m, j);
    }
  }

  lemma {:induction false} HistorySegment<K, V>(txns: seq<seq<Op<K, V>>>, s0: map<K, V>, i: nat, j: nat)
    requires i <= j <= |txns| && ValidHistory(txns, s0)
    ensures ValidRun(Ops(txns, i, j), Source(txns, s0, i))
    ensures Run(Ops(txns, i, j), Source(txns, s0, i)) == Source(txns, s0, j)
  {
    OpsSplit(txns, 0, j, |txns|);
    ValidAppend(Ops(txns, 0, j), Ops(txns, j, |txns|), s0);
    OpsSplit(txns, 0, i, j);
    ValidAppend(Ops(txns, 0, i), Ops(txns, i, j), s0);
    RunAppend(Ops(txns, 0, i), Ops(txns, i, j), s0);
  }

  /** The keys that the first `h` transactions have moved rows away from. */
  ghost function LeftBy<K, V>(txns: seq<seq<Op<K, V>>>, h: nat): set<K>
    requires h <= |txns|
  {
    LeftKeys(Ops(txns, 0, h))
  }

  lemma {:induction false} FreshPart<K, V>(a: seq<Op<K, V>>, b: seq<Op<K, V>>, c: seq<Op<K, V>>)
    requires FreshMoves(a + b + c)
    ensures FreshMoves(a + b) && Leaves(b, LeftKeys(a + b))
  {
    var x, y := a + b + c, a + b;
    assert forall i | 0 <= i < |y| :: y[i] == x[i];
    assert FreshMoves(y);
    assert forall i | 0 <= i < |b| :: b[i] == y[|a| + i];
    assert forall i, j | 0 <= j < i < |y| && MovesKey(y[i]) :: !Frees(y[j], y[i].newKey);
    forall i, j | 0 <= j < i < |b| && MovesKey(b[i]) ensures !Frees(b[j], b[i].newKey) {
      assert !Frees(y[|a| + j], y[|a| + i].newKey);
    }
  }

  lemma {:induction false} HistoryLeaves<K, V>(txns: seq<seq<Op<K, V>>>, s0: map<K, V>, i: nat, j: nat)
    requires i <= j <= |txns| && ValidHistory(txns, s0)
    ensures Leaves(Ops(txns, i, j), LeftBy(txns, j))
    ensures Source(txns, s0, j).Keys !! LeftBy(txns, j)
  {
    OpsSplit(txns, 0, j, |txns|);
    OpsSplit(txns, 0, i, j);
    FreshPart(Ops(txns, 0, i), Ops(txns, i, j), Ops(txns, j, |txns|));
    HistorySegment(txns, s0, 0, j);
    assert Source(txns, s0, 0) == s0;
    forall k | k in LeftBy(txns, j) ensures k !in Source(txns, s0, j) {
      LeftStaysGone(Ops(txns, 0, j), s0, k);
    }
  }

  /** Running source transactions `q` up to `h` on `t` gives the source after `h` transactions, and what
      these have moved away from is gone. */
  ghost predicate Heals<K, V>(txns: seq<seq<Op<K, V>>>, s0: map<K, V>, q: nat, h: nat, t: map<K, V>)
    requires q <= h <= |txns|
  {
    Run(Ops(txns, q, h), t) == Source(txns, s0, h) && t.Keys !! LeftBy(txns, h)
  }

  lemma {:induction false} OpsAround<K, V>(txns: seq<seq<Op<K, V>>>, q: nat, b: nat, h: nat)
    requires q <= b < h <= |txns|
    ensures Ops(txns, q, h) == Ops(txns, q, b) + txns[b] + Ops(txns, b + 1, h)
  {
    OpsSplit(txns, q, b, h);
    Regroup(Ops(txns, q, b), txns[b], Ops(txns, b + 1, h));
  }

  lemma {:induction false} Regroup<T>(a: seq<T>, b: seq<T>, c: seq<T>)
    ensures a + (b + c) == a + b + c
  {
  }

  /** Re-running transaction `b` leaves every segment that contains it able to heal. */
  lemma {:induction false} RerunKeepsHealing<K, V>(txns: seq<seq<Op<K, V>>>, s0: map<K, V>, q: nat, b: nat, h: nat, t: map<K, V>)
    requires q <= b < h <= |txns| && ValidHistory(txns, s0)
    requires Heals(txns, s0, q, h, t)
    ensures Heals(txns, s0, q, h, Run(txns[b], t))
  {
    OpsAround(txns, q, b, h);
    HistorySegment(txns, s0, q, h);
    HistoryLeaves(txns, s0, q, h);
    Absorb(Ops(txns, q, b), txns[b], Ops(txns, b + 1, h), LeftBy(txns, h), Source(txns, s0, q), t);
  }

  /** Having run `b`, only the rest of its segment is still needed. */
  lemma {:induction false} RerunAdvances<K, V>(txns: seq<seq<Op<K, V>>>, s0: map<K, V>, b: nat, h: nat, t: map<K, V>)
    requires b < h <= |txns| && ValidHistory(txns, s0)
    requires Heals(txns, s0, b, h, t)
    ensures Heals(txns, s0, b + 1, h, Run(txns[b], t))
  {
    RunAppend(txns[b], Ops(txns, b + 1, h), t);
    HistoryLeaves(txns, s0, b, h);
    OpsAround(txns, b, b, h);
    LeavesPart([], txns[b], Ops(txns, b + 1, h), LeftBy(txns, h));
    GoneRun(txns[b], LeftBy(txns, h), t);
  }

  /** Every segment that ends at `h` heals the source as it is after `h` transactions. */
  lemma {:induction false} SourceHeals<K, V>(txns: seq<seq<Op<K, V>>>, s0: map<K, V>, q: nat, h: nat)
    requires q <= h <= |txns| && ValidHistory(txns, s0)
    ensures Heals(txns, s0, q, h, Source(txns, s0, h))
  {
    HistorySegment(txns, s0, q, h);
    HistoryLeaves(txns, s0, q, h);
    Idempotent(Ops(txns, q, h), LeftBy(txns, h), Source(txns, s0, q));
  }
}
