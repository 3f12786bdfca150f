/** Statements that change keys, and how far a log that holds them can be replayed. */
module KeyChanges {
  import opened Replay

  /** Running any last part of `x` again on the result of `x` changes nothing. */
  ghost predicate WindowsSettle<K, V>(x: seq<Op<K, V>>, s: map<K, V>) {
    forall i | 0 <= i <= |x| :: Run(x[i..], Run(x, s)) == Run(x, s)
  }

  lemma {:induction false} FreshSettles<K, V>(x: seq<Op<K, V>>, s: map<K, V>)
    requires ValidRun(x, s) && FreshMoves(x)
    ensures WindowsSettle(x, s)
  {
    var left := LeftKeys(x);
    forall k | k in left ensures k !in Run(x, s) {
      LeftStaysGone(x, s, k);
    }
    forall i | 0 <= i <= |x| ensures Run(x[i..], Run(x, s)) == Run(x, s) {
      assert x[..i] + x[i..] == x && x + [] == x;
      FreshPart(x[..i], x[i..], []);
      ValidAppend(x[..i], x[i..], s);
      RunAppend(x[..i], x[i..], s);
      Idempotent(x[i..], left, Run(x[..i], s));
    }
  }

  /** Nothing but a DELETE frees a slot. */
  lemma {:induction false} TakenWithoutDel<V>(os: seq<KeyOp<V>>, t: Slot<V>)
    requires t.Taken? && !HasDel(os)
    ensures KeyRun(os, t).Taken?
  {
    if os != [] {
      assert !os[0].Del?;
      assert forall i | 0 <= i < |os| - 1 :: os[1..][i] == os[i + 1];
      TakenWithoutDel(os[1..], KeyStep(os[0], t));
    }
  }

  predicate HasIns<V>(os: seq<KeyOp<V>>) {
    exists i | 0 <= i < |os| :: os[i].Ins?
  }

  lemma {:induction false} FreeWithoutIns<V>(os: seq<KeyOp<V>>)
    requires !HasIns(os)
    ensures KeyRun(os, Free) == Free
  {
    if os != [] {
      assert !os[0].Ins?;
      assert forall i | 0 <= i < |os| - 1 :: os[1..][i] == os[i + 1];
      FreeWithoutIns(os[1..]);
    }
  }

  /** Without an INSERT a taken slot that is taken in the end was taken all along, and stays so from any row. */
  lemma {:induction false} KeptWithoutIns<V>(os: seq<KeyOp<V>>, s: Slot<V>, t: Slot<V>)
    requires !HasIns(os) && KeyRun(os, s).Taken? && t.Taken?
    ensures KeyRun(os, t).Taken?
  {
    if os != [] {
      assert !os[0].Ins?;
      assert forall i | 0 <= i < |os| - 1 :: os[1..][i] == os[i + 1];
      if os[0].Del? {
        FreeWithoutIns(os[1..]);
      } else {
        KeptWithoutIns(os[1..], KeyStep(os[0], s), KeyStep(os[0], t));
      }
    }
  }

  /** Valid statements without a DELETE that find a slot free and leave it free are none. */
  lemma {:induction false} FreeToFree<V>(os: seq<KeyOp<V>>)
    requires KeyValid(os, Free) && !HasDel(os) && KeyRun(os, Free) == Free
    ensures os == []
  {
    if os != [] {
      assert forall i | 0 <= i < |os| - 1 :: os[1..][i] == os[i + 1];
      TakenWithoutDel(os[1..], KeyStep(os[0], Free));
    }
  }

  lemma {:induction false} OnKeyHas<K, V>(ops: seq<Op<K, V>>, k: K)
    ensures HasIns(OnKey(ops, k)) ==> exists j | 0 <= j < |ops| :: ops[j].Insert? && ops[j].key == k
    ensures HasDel(OnKey(ops, k)) ==> exists j | 0 <= j < |ops| :: ops[j].Delete? && ops[j].key == k
  {
    if ops != [] {
      var rest := OnKey(ops[1..], k);
      OnKeyHas(ops[1..], k);
      assert forall j | 0 <= j < |ops| - 1 :: ops[1..][j] == ops[j + 1];
      if |OnKey(ops, k)| == |rest| + 1 {
        var o := OnKey(ops, k)[0];
        assert OnKey(ops, k) == [o] + rest;
        assert HasIns([o] + rest) ==> o.Ins? || HasIns(rest);
        assert HasDel([o] + rest) ==> o.Del? || HasDel(rest);
      }
    }
  }

  lemma {:induction false} RunSnoc<K, V>(ops: seq<Op<K, V>>, op: Op<K, V>, db: map<K, V>)
    ensures Run(ops + [op], db) == Lenient(op, Run(ops, db))
    ensures ValidRun(ops + [op], db) <==> ValidRun(ops, db) && Applicable(op, Run(ops, db))
  {
    RunAppend(ops, [op], db);
    ValidAppend(ops, [op], db);
    assert [op][1..] == [];
  }

  /** The last INSERT of the key that a row is moved away from: replayed from there, the moved row is there
      twice. */
  lemma {:induction false} InsertedComesBack<K, V>(k: K, w: V, rest: seq<Op<K, V>>, k': K, v: V, s: map<K, V>)
    requires KeyPreserving(rest) && k != k'
    requires forall j | 0 <= j < |rest| :: !(rest[j].Insert? && rest[j].key == k) && !(rest[j].Delete? && rest[j].key == k')
    requires ValidRun([Insert(k, w)] + rest + [Rekey(k, k', v)], s)
    ensures var x := [Insert(k, w)] + rest + [Rekey(k, k', v)]; k in Run(x, Run(x, s)) && k !in Run(x, s)
  {
    var a: seq<Op<K, V>> := [Insert(k, w)];
    var f := Run(a + rest + [Rekey(k, k', v)], s);
    RunSnoc(a + rest, Rekey(k, k', v), s);
    RunSnoc(a + rest, Rekey(k, k', v), f);
    RunAppend(a, rest, s);
    RunAppend(a, rest, f);
    assert a[1..] == [];
    var s1, f1 := Lenient(a[0], s), Lenient(a[0], f);
    RunOnKey(rest, s1, k);
    RunOnKey(rest, f1, k);
    RunOnKey(rest, f1, k');
    OnKeyHas(rest, k);
    OnKeyHas(rest, k');
    KeptWithoutIns(OnKey(rest, k), At(s1, k), At(f1, k));
    TakenWithoutDel(OnKey(rest, k'), At(f1, k'));
  }

  /** The last DELETE of the key that a row is moved to: replayed from there, the moved row is lost. */
  lemma {:induction false} DeletedIsLost<K, V>(k: K, rest: seq<Op<K, V>>, k': K, v: V, s: map<K, V>)
    requires KeyPreserving(rest) && k != k'
    requires forall j | 0 <= j < |rest| :: !(rest[j].Insert? && rest[j].key == k) && !(rest[j].Delete? && rest[j].key == k')
    requires ValidRun([Delete(k')] + rest + [Rekey(k, k', v)], s)
    ensures var x := [Delete(k')] + rest + [Rekey(k, k', v)]; k' !in Run(x, Run(x, s)) && k' in Run(x, s)
  {
    var a: seq<Op<K, V>> := [Delete(k')];
    var f := Run(a + rest + [Rekey(k, k', v)], s);
    RunSnoc(a + rest, Rekey(k, k', v), s);
    RunSnoc(a + rest, Rekey(k, k', v), f);
    RunAppend(a, rest, s);
    RunAppend(a, rest, f);
    ValidAppend(a, rest, s);
    assert a[1..] == [];
    var s1, f1 := Lenient(a[0], s), Lenient(a[0], f);
    RunOnKey(rest, s1, k');
    RunOnKey(rest, f1, k');
    RunOnKey(rest, f1, k);
    OnKeyHas(rest, k);
    OnKeyHas(rest, k');
    FreeToFree(OnKey(rest, k'));
    FreeWithoutIns(OnKey(rest, k));
  }

  predicate Spoils<K(==), V>(op: Op<K, V>, k: K, k': K) {
    (op.Insert? && op.key == k) || (op.Delete? && op.key == k')
  }

  lemma {:induction false} LastSpoiler<K, V>(ops: seq<Op<K, V>>, k: K, k': K, j: nat) returns (i: nat)
    requires j < |ops| && Spoils(ops[j], k, k')
    ensures i < |ops| && Spoils(ops[i], k, k') && forall m | i < m < |ops| :: !Spoils(ops[m], k, k')
    decreases |ops| - j
  {
    i := j;
    if m :| j < m < |ops| && Spoils(ops[m], k, k') {
      i := LastSpoiler(ops, k, k', m);
    }
  }

  lemma {:induction false} SpoiledWindow<K, V>(ops: seq<Op<K, V>>, k: K, k': K, v: V, s: map<K, V>, j: nat)
    requires KeyPreserving(ops) && k != k' && ValidRun(ops + [Rekey(k, k', v)], s)
    requires j < |ops| && Spoils(ops[j], k, k')
    ensures !WindowsSettle(ops + [Rekey(k, k', v)], s)
  {
    var x := ops + [Rekey(k, k', v)];
    var i := LastSpoiler(ops, k, k', j);
    var rest := ops[i + 1..];
    assert x[..i] + x[i..] == x && x[i..] == [ops[i]] + rest + [Rekey(k, k', v)];
    ValidAppend(x[..i], x[i..], s);
    RunAppend(x[..i], x[i..], s);
    assert forall m | 0 <= m < |rest| :: rest[m] == ops[i + 1 + m];
    var s1 := Run(x[..i], s);
    if ops[i].Insert? {
      InsertedComesBack(k, ops[i].row, rest, k', v, s1);
    } else {
      DeletedIsLost(k, rest, k', v, s1);
    }
    assert Run(x[i..], Run(x, s)) != Run(x, s);
  }

  /** Exactly when a log can be replayed up to its first change of a key: no replay of a last part of it
      changes the result if and only if the old key was not inserted and the new key not deleted in it. */
  lemma {:induction false} FirstMoveExact<K, V>(ops: seq<Op<K, V>>, k: K, k': K, v: V, s: map<K, V>)
    requires KeyPreserving(ops) && k != k' && ValidRun(ops + [Rekey(k, k', v)], s)
    ensures WindowsSettle(ops + [Rekey(k, k', v)], s) <==> forall j | 0 <= j < |ops| :: !Spoils(ops[j], k, k')
    ensures FreshMoves(ops + [Rekey(k, k', v)]) <==> forall j | 0 <= j < |ops| :: !Spoils(ops[j], k, k')
  {
    var x := ops + [Rekey(k, k', v)];
    assert x[|ops|] == Rekey(k, k', v) && forall j | 0 <= j < |ops| :: x[j] == ops[j];
    if forall j | 0 <= j < |ops| :: !Spoils(ops[j], k, k') {
      forall i, j | 0 <= i < |x| && 0 <= j < |x| && MovesKey(x[i]) && x[j].Insert? ensures x[j].key != x[i].key {
        assert i == |ops| && !Spoils(ops[j], k, k');
      }
      forall i, j | 0 <= j < i < |x| && MovesKey(x[i]) ensures !Frees(x[j], x[i].newKey) {
        assert i == |ops| && !Spoils(ops[j], k, k');
      }
      FreshSettles(x, s);
    } else {
      var j :| 0 <= j < |ops| && Spoils(ops[j], k, k');
      SpoiledWindow(ops, k, k', v, s, j);
      assert x[j] == ops[j] && MovesKey(x[|ops|]);
      if ops[j].Delete? { assert Frees(x[j], x[|ops|].newKey); }
    }
  }

  // ---- Behind the first change ---------------------------------------------------------------------------------

  /** A row moved away from key 1, and another put there: by an INSERT, with or without an UPDATE before the move. */
  const REFILLED: seq<Op<int, char>> := [Rekey(1, 2, 'a'), Insert(1, 'c')]
  const TOUCHED: seq<Op<int, char>> := [Update(1, 'b'), Rekey(1, 2, 'a'), Insert(1, 'c')]

  lemma {:induction false} Steps(a: Op<int, char>, rest: seq<Op<int, char>>, db: map<int, char>)
    ensures Run([a] + rest, db) == Run(rest, Lenient(a, db))
    ensures ValidRun([a] + rest, db) <==> Applicable(a, db) && ValidRun(rest, Lenient(a, db))
  {
    assert ([a] + rest)[1..] == rest;
  }

  /** An INSERT of the old key behind the change does harm or none, as it happens: with an UPDATE before the change a
      replay leaves that UPDATE's row, without it nothing differs. */
  lemma {:induction false} RefilledKey()
    ensures ValidRun(REFILLED, map[1 := 'a']) && !FreshMoves(REFILLED) && WindowsSettle(REFILLED, map[1 := 'a'])
    ensures ValidRun(TOUCHED, map[1 := 'a']) && !FreshMoves(TOUCHED) && !WindowsSettle(TOUCHED, map[1 := 'a'])
  {
    var u, m, i := TOUCHED[0], TOUCHED[1], TOUCHED[2];
    var none: seq<Op<int, char>> := [];
    var d: map<int, char>, f: map<int, char>, z: map<int, char> := map[1 := 'a'], map[2 := 'a', 1 := 'c'], map[2 := 'a', 1 := 'b'];
    assert REFILLED == [m] + ([i] + none) && TOUCHED == [u] + ([m] + ([i] + none));
    forall db: map<int, char> ensures Run(none, db) == db && ValidRun(none, db) {}
    Steps(u, [m] + ([i] + none), d);
    Steps(m, [i] + none, d);
    Steps(m, [i] + none, map[1 := 'b']);
    Steps(i, none, map[2 := 'a']);
    Steps(u, [m] + ([i] + none), f);
    Steps(m, [i] + none, f);
    Steps(m, [i] + none, z);
    Steps(i, none, f);
    Steps(i, none, z);
    assert Run(REFILLED, d) == f && Run(TOUCHED, d) == f && Run(TOUCHED[0..], f) == z by { assert TOUCHED[0..] == TOUCHED; }
    assert MovesKey(REFILLED[0]) && REFILLED[1].Insert? && MovesKey(TOUCHED[1]) && TOUCHED[2].Insert?;
    forall k | 0 <= k <= |REFILLED| ensures Run(REFILLED[k..], f) == f {
      assert REFILLED[0..] == REFILLED && REFILLED[1..] == [i] + none && REFILLED[2..] == none;
    }
  }
}
