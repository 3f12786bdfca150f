/** The client: it reads a message through a cursor and fills the fixed arrays of a decode message. */
module WireReader {
  import opened OptionType
  import opened BigEndian
  import opened CStrings
  import opened Wire

  /** Received bytes and a read position: a StringInfo wrapped around the copy buffer. */
  class Cursor {
    const data: string
    var cursor: nat

    ghost predicate Valid()
      reads this
    {
      cursor <= |data|
    }

    function Rest(): string
      requires Valid()
      reads this
    {
      data[cursor..]
    }

    constructor (data: string)
      ensures Valid() && Rest() == data && this.data == data
    {
      this.data := data;
      this.cursor := 0;
    }

    method PqGetMsgByte() returns (b: int)
      requires Valid()
      modifies this
      ensures Valid()
      ensures old(Rest()) == "" ==> b == -1 && Rest() == ""
      ensures old(Rest()) != "" ==> b == old(Rest())[0] as int && Rest() == old(Rest())[1..]
    {
      if cursor >= |data| {
        return -1;
      }
      b := data[cursor] as int;
      cursor := cursor + 1;
    }

    /** The next `n` bytes, or None and no move when there are not that many. */
    method PqGetMsgBytes(n: int) returns (s: Option<string>)
      requires Valid()
      modifies this
      ensures Valid()
      ensures 0 <= n <= |old(Rest())| ==> s == Some(old(Rest())[..n]) && Rest() == old(Rest())[n..]
      ensures !(0 <= n <= |old(Rest())|) ==> s == None && Rest() == old(Rest())
    {
      if n < 0 || n > |data| - cursor {
        return None;
      }
      s := Some(data[cursor..cursor + n]);
      assert Rest()[..n] == data[cursor..cursor + n] && Rest()[n..] == data[cursor + n..];
      cursor := cursor + n;
    }

    /** An unsigned integer of `b` bytes; on a short message the value is anything and the cursor stays. */
    method PqGetMsgInt(b: int) returns (i: int)
      requires Valid()
      modifies this
      ensures Valid()
      ensures b == 2 && ParseInt2(old(Rest())).Some? ==> Some((i, Rest())) == ParseInt2(old(Rest()))
      ensures b == 4 && ParseInt4(old(Rest())).Some? ==> Some((i, Rest())) == ParseInt4(old(Rest()))
      ensures b == 1 && old(Rest()) != "" ==> i == old(Rest())[0] as int && Rest() == old(Rest())[1..]
    {
      i := *;
      if b == 1 {
        var n8 := PqGetMsgBytes(1);
        if n8.Some? { i := n8.value[0] as int; }
      } else if b == 2 {
        var n16 := PqGetMsgBytes(2);
        if n16.Some? { i := FromBE2(n16.value); }
      } else if b == 4 {
        var n32 := PqGetMsgBytes(4);
        if n32.Some? { i := FromBE4(n32.value); }
      } else {
        i := 0;
      }
    }

    method PqGetMsgInt64() returns (i: int)
      requires Valid()
      modifies this
      ensures Valid()
      ensures ParseInt8(old(Rest())).Some? ==> Some((i, Rest())) == ParseInt8(old(Rest()))
    {
      ghost var before := Rest();
      var h32 := PqGetMsgInt(4);
      var l32 := PqGetMsgInt(4);
      i := Signed64(h32 * 0x1_0000_0000 + l32);
      if 8 <= |before| {
        assert before[..8][..4] == before[..4] && before[..8][4..] == before[4..][..4];
        assert before[4..][4..] == before[8..];
      }
    }

    /** A string of `n` bytes: the pointer into the message, read up to the NUL. */
    method GetString(n: int) returns (s: Option<string>)
      requires Valid()
      modifies this
      ensures Valid()
      ensures ParseStr(old(Rest()), n).Some? ==> s.Some? && Some((s.value, Rest())) == ParseStr(old(Rest()), n)
    {
      var bytes := PqGetMsgBytes(n);
      s := if bytes.Some? then Some(CString(bytes.value)) else None;
    }
  }

  /** A decoded tuple. */
  class TupleData {
    var natt: int
    const isnull: array<bool>
    const changed: array<bool>
    const svalues: array<Option<string>>

    ghost predicate Valid()
      reads this
    {
      && isnull.Length == changed.Length == svalues.Length == MAX_ATTRIBUTES
      && isnull != changed
      && 0 <= natt <= MAX_ATTRIBUTES
    }

    function CellAt(i: nat): Cell
      requires Valid() && i < MAX_ATTRIBUTES
      reads this, isnull, changed, svalues
    {
      if svalues[i].Some? then Text(svalues[i].value) else if isnull[i] && !changed[i] then Toast else Null
    }

    /** An attribute without a value is marked null. */
    ghost predicate Sound()
      requires Valid()
      reads this, isnull, svalues
    {
      forall i | 0 <= i < natt :: svalues[i].None? ==> isnull[i]
    }

    function View(): (r: seq<Cell>)
      requires Valid()
      ensures |r| == natt
      reads this, isnull, changed, svalues
    {
      seq(natt, i requires 0 <= i < natt && Valid() reads this, isnull, changed, svalues => CellAt(i))
    }

    constructor ()
      ensures Valid() && natt == 0
      ensures fresh(isnull) && fresh(changed) && fresh(svalues)
    {
      natt := 0;
      isnull := new bool[MAX_ATTRIBUTES];
      changed := new bool[MAX_ATTRIBUTES];
      svalues := new Option<string>[MAX_ATTRIBUTES](_ => None);
    }
  }

  // ---- Reading in a loop -----------------------------------------------------------------------------------

  /** `got` has been read and `rest` is left, from which `n` more make up `total`. */
  ghost predicate Reading<T>(one: string -> Parsed<T>, total: Parsed<seq<T>>, got: seq<T>, rest: string, n: nat) {
    match ParseMany(one, rest, n)
    case None => false
    case Some((more, left)) => total == Some((got + more, left))
  }

  lemma {:induction false} ReadingStarts<T>(one: string -> Parsed<T>, s: string, n: nat)
    requires ParseMany(one, s, n).Some?
    ensures Reading(one, ParseMany(one, s, n), [], s, n)
  {
    var xs := ParseMany(one, s, n).value.0;
    assert [] + xs == xs;
  }

  lemma {:induction false} ReadingStep<T>(one: string -> Parsed<T>, total: Parsed<seq<T>>, got: seq<T>, rest: string, n: nat)
    requires Reading(one, total, got, rest, n) && n > 0
    ensures one(rest).Some?
    ensures Reading(one, total, got + [one(rest).value.0], one(rest).value.1, n - 1)
  {
    var (x, left) := one(rest).value;
    var more := ParseMany(one, left, n - 1).value.0;
    assert got + ([x] + more) == (got + [x]) + more;
  }

  lemma {:induction false} ReadingEnds<T>(one: string -> Parsed<T>, total: Parsed<seq<T>>, got: seq<T>, rest: string)
    requires Reading(one, total, got, rest, 0)
    ensures total == Some((got, rest))
  {
    assert got + [] == got;
  }

  // ---- Tuples ----------------------------------------------------------------------------------------------

  /** The kind of one attribute, and its value if it has one. */
  method ReadCell(s: Cursor, tup: TupleData, i: nat) returns (ok: bool)
    requires s.Valid() && tup.Valid() && i < MAX_ATTRIBUTES && tup.isnull[i] && tup.changed[i]
    requires ParseCell(s.Rest()).Some?
    modifies s, tup.isnull, tup.changed, tup.svalues
    ensures ok && s.Valid()
    ensures ParseCell(old(s.Rest())) == Some((tup.CellAt(i), s.Rest()))
    ensures tup.svalues[i].None? ==> tup.isnull[i]
    ensures forall k | 0 <= k < MAX_ATTRIBUTES && k != i ::
      tup.isnull[k] == old(tup.isnull[k]) && tup.changed[k] == old(tup.changed[k]) && tup.svalues[k] == old(tup.svalues[k])
  {
    var kind := s.PqGetMsgByte();
    if kind == 'n' as int {
      tup.svalues[i] := None;
    } else if kind == 'u' as int {
      tup.isnull[i] := true;
      tup.changed[i] := false;
      tup.svalues[i] := None;
    } else if kind == 't' as int {
      tup.isnull[i] := false;
      var len := s.PqGetMsgInt(4);
      var value := s.GetString(len);
      tup.svalues[i] := value;
    } else {
      return false;
    }
    return true;
  }

  method ReadCells(s: Cursor, tup: TupleData, ghost total: Parsed<seq<Cell>>) returns (ok: bool)
    requires s.Valid() && tup.Valid() && Reading(ParseCell, total, [], s.Rest(), tup.natt)
    requires forall k | 0 <= k < MAX_ATTRIBUTES :: tup.isnull[k] && tup.changed[k]
    modifies s, tup.isnull, tup.changed, tup.svalues
    ensures ok && s.Valid()
    ensures total == Some((tup.View(), s.Rest())) && tup.Sound()
  {
    ghost var got: seq<Cell> := [];
    for i := 0 to tup.natt
      invariant s.Valid()
      invariant forall k | i <= k < MAX_ATTRIBUTES :: tup.isnull[k] && tup.changed[k]
      invariant |got| == i && forall k | 0 <= k < i :: tup.CellAt(k) == got[k]
      invariant forall k | 0 <= k < i :: tup.svalues[k].None? ==> tup.isnull[k]
      invariant Reading(ParseCell, total, got, s.Rest(), tup.natt - i)
    {
      ReadingStep(ParseCell, total, got, s.Rest(), tup.natt - i);
      ok := ReadCell(s, tup, i);
      got := got + [tup.CellAt(i)];
    }
    ReadingEnds(ParseCell, total, got, s.Rest());
    assert tup.View() == got;
    return true;
  }

  method ReadTupleParts(s: Cursor, tup: TupleData) returns (ok: bool)
    requires s.Valid() && tup.Valid() && ParseTuple(s.Rest()).Some?
    modifies s, tup, tup.isnull, tup.changed, tup.svalues
    ensures ok && s.Valid() && tup.Valid()
    ensures ParseTuple(old(s.Rest())) == Some((tup.View(), s.Rest())) && tup.Sound()
  {
    var action := s.PqGetMsgByte();
    if action != 'T' as int {
      return false;
    }
    forall i | 0 <= i < MAX_ATTRIBUTES {
      tup.isnull[i] := true;
    }
    forall i | 0 <= i < MAX_ATTRIBUTES {
      tup.changed[i] := true;
    }
    var rnatts := s.PqGetMsgInt(4);
    tup.natt := rnatts;
    ReadingStarts(ParseCell, s.Rest(), rnatts);
    ok := ReadCells(s, tup, ParseMany(ParseCell, s.Rest(), rnatts));
  }

  // ---- Messages --------------------------------------------------------------------------------------------

  /** A column whose name was not sent is a dropped one. */
  function ColumnAt(attname: array<Option<string>>, atttype: array<Option<string>>, i: nat): Column
    requires i < attname.Length == atttype.Length
    reads attname, atttype
  {
    if attname[i].Some? then Live(attname[i].value, if atttype[i].Some? then atttype[i].value else "") else Dropped
  }

  method ReadColumn(s: Cursor, attname: array<Option<string>>, atttype: array<Option<string>>, i: nat)
    requires s.Valid() && attname != atttype
    requires i < attname.Length == atttype.Length && attname[i] == None && atttype[i] == None
    requires ParseColumn(s.Rest()).Some?
    modifies s, attname, atttype
    ensures s.Valid()
    ensures ParseColumn(old(s.Rest())) == Some((ColumnAt(attname, atttype, i), s.Rest()))
    ensures forall k | 0 <= k < attname.Length && k != i ::
      attname[k] == old(attname[k]) && atttype[k] == old(atttype[k])
  {
    var len := s.PqGetMsgInt(2);
    if len == 0 {
      return;
    }
    var tmp := s.GetString(len);
    attname[i] := tmp;
    len := s.PqGetMsgInt(2);
    tmp := s.GetString(len);
    atttype[i] := tmp;
  }

  /** One turn of the loop below. */
  method NextColumn(s: Cursor, attname: array<Option<string>>, atttype: array<Option<string>>, i: nat,
                    ghost total: Parsed<seq<Column>>, ghost cols: seq<Column>, ghost n: nat)
    requires s.Valid() && attname != atttype
    requires i < attname.Length == atttype.Length && attname[i] == None && atttype[i] == None
    requires n > 0 && Reading(ParseColumn, total, cols, s.Rest(), n)
    modifies s, attname, atttype
    ensures s.Valid()
    ensures Reading(ParseColumn, total, cols + [ColumnAt(attname, atttype, i)], s.Rest(), n - 1)
    ensures forall k | 0 <= k < attname.Length && k != i ::
      attname[k] == old(attname[k]) && atttype[k] == old(atttype[k])
  {
    ReadingStep(ParseColumn, total, cols, s.Rest(), n);
    ReadColumn(s, attname, atttype, i);
  }

  method ReadColumns(s: Cursor, attname: array<Option<string>>, atttype: array<Option<string>>, natt: nat,
                     ghost total: Parsed<seq<Column>>)
      returns (ghost cols: seq<Column>)
    requires s.Valid() && attname != atttype && natt <= attname.Length == atttype.Length
    requires forall i | 0 <= i < attname.Length :: attname[i] == None && atttype[i] == None
    requires Reading(ParseColumn, total, [], s.Rest(), natt)
    modifies s, attname, atttype
    ensures s.Valid()
    ensures total == Some((cols, s.Rest()))
    ensures |cols| == natt && forall i | 0 <= i < natt :: ColumnAt(attname, atttype, i) == cols[i]
  {
    hide Reading;
    cols := [];
    for i := 0 to natt
      invariant s.Valid()
      invariant forall k | i <= k < attname.Length :: attname[k] == None && atttype[k] == None
      invariant |cols| == i && forall k | 0 <= k < i :: ColumnAt(attname, atttype, k) == cols[k]
      invariant Reading(ParseColumn, total, cols, s.Rest(), natt - i)
    {
      NextColumn(s, attname, atttype, i, total, cols, natt - i);
      cols := cols + [ColumnAt(attname, atttype, i)];
    }
    ReadingEnds(ParseColumn, total, cols, s.Rest());
  }

  method ReadNameList(s: Cursor, names: array<Option<string>>, n: nat) returns (ghost keys: seq<string>)
    requires s.Valid() && n <= names.Length && ParseMany(ParseStr2, s.Rest(), n).Some?
    modifies s, names
    ensures s.Valid()
    ensures ParseMany(ParseStr2, old(s.Rest()), n) == Some((keys, s.Rest()))
    ensures |keys| == n && forall i | 0 <= i < n :: names[i] == Some(keys[i])
  {
    hide ParseMany;
    hide Reading;
    hide ParseStr;
    ghost var total := ParseMany(ParseStr2, s.Rest(), n);
    ReadingStarts(ParseStr2, s.Rest(), n);
    keys := [];
    for i := 0 to n
      invariant s.Valid()
      invariant |keys| == i && forall k | 0 <= k < i :: names[k] == Some(keys[k])
      invariant Reading(ParseStr2, total, keys, s.Rest(), n - i)
    {
      ReadingStep(ParseStr2, total, keys, s.Rest(), n - i);
      var len := s.PqGetMsgInt(2);
      var tmp := s.GetString(len);
      names[i] := tmp;
      keys := keys + [tmp.value];
    }
    ReadingEnds(ParseStr2, total, keys, s.Rest());
  }

  /** The decode message: everything zero before a message is read. */
  class DecodeMessage {
    var typ: char
    var lsn: int
    var tm: int
    var xid: int
    var endLsn: int
    var schemaname: string
    var relname: string
    var natt: int
    const attname: array<Option<string>>
    const atttype: array<Option<string>>
    var kNatt: int
    const kAttname: array<Option<string>>
    var hasKeyOrOld: bool
    const newtuple: TupleData
    const oldtuple: TupleData

    ghost predicate Valid()
      reads this, newtuple, oldtuple
    {
      && newtuple.Valid() && oldtuple.Valid() && newtuple != oldtuple
      && attname.Length == atttype.Length == kAttname.Length == MAX_ATTRIBUTES
      && attname != atttype && attname != kAttname && atttype != kAttname
      && {attname, atttype, kAttname} !! {newtuple.svalues, oldtuple.svalues}
      && {newtuple.isnull, newtuple.changed} !! {oldtuple.isnull, oldtuple.changed}
      && newtuple.svalues != oldtuple.svalues
      && 0 <= natt <= MAX_ATTRIBUTES && 0 <= kNatt <= MAX_ATTRIBUTES
    }

    ghost function Repr(): set<object> {
      {this, attname, atttype, kAttname, newtuple, newtuple.isnull, newtuple.changed, newtuple.svalues,
       oldtuple, oldtuple.isnull, oldtuple.changed, oldtuple.svalues}
    }

    ghost function Columns(): (r: seq<Column>)
      requires 0 <= natt <= attname.Length == atttype.Length
      ensures |r| == natt
      reads this`natt, attname, atttype
    {
      seq(natt, i requires 0 <= i < attname.Length == atttype.Length reads attname, atttype =>
        ColumnAt(attname, atttype, i))
    }

    ghost function Keys(): (r: seq<string>)
      requires 0 <= kNatt <= kAttname.Length
      ensures |r| == kNatt
      reads this`kNatt, kAttname
    {
      seq(kNatt, i requires 0 <= i < kAttname.Length reads kAttname =>
        if kAttname[i].Some? then kAttname[i].value else "")
    }

    /** What the message says. */
    ghost function View(): Decoded
      requires Valid()
      reads this, newtuple, oldtuple, attname, atttype, kAttname
      reads newtuple.isnull, newtuple.changed, newtuple.svalues, oldtuple.isnull, oldtuple.changed, oldtuple.svalues
    {
      if typ == 'B' then BeginD(lsn, tm, xid)
      else if typ == 'C' then CommitD(lsn, endLsn, tm)
      else ChangeD(typ, schemaname, relname, Columns(), Keys(), hasKeyOrOld, oldtuple.View(), newtuple.View())
    }

    /** The state after the message structure has been zeroed. */
    ghost predicate Cleared()
      reads this, newtuple, oldtuple, attname, atttype
    {
      && Valid() && natt == 0 && kNatt == 0 && !hasKeyOrOld && newtuple.natt == 0 && oldtuple.natt == 0
      && forall i | 0 <= i < MAX_ATTRIBUTES :: attname[i] == None && atttype[i] == None
    }

    constructor ()
      ensures Cleared() && fresh(Repr())
    {
      typ, lsn, tm, xid, endLsn, schemaname, relname := '\0', 0, 0, 0, 0, "", "";
      natt, kNatt, hasKeyOrOld := 0, 0, false;
      var names := new Option<string>[MAX_ATTRIBUTES](_ => None);
      var types := new Option<string>[MAX_ATTRIBUTES](_ => None);
      var keys := new Option<string>[MAX_ATTRIBUTES](_ => None);
      var fromNew := new TupleData();
      var fromOld := new TupleData();
      attname, atttype, kAttname, newtuple, oldtuple := names, types, keys, fromNew, fromOld;
    }

    /** The part behind a 'C'. */
    method ProcessReadColumnInfo(s: Cursor) returns (ok: bool)
      requires s.Valid() && Cleared() && ParseColumnInfo(s.Rest()).Some?
      modifies s, this`natt, this`kNatt, attname, atttype, kAttname
      ensures ok && s.Valid() && Valid()
      ensures ParseColumnInfo(old(s.Rest())) == Some(((Columns(), Keys()), s.Rest()))
    {
      natt := s.PqGetMsgInt(2);
      ReadingStarts(ParseColumn, s.Rest(), natt);
      ghost var cols := ReadColumns(s, attname, atttype, natt, ParseMany(ParseColumn, s.Rest(), natt));
      assert Columns() == cols;
      ghost var atKeys := s.Rest();
      ok := ReadKeyInfo(s);
      assert Columns() == cols;
    }

    /** The keys, if any are sent. */
    method ReadKeyInfo(s: Cursor) returns (ok: bool)
      requires s.Valid() && Valid() && kNatt == 0 && ParseKeys(s.Rest()).Some?
      modifies s, this`kNatt, kAttname
      ensures ok && s.Valid() && Valid()
      ensures ParseKeys(old(s.Rest())) == Some((Keys(), s.Rest()))
    {
      var action := s.PqGetMsgByte();
      if action != 'M' as int && action != 'P' as int {
        return false;
      }
      if action == 'P' as int {
        assert Keys() == [];
        return true;
      }
      kNatt := s.PqGetMsgInt(2);
      ghost var keys := ReadNameList(s, kAttname, kNatt);
      assert Keys() == keys;
      return true;
    }

    method ProcessRemoteBegin(s: Cursor) returns (ok: bool)
      requires s.Valid() && Cleared() && ParseBegin(s.Rest()).Some?
      modifies s, this
      ensures ok && s.Valid() && Valid()
      ensures ParseBegin(old(s.Rest())) == Some((View(), s.Rest()))
      ensures newtuple.Sound() && oldtuple.Sound()
    {
      var flags := s.PqGetMsgInt(4);
      var origlsn := s.PqGetMsgInt64();
      var committime := s.PqGetMsgInt64();
      var remoteXid := s.PqGetMsgInt(4);
      typ := 'B';
      lsn := origlsn;
      tm := committime;
      xid := remoteXid;
      return true;
    }

    method ProcessRemoteCommit(s: Cursor) returns (ok: bool)
      requires s.Valid() && Cleared() && ParseCommit(s.Rest()).Some?
      modifies s, this
      ensures ok && s.Valid() && Valid()
      ensures ParseCommit(old(s.Rest())) == Some((View(), s.Rest()))
      ensures newtuple.Sound() && oldtuple.Sound()
    {
      var flags := s.PqGetMsgInt(4);
      if flags != 0 {
        return false;
      }
      var commitLsn := s.PqGetMsgInt64();
      var end := s.PqGetMsgInt64();
      var committime := s.PqGetMsgInt64();
      typ := 'C';
      lsn := commitLsn;
      tm := committime;
      endLsn := end;
      return true;
    }

    /** The names at the head of a change. */
    method ReadNames(s: Cursor)
      requires s.Valid() && Valid() && ParseNames(s.Rest()).Some?
      modifies s, this`schemaname, this`relname
      ensures s.Valid()
      ensures ParseNames(old(s.Rest())) == Some(((schemaname, relname), s.Rest()))
    {
      var nspnamelen := s.PqGetMsgInt(2);
      var schema := s.GetString(nspnamelen);
      var relnamelen := s.PqGetMsgInt(2);
      var rel := s.GetString(relnamelen);
      relname := rel.value;
      schemaname := schema.value;
    }

    /** Column information if it is there, and the byte behind it. */
    method ReadInfo(s: Cursor) returns (action: int, ghost left: string)
      requires s.Valid() && Cleared()
      requires ParseInfo(s.Rest()).Some? && ParseInfo(s.Rest()).value.1 != ""
      modifies s, this`natt, this`kNatt, attname, atttype, kAttname
      ensures s.Valid() && Valid()
      ensures ParseInfo(old(s.Rest())) == Some(((Columns(), Keys()), left))
      ensures left != "" && action == left[0] as int && s.Rest() == left[1..]
    {
      left := ParseInfo(s.Rest()).value.1;
      action := s.PqGetMsgByte();
      if action == 'C' as int {
        var ok := ProcessReadColumnInfo(s);
        action := s.PqGetMsgByte();
      } else {
        assert Columns() == [] && Keys() == [];
      }
    }

    /** Names, column information if it is there, and the byte behind them: the part that the three kinds of
        change share. */
    method ReadHead(s: Cursor) returns (action: int, ghost left: string)
      requires s.Valid() && Cleared()
      requires ParseRel(s.Rest()).Some? && ParseRel(s.Rest()).value.1 != ""
      modifies s, this`schemaname, this`relname, this`natt, this`kNatt, attname, atttype, kAttname
      ensures s.Valid() && Valid()
      ensures ParseRel(old(s.Rest())) == Some(((schemaname, relname, Columns(), Keys()), left))
      ensures left != "" && action == left[0] as int && s.Rest() == left[1..]
      ensures newtuple.View() == [] && oldtuple.View() == [] && newtuple.Sound() && oldtuple.Sound()
    {
      ReadNames(s);
      action, left := ReadInfo(s);
    }

    method ReadNewTuple(s: Cursor) returns (ok: bool)
      requires s.Valid() && Valid() && ParseTuple(s.Rest()).Some?
      modifies s, newtuple, newtuple.isnull, newtuple.changed, newtuple.svalues
      ensures ok && s.Valid() && Valid()
      ensures ParseTuple(old(s.Rest())) == Some((newtuple.View(), s.Rest())) && newtuple.Sound()
      ensures old(oldtuple.Sound()) ==> oldtuple.Sound()
      ensures Columns() == old(Columns()) && Keys() == old(Keys()) && oldtuple.View() == old(oldtuple.View())
    {
      ok := ReadTupleParts(s, newtuple);
    }

    method ReadOldTuple(s: Cursor) returns (ok: bool)
      requires s.Valid() && Valid() && ParseTuple(s.Rest()).Some?
      modifies s, oldtuple, oldtuple.isnull, oldtuple.changed, oldtuple.svalues
      ensures ok && s.Valid() && Valid()
      ensures ParseTuple(old(s.Rest())) == Some((oldtuple.View(), s.Rest())) && oldtuple.Sound()
      ensures old(newtuple.Sound()) ==> newtuple.Sound()
      ensures Columns() == old(Columns()) && Keys() == old(Keys()) && newtuple.View() == old(newtuple.View())
    {
      ok := ReadTupleParts(s, oldtuple);
    }

    /** The tuple of an insertion. */
    method ReadInserted(s: Cursor, ghost start: string, ghost left: string) returns (ok: bool)
      requires s.Valid() && Valid() && !hasKeyOrOld && oldtuple.View() == [] && oldtuple.Sound() && newtuple.Sound()
      requires ParseRel(start) == Some(((schemaname, relname, Columns(), Keys()), left)) && typ == 'I'
      requires IsNew(left) && s.Rest() == left[1..]
      modifies s, newtuple, newtuple.isnull, newtuple.changed, newtuple.svalues
      ensures ok && s.Valid() && Valid()
      ensures ParseInsert(start) == Some((View(), s.Rest()))
      ensures newtuple.Sound() && oldtuple.Sound()
    {
      ghost var rel := (schemaname, relname, Columns(), Keys());
      ok := ReadNewTuple(s);
      NewParses(left, newtuple.View(), s.Rest());
      InsertParses(start, rel, left, newtuple.View(), s.Rest());
    }

    method ProcessRemoteInsert(s: Cursor) returns (ok: bool)
      requires s.Valid() && Cleared() && ParseInsert(s.Rest()).Some?
      modifies s, this, attname, atttype, kAttname
      modifies newtuple, newtuple.isnull, newtuple.changed, newtuple.svalues
      modifies oldtuple, oldtuple.isnull, oldtuple.changed, oldtuple.svalues
      ensures ok && s.Valid() && Valid()
      ensures ParseInsert(old(s.Rest())) == Some((View(), s.Rest()))
      ensures newtuple.Sound() && oldtuple.Sound()
    {
      InsertShape(s.Rest());
      typ := 'I';
      ghost var start := s.Rest();
      var action, left := ReadHead(s);
      if action != 'N' as int {
        return false;
      }
      ok := ReadInserted(s, start, left);
    }

    /** The old tuple, if `action` announces one, and the byte behind it. */
    method ReadOldPart(s: Cursor, action: int, ghost left: string) returns (next: int, ghost after: string)
      requires s.Valid() && Valid() && !hasKeyOrOld && oldtuple.View() == [] && newtuple.Sound()
      requires left != "" && action == left[0] as int && s.Rest() == left[1..]
      requires ParseOld(left).Some? && IsNew(ParseOld(left).value.1)
      modifies s, this`hasKeyOrOld, oldtuple, oldtuple.isnull, oldtuple.changed, oldtuple.svalues
      ensures s.Valid() && Valid()
      ensures Columns() == old(Columns()) && Keys() == old(Keys()) && newtuple.View() == old(newtuple.View())
      ensures !hasKeyOrOld ==> oldtuple.View() == []
      ensures ParseOld(left) == Some((if hasKeyOrOld then Some(oldtuple.View()) else None, after))
      ensures newtuple.Sound() && oldtuple.Sound()
      ensures IsNew(after) && next == 'N' as int && s.Rest() == after[1..]
    {
      after := left;
      next := action;
      if action == 'K' as int {
        hasKeyOrOld := true;
        var ok := ReadOldTuple(s);
        after := s.Rest();
        next := s.PqGetMsgByte();
      }
    }

    /** The tuples of an update. */
    method ReadTuples(s: Cursor, first: int, ghost start: string, ghost left: string) returns (ok: bool)
      requires s.Valid() && Valid() && !hasKeyOrOld && oldtuple.View() == [] && newtuple.Sound()
      requires ParseRel(start) == Some(((schemaname, relname, Columns(), Keys()), left)) && typ == 'U'
      requires left != "" && first == left[0] as int && s.Rest() == left[1..]
      requires ParseOld(left).Some? && IsNew(ParseOld(left).value.1)
      modifies s, this`hasKeyOrOld, newtuple, newtuple.isnull, newtuple.changed, newtuple.svalues
      modifies oldtuple, oldtuple.isnull, oldtuple.changed, oldtuple.svalues
      ensures ok && s.Valid() && Valid()
      ensures ParseUpdate(start) == Some((View(), s.Rest()))
      ensures newtuple.Sound() && oldtuple.Sound()
    {
      ghost var rel := (schemaname, relname, Columns(), Keys());
      var action, after := ReadOldPart(s, first, left);
      if action != 'N' as int {
        return false;
      }
      ghost var was := if hasKeyOrOld then Some(oldtuple.View()) else None;
      ok := ReadNewTuple(s);
      NewParses(after, newtuple.View(), s.Rest());
      UpdateParses(start, rel, left, was, after, newtuple.View(), s.Rest());
    }

    method ProcessRemoteUpdate(s: Cursor) returns (ok: bool)
      requires s.Valid() && Cleared() && ParseUpdate(s.Rest()).Some?
      modifies s, this, attname, atttype, kAttname
      modifies newtuple, newtuple.isnull, newtuple.changed, newtuple.svalues
      modifies oldtuple, oldtuple.isnull, oldtuple.changed, oldtuple.svalues
      ensures ok && s.Valid() && Valid()
      ensures ParseUpdate(old(s.Rest())) == Some((View(), s.Rest()))
      ensures newtuple.Sound() && oldtuple.Sound()
    {
      UpdateShape(s.Rest());
      ghost var start := s.Rest();
      typ := 'U';
      var action, left := ReadHead(s);
      if action != 'K' as int && action != 'N' as int {
        return false;
      }
      ok := ReadTuples(s, action, start, left);
    }

    /** The tuple of a deletion, if there is one. */
    method ReadDeleted(s: Cursor, action: int, ghost start: string, ghost left: string) returns (ok: bool)
      requires s.Valid() && Valid() && !hasKeyOrOld && oldtuple.View() == [] && newtuple.Sound()
      requires ParseRel(start) == Some(((schemaname, relname, Columns(), Keys()), left)) && typ == 'D' && newtuple.View() == []
      requires left != "" && action == left[0] as int && s.Rest() == left[1..]
      requires left[0] == 'E' || (left[0] == 'K' && ParseTuple(left[1..]).Some?)
      modifies s, this`hasKeyOrOld, oldtuple, oldtuple.isnull, oldtuple.changed, oldtuple.svalues
      ensures ok && s.Valid() && Valid()
      ensures ParseDelete(start) == Some((View(), s.Rest()))
      ensures newtuple.Sound() && oldtuple.Sound()
    {
      ghost var rel := (schemaname, relname, Columns(), Keys());
      if action == 'E' as int {
        DeleteParses(start, rel, left, None, left);
        return true;
      }
      hasKeyOrOld := true;
      ok := ReadOldTuple(s);
      DeleteParses(start, rel, left, Some(oldtuple.View()), s.Rest());
    }

    method ProcessRemoteDelete(s: Cursor) returns (ok: bool)
      requires s.Valid() && Cleared() && ParseDelete(s.Rest()).Some?
      modifies s, this, attname, atttype, kAttname
      modifies newtuple, newtuple.isnull, newtuple.changed, newtuple.svalues
      modifies oldtuple, oldtuple.isnull, oldtuple.changed, oldtuple.svalues
      ensures ok && s.Valid() && Valid()
      ensures ParseDelete(old(s.Rest())) == Some((View(), s.Rest()))
      ensures newtuple.Sound() && oldtuple.Sound()
    {
      DeleteShape(s.Rest());
      ghost var start := s.Rest();
      typ := 'D';
      var action, left := ReadHead(s);
      if action != 'K' as int && action != 'E' as int {
        return false;
      }
      ok := ReadDeleted(s, action, start, left);
    }

    /** The whole message, by its first byte.  The results of the readers above are not looked at. */
    method BdrProcessRemoteAction(s: Cursor) returns (ok: bool)
      requires s.Valid() && Cleared() && Parse(s.Rest()).Some?
      modifies s, this, attname, atttype, kAttname
      modifies newtuple, newtuple.isnull, newtuple.changed, newtuple.svalues
      modifies oldtuple, oldtuple.isnull, oldtuple.changed, oldtuple.svalues
      ensures ok && s.Valid() && Valid()
      ensures Parse(old(s.Rest())) == Some((View(), s.Rest()))
      ensures newtuple.Sound() && oldtuple.Sound()
    {
      var action := s.PqGetMsgByte();
      var rc := false;
      if action == 'B' as int {
        rc := ProcessRemoteBegin(s);
      } else if action == 'C' as int {
        rc := ProcessRemoteCommit(s);
      } else if action == 'I' as int {
        rc := ProcessRemoteInsert(s);
      } else if action == 'U' as int {
        rc := ProcessRemoteUpdate(s);
      } else if action == 'D' as int {
        rc := ProcessRemoteDelete(s);
      } else {
        return false;
      }
      return true;
    }
  }
}
