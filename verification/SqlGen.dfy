/** From a decoded change to the text of a statement. */
module SqlGen {
  import opened OptionType
  import opened StringInfos
  import opened Literals
  import opened SqlText
  import opened Wire
  import opened WireReader

  // ---- Which columns go where --------------------------------------------------------------------------------

  /** column = value, as it goes into SET or WHERE. */
  function ItemOf(c: Column, v: Cell): Item
    requires c.Live?
  {
    Item(c.name, LitOf(c, v))
  }

  function LitOf(c: Column, v: Cell): Lit
    requires c.Live?
  {
    if v.Text? then Typed(c.typ, v.value) else NullLit
  }

  /** With keys the live key columns, without keys every live column. */
  predicate Identifies(c: Column, keys: seq<string>) { c.Live? && (keys == [] || c.name in keys) }

  predicate Settable(c: Column, keys: seq<string>) { c.Live? && c.name !in keys }

  function Identifying(cols: seq<Column>, keys: seq<string>): (r: seq<bool>)
    ensures |r| == |cols| && forall i | 0 <= i < |cols| :: r[i] == Identifies(cols[i], keys)
  {
    seq(|cols|, i requires 0 <= i < |cols| => Identifies(cols[i], keys))
  }

  function OutsideKey(cols: seq<Column>, keys: seq<string>): (r: seq<bool>)
    ensures |r| == |cols| && forall i | 0 <= i < |cols| :: r[i] == Settable(cols[i], keys)
  {
    seq(|cols|, i requires 0 <= i < |cols| => Settable(cols[i], keys))
  }

  /** The diff of full-row mode: an unchanged-toast value counts as unchanged, and so does everything where
      the old value is one, unless it became null. */
  predicate Differs(was: Cell, now: Cell) {
    match now
    case Null => !was.Null?
    case Toast => false
    case Text(v) => was.Null? || (was.Text? && was.value != v)
  }

  function Diff(cols: seq<Column>, was: seq<Cell>, now: seq<Cell>): (r: seq<bool>)
    requires |cols| == |was| == |now|
    ensures |r| == |cols| && forall i | 0 <= i < |cols| :: r[i] == (cols[i].Live? && Differs(was[i], now[i]))
  {
    seq(|cols|, i requires 0 <= i < |cols| => cols[i].Live? && Differs(was[i], now[i]))
  }

  predicate OnLive(cols: seq<Column>, pick: seq<bool>) {
    |pick| == |cols| && forall i | 0 <= i < |cols| :: pick[i] ==> cols[i].Live?
  }

  /** The items of the picked columns among the first `n`. */
  function Items(cols: seq<Column>, row: seq<Cell>, pick: seq<bool>, n: nat): seq<Item>
    requires |row| == |cols| && OnLive(cols, pick) && n <= |cols|
  {
    if n == 0 then []
    else Items(cols, row, pick, n - 1) + if pick[n - 1] then [ItemOf(cols[n - 1], row[n - 1])] else []
  }

  function LiveNames(cols: seq<Column>, n: nat): seq<string>
    requires n <= |cols|
  {
    if n == 0 then []
    else LiveNames(cols, n - 1) + if cols[n - 1].Live? then [cols[n - 1].name] else []
  }

  function LiveLits(cols: seq<Column>, row: seq<Cell>, n: nat): seq<Lit>
    requires |row| == |cols| && n <= |cols|
  {
    if n == 0 then []
    else LiveLits(cols, row, n - 1) + if cols[n - 1].Live? then [LitOf(cols[n - 1], row[n - 1])] else []
  }

  // ---- The statement of a change -----------------------------------------------------------------------------

  /** `Refused` is an error return, `Nothing` an empty buffer without one. */
  datatype Output = Refused | Nothing | Statement(stmt: Stmt)

  function WheresOf(cols: seq<Column>, keys: seq<string>, row: seq<Cell>): seq<Item>
    requires |row| == |cols|
  {
    Items(cols, row, Identifying(cols, keys), |cols|)
  }

  function SetsOf(cols: seq<Column>, keys: seq<string>, row: seq<Cell>): seq<Item>
    requires |row| == |cols|
  {
    Items(cols, row, OutsideKey(cols, keys), |cols|)
  }

  function ChangesOf(cols: seq<Column>, was: seq<Cell>, now: seq<Cell>): seq<Item>
    requires |cols| == |was| == |now|
  {
    Items(cols, now, Diff(cols, was, now), |cols|)
  }

  /** An old tuple that is printed has as many attributes as there are columns. */
  predicate Matching(d: Decoded) {
    d.ChangeD? && (d.oldRow == [] || |d.oldRow| == |d.cols| || (d.kind == 'U' && d.keys == []))
  }

  function InsertOf(d: Decoded): Stmt
    requires d.ChangeD? && |d.newRow| == |d.cols| && d.newRow != []
  {
    var names := LiveNames(d.cols, |d.cols|);
    InsertS(d.schema, d.name, names, names != [] && !d.cols[|d.cols| - 1].Live?, LiveLits(d.cols, d.newRow, |d.cols|))
  }

  function DeleteOf(d: Decoded): Stmt
    requires d.ChangeD? && |d.oldRow| == |d.cols|
  {
    DeleteS(d.schema, d.name, WheresOf(d.cols, d.keys, d.oldRow))
  }

  /** Without keys the row is found by all of its old values and only what changed is set; with keys it is
      found by the old key, or by the new tuple's when no old one was sent. */
  function UpdateOf(d: Decoded): Output
    requires Matching(d) && d.kind == 'U' && |d.newRow| == |d.cols|
  {
    if d.keys == [] then
      if !d.hasOld || d.oldRow == [] || |d.oldRow| != |d.cols| then Nothing
      else Statement(UpdateS(d.schema, d.name, ChangesOf(d.cols, d.oldRow, d.newRow), WheresOf(d.cols, [], d.oldRow)))
    else if d.oldRow == [] then
      Statement(UpdateS(d.schema, d.name, SetsOf(d.cols, d.keys, d.newRow), WheresOf(d.cols, d.keys, d.newRow)))
    else
      Statement(UpdateS(d.schema, d.name, SetsOf(d.cols, [], d.newRow), WheresOf(d.cols, d.keys, d.oldRow)))
  }

  function OutputOf(d: Decoded): Output
    requires Matching(d) && (d.kind == 'I' || d.kind == 'U' || d.kind == 'D')
  {
    if d.kind == 'D' then
      if !d.hasOld || d.oldRow == [] then Refused else Statement(DeleteOf(d))
    else if d.newRow == [] || |d.newRow| != |d.cols| then Refused
    else if d.kind == 'I' then Statement(InsertOf(d))
    else UpdateOf(d)
  }

  function OutputText(o: Output): string { if o.Statement? then Render(o.stmt) else "" }

  // ---- Text in pieces ----------------------------------------------------------------------------------------

  lemma {:induction false} JoinedSnoc(pieces: seq<string>, x: string, sep: string)
    ensures Joined(pieces + [x], sep) == (if pieces == [] then "" else Joined(pieces, sep) + sep) + x
  {
    if pieces == [] {
      assert pieces + [x] == [x];
    } else {
      JoinedSnoc(pieces[1..], x, sep);
      assert (pieces + [x])[1..] == pieces[1..] + [x];
      if |pieces| > 1 {
        var tail := Joined(pieces[1..], sep);
        assert pieces[0] + sep + (tail + sep + x) == (pieces[0] + sep + tail) + sep + x;
      }
    }
  }

  function ListText(items: seq<Item>, sep: string): string { Joined(ItemTexts(items), sep) }

  lemma {:induction false} ListTextSnoc(items: seq<Item>, x: Item, sep: string)
    ensures ListText(items + [x], sep) == (if items == [] then "" else ListText(items, sep) + sep) + ItemText(x)
  {
    assert ItemTexts(items + [x]) == ItemTexts(items) + [ItemText(x)];
    JoinedSnoc(ItemTexts(items), ItemText(x), sep);
  }

  lemma {:induction false} LitListSnoc(lits: seq<Lit>, x: Lit)
    ensures Joined(LitTexts(lits + [x]), ", ") == (if lits == [] then "" else Joined(LitTexts(lits), ", ") + ", ") + LitText(x)
  {
    assert LitTexts(lits + [x]) == LitTexts(lits) + [LitText(x)];
    JoinedSnoc(LitTexts(lits), LitText(x), ", ");
  }

  // ---- Appending ---------------------------------------------------------------------------------------------

  class PQExpBuffer {
    var data: string

    constructor ()
      ensures data == ""
    {
      data := "";
    }

    method Append(s: string)
      modifies this
      ensures data == old(data) + s
    {
      data := data + s;
    }
  }

  /** The literal fits the scratch buffer that it is quoted in. */
  predicate Quotable(v: Cell) { v.Text? ==> 2 * |v.value| + 3 < MAX_ALLOC }

  /** A value, in the way its type needs it. */
  method QuoteLiteralLocal(scratch: StringInfo, rawstr: string, typ: string, buffer: PQExpBuffer)
    requires scratch.Valid() && 2 * |rawstr| + 3 < MAX_ALLOC
    modifies scratch, scratch.data, buffer
    ensures scratch.Valid() && (scratch.data == old(scratch.data) || fresh(scratch.data))
    ensures buffer.data == old(buffer.data) + Print(typ, rawstr)
  {
    ghost var before := buffer.data;
    var needProcess := true;
    if typ == "smallint" {
      needProcess := false;
    } else if typ == "integer" {
      needProcess := false;
    } else if typ == "bigint" {
      needProcess := false;
    } else if typ == "oid" {
      needProcess := false;
    } else if typ == "real" {
      needProcess := false;
    } else if typ == "double precision" {
      needProcess := false;
    } else if typ == "numeric" {
      needProcess := false;
    }
    if !needProcess {
      buffer.Append(rawstr);
      return;
    }
    if typ == "timestamp without time zone" {
      needProcess := false;
    } else if typ == "timestamp with time zone" {
      needProcess := false;
    } else if typ == "time without time zone" {
      needProcess := false;
    } else if typ == "time with time zone" {
      needProcess := false;
    } else if typ == "money" {
      needProcess := false;
    } else if typ == "date" {
      needProcess := false;
    } else if typ == "interval" {
      needProcess := false;
    }
    if !needProcess {
      buffer.Append("'");
      buffer.Append(rawstr);
      buffer.Append("'");
      assert before + "'" + rawstr + "'" == before + (['\''] + rawstr + ['\'']);
      return;
    }
    scratch.Reset();
    scratch.AppendSpaces(|rawstr| * 2 + 3);
    var newlen := QuoteLiteralInternal(scratch.data, rawstr);
    scratch.data[newlen] := '\0';
    buffer.Append(scratch.data[..newlen]);
  }

  // ---- One column --------------------------------------------------------------------------------------------

  /** `tuple` is one of the message's two tuples and has as many attributes as there are columns. */
  ghost predicate Ready(msg: DecodeMessage, tuple: TupleData)
    reads msg, msg.newtuple, msg.oldtuple, tuple, tuple.isnull, tuple.svalues
  {
    msg.Valid() && tuple.Valid() && tuple.Sound() && tuple.natt == msg.natt
  }

  /** The type that came with a column. */
  function TypeAt(msg: DecodeMessage, i: nat): string
    requires i < msg.atttype.Length
    reads msg.atttype
  {
    if msg.atttype[i].Some? then msg.atttype[i].value else ""
  }

  method IsKeyColumn(msg: DecodeMessage, colname: Option<string>) returns (isKey: bool)
    requires msg.Valid()
    ensures isKey == (colname.Some? && colname.value in msg.Keys())
  {
    if colname == None {
      return false;
    }
    isKey := false;
    for j := 0 to msg.kNatt
      invariant !isKey && colname.value !in msg.Keys()[..j]
    {
      assert msg.Keys()[..j + 1] == msg.Keys()[..j] + [msg.Keys()[j]];
      if colname.value == if msg.kAttname[j].Some? then msg.kAttname[j].value else "" {
        assert msg.Keys()[j] in msg.Keys();
        isKey := true;
        break;
      }
    }
    assert !isKey ==> msg.Keys()[..msg.kNatt] == msg.Keys();
  }

  /** column = value; true for a null.  An unchanged-toast value has no text that could be printed. */
  method AppendValues(msg: DecodeMessage, scratch: StringInfo, buffer: PQExpBuffer, tuple: TupleData, i: nat)
      returns (isnull: bool)
    requires Ready(msg, tuple) && scratch.Valid() && i < msg.natt
    requires msg.Columns()[i].Live? && !tuple.View()[i].Toast? && Quotable(tuple.View()[i])
    modifies scratch, scratch.data, buffer
    ensures scratch.Valid() && (scratch.data == old(scratch.data) || fresh(scratch.data))
    ensures buffer.data == old(buffer.data) + ItemText(ItemOf(msg.Columns()[i], tuple.View()[i]))
    ensures isnull == tuple.View()[i].Null?
  {
    ghost var before, c, v := buffer.data, msg.Columns()[i], tuple.View()[i];
    assert msg.attname[i] == Some(c.name) && TypeAt(msg, i) == c.typ;
    hide Print;
    isnull := false;
    if tuple.isnull[i] && tuple.changed[i] && tuple.svalues[i] == None {
      assert v == Null;
      buffer.Append(msg.attname[i].value);
      buffer.Append("=");
      buffer.Append("null");
      isnull := true;
    } else {
      assert v == Text(tuple.svalues[i].value);
      buffer.Append(msg.attname[i].value);
      buffer.Append("=");
      QuoteLiteralLocal(scratch, tuple.svalues[i].value, TypeAt(msg, i), buffer);
    }
    ItemJoins(before, c.name, LitText(LitOf(c, v)));
  }

  lemma {:induction false} ItemJoins(before: string, col: string, lit: string)
    ensures before + col + "=" + lit == before + (col + "=" + lit)
  {
  }

  /** No value that is to be printed is an unchanged-toast value, and all fit the scratch buffer. */
  predicate Clean(row: seq<Cell>, pick: seq<bool>) {
    |pick| == |row| && forall i | 0 <= i < |row| :: pick[i] ==> !row[i].Toast? && Quotable(row[i])
  }

  lemma {:induction false} NoItemsYet(start: string, sep: string)
    ensures start + ListText([], sep) == start
  {
  }

  /** What the loops over columns keep: `buffer` holds `start` and the items of the first `n` columns. */
  ghost predicate Listing(msg: DecodeMessage, scratch: StringInfo, buffer: PQExpBuffer, tuple: TupleData, n: nat,
                          first: bool, sep: string, start: string, pick: seq<bool>)
    reads msg, msg.newtuple, msg.oldtuple, msg.attname, msg.atttype
    reads tuple, tuple.isnull, tuple.changed, tuple.svalues, scratch, scratch.data, buffer
  {
    && Ready(msg, tuple) && scratch.Valid() && n <= msg.natt
    && OnLive(msg.Columns(), pick) && Clean(tuple.View(), pick)
    && var done := Items(msg.Columns(), tuple.View(), pick, n);
    (first <==> done == []) && buffer.data == start + ListText(done, sep)
  }

  /** The part that the loops over columns share: a separator in front of all but the first, and the item. */
  method AppendItem(msg: DecodeMessage, scratch: StringInfo, buffer: PQExpBuffer, tuple: TupleData, i: nat,
                    first: bool, sep: string, ghost start: string, ghost pick: seq<bool>) returns (isnull: bool)
    requires i < msg.natt && Listing(msg, scratch, buffer, tuple, i, first, sep, start, pick) && pick[i]
    modifies scratch, scratch.data, buffer
    ensures (scratch.data == old(scratch.data) || fresh(scratch.data))
    ensures Listing(msg, scratch, buffer, tuple, i + 1, false, sep, start, pick)
    ensures isnull == tuple.View()[i].Null?
  {
    hide LitText;
    ghost var cols, row := msg.Columns(), tuple.View();
    ghost var done := Items(cols, row, pick, i);
    ghost var x := ItemOf(cols[i], row[i]);
    if !first {
      buffer.Append(sep);
    }
    isnull := AppendValues(msg, scratch, buffer, tuple, i);
    ItemsStep(cols, row, pick, i);
    ListTextSnoc(done, x, sep);
    Regroup(start, ListText(done, sep), sep, ItemText(x));
  }

  lemma {:induction false} Regroup(a: string, b: string, c: string, d: string)
    ensures a + b + c + d == a + (b + c + d)
    ensures a + "" + d == a + ("" + d)
  {
  }

  lemma {:induction false} ItemsStep(cols: seq<Column>, row: seq<Cell>, pick: seq<bool>, i: nat)
    requires |row| == |cols| && OnLive(cols, pick) && i < |cols|
    ensures pick[i] ==> Items(cols, row, pick, i + 1) == Items(cols, row, pick, i) + [ItemOf(cols[i], row[i])]
    ensures !pick[i] ==> Items(cols, row, pick, i + 1) == Items(cols, row, pick, i)
  {
  }

  // ---- WHERE and SET -----------------------------------------------------------------------------------------

  /** Dropped, or outside the key when there is one. */
  method SkippedAsNoKey(msg: DecodeMessage, i: nat) returns (skip: bool)
    requires msg.Valid() && i < msg.natt
    ensures skip == !Identifies(msg.Columns()[i], msg.Keys())
  {
    if msg.attname[i] == None {
      return true;
    } else {
      var isKey := false;
      if msg.kNatt > 0 {
        isKey := IsKeyColumn(msg, msg.attname[i]);
        if !isKey {
          return true;
        }
      }
    }
    return false;
  }

  method AppendKeyCondition(msg: DecodeMessage, scratch: StringInfo, buffer: PQExpBuffer, tuple: TupleData, i: nat,
                            first: bool, ghost start: string) returns (stillFirst: bool)
    requires i < msg.natt && msg.Valid()
    requires Listing(msg, scratch, buffer, tuple, i, first, " AND ", start, Identifying(msg.Columns(), msg.Keys()))
    modifies scratch, scratch.data, buffer
    ensures (scratch.data == old(scratch.data) || fresh(scratch.data))
    ensures Listing(msg, scratch, buffer, tuple, i + 1, stillFirst, " AND ", start, Identifying(msg.Columns(), msg.Keys()))
  {
    hide ListText;
    hide LitText;
    hide ItemOf;
    ghost var pick := Identifying(msg.Columns(), msg.Keys());
    ItemsStep(msg.Columns(), tuple.View(), pick, i);
    var skip := SkippedAsNoKey(msg, i);
    if skip {
      return first;
    }
    var _ := AppendItem(msg, scratch, buffer, tuple, i, first, " AND ", start, pick);
    return false;
  }

  /** The loop that finds the row by its key columns, or by all columns if there is no key; it is the same
      in the three statements that use it. */
  method AppendKeyConditions(msg: DecodeMessage, scratch: StringInfo, buffer: PQExpBuffer, tuple: TupleData)
    requires Ready(msg, tuple) && scratch.Valid()
    requires Clean(tuple.View(), Identifying(msg.Columns(), msg.Keys()))
    modifies scratch, scratch.data, buffer
    ensures scratch.Valid() && (scratch.data == old(scratch.data) || fresh(scratch.data))
    ensures buffer.data == old(buffer.data) + ListText(WheresOf(msg.Columns(), msg.Keys(), tuple.View()), " AND ")
  {
    ghost var start := buffer.data;
    var first := true;
    assert start + ListText([], " AND ") == start;
    for i := 0 to tuple.natt
      invariant scratch.data == old(scratch.data) || fresh(scratch.data)
      invariant Listing(msg, scratch, buffer, tuple, i, first, " AND ", start, Identifying(msg.Columns(), msg.Keys()))
    {
      first := AppendKeyCondition(msg, scratch, buffer, tuple, i, first, start);
    }
  }

  /** Dropped, or in the key when keys are left out. */
  method SkippedInSet(msg: DecodeMessage, i: nat, skipKeys: bool) returns (skip: bool)
    requires msg.Valid() && i < msg.natt
    ensures skip == !Settable(msg.Columns()[i], if skipKeys then msg.Keys() else [])
  {
    if msg.attname[i] == None {
      return true;
    }
    if skipKeys {
      var isKey := false;
      if msg.kNatt > 0 {
        isKey := IsKeyColumn(msg, msg.attname[i]);
        if isKey {
          return true;
        }
      }
    }
    return false;
  }

  ghost function SetPick(msg: DecodeMessage, skipKeys: bool): seq<bool>
    requires msg.Valid()
    reads msg, msg.newtuple, msg.oldtuple, msg.attname, msg.atttype, msg.kAttname
  {
    OutsideKey(msg.Columns(), if skipKeys then msg.Keys() else [])
  }

  method AppendSetItem(msg: DecodeMessage, scratch: StringInfo, buffer: PQExpBuffer, tuple: TupleData, i: nat,
                       skipKeys: bool, first: bool, ghost start: string) returns (stillFirst: bool)
    requires i < msg.natt && msg.Valid()
    requires Listing(msg, scratch, buffer, tuple, i, first, " , ", start, SetPick(msg, skipKeys))
    modifies scratch, scratch.data, buffer
    ensures (scratch.data == old(scratch.data) || fresh(scratch.data))
    ensures Listing(msg, scratch, buffer, tuple, i + 1, stillFirst, " , ", start, SetPick(msg, skipKeys))
  {
    hide ListText;
    hide LitText;
    hide ItemOf;
    ghost var pick := SetPick(msg, skipKeys);
    ItemsStep(msg.Columns(), tuple.View(), pick, i);
    var skip := SkippedInSet(msg, i, skipKeys);
    if skip {
      return first;
    }
    var _ := AppendItem(msg, scratch, buffer, tuple, i, first, " , ", start, pick);
    return false;
  }

  /** The loop that sets every column, or every column outside the key. */
  method AppendSetItems(msg: DecodeMessage, scratch: StringInfo, buffer: PQExpBuffer, tuple: TupleData, skipKeys: bool)
    requires Ready(msg, tuple) && scratch.Valid()
    requires Clean(tuple.View(), SetPick(msg, skipKeys))
    modifies scratch, scratch.data, buffer
    ensures scratch.Valid() && (scratch.data == old(scratch.data) || fresh(scratch.data))
    ensures buffer.data
         == old(buffer.data) + ListText(SetsOf(msg.Columns(), if skipKeys then msg.Keys() else [], tuple.View()), " , ")
  {
    hide ItemOf;
    hide ListText;
    hide LitText;
    ghost var start := buffer.data;
    var first := true;
    NoItemsYet(start, " , ");
    for i := 0 to tuple.natt
      invariant scratch.data == old(scratch.data) || fresh(scratch.data)
      invariant Listing(msg, scratch, buffer, tuple, i, first, " , ", start, SetPick(msg, skipKeys))
    {
      first := AppendSetItem(msg, scratch, buffer, tuple, i, skipKeys, first, start);
    }
  }

  // ---- Full-row mode -----------------------------------------------------------------------------------------

  /** The scratch arrays of a call, apart from each other and from the tuples.  The original also notes which
      old values are unchanged toast; it does so only after printing such a value, which has no text, so that
      array could never hold anything here. */
  ghost predicate Apart(msg: DecodeMessage, droped: array<bool>, change: array<bool>, oldIsnull: array<bool>)
    reads msg, msg.newtuple, msg.oldtuple
  {
    && {droped, change, oldIsnull}
       !! {msg.newtuple.isnull, msg.newtuple.changed, msg.oldtuple.isnull, msg.oldtuple.changed}
    && droped != change && droped != oldIsnull && change != oldIsnull
    && droped.Length == change.Length == oldIsnull.Length == msg.natt
  }

  ghost function AllLive(msg: DecodeMessage): seq<bool>
    requires msg.Valid()
    reads msg, msg.newtuple, msg.oldtuple, msg.attname, msg.atttype
  {
    Identifying(msg.Columns(), [])
  }

  /** What the arrays say of an attribute of the old row. */
  ghost predicate NotedAt(c: Column, v: Cell, droped: bool, oldIsnull: bool) {
    droped == c.Dropped? && (c.Live? ==> oldIsnull == v.Null?)
  }

  ghost predicate Noted(msg: DecodeMessage, droped: array<bool>, oldIsnull: array<bool>, n: nat)
    reads msg, msg.newtuple, msg.oldtuple, msg.attname, msg.atttype
    reads msg.oldtuple.isnull, msg.oldtuple.changed, msg.oldtuple.svalues, droped, oldIsnull
  {
    && msg.Valid() && msg.oldtuple.natt == msg.natt && droped.Length == oldIsnull.Length == msg.natt && n <= msg.natt
    && forall k | 0 <= k < n :: NotedAt(msg.Columns()[k], msg.oldtuple.View()[k], droped[k], oldIsnull[k])
  }

  method NoteOld(msg: DecodeMessage, scratch: StringInfo, buffer: PQExpBuffer, i: nat, first: bool, ghost start: string,
                 droped: array<bool>, ghost change: array<bool>, oldIsnull: array<bool>)
      returns (stillFirst: bool)
    requires i < msg.natt && msg.Valid() && Apart(msg, droped, change, oldIsnull)
    requires Listing(msg, scratch, buffer, msg.oldtuple, i, first, " AND ", start, AllLive(msg))
    requires !droped[i]
    modifies scratch, scratch.data, buffer, droped, oldIsnull
    ensures (scratch.data == old(scratch.data) || fresh(scratch.data))
    ensures Listing(msg, scratch, buffer, msg.oldtuple, i + 1, stillFirst, " AND ", start, AllLive(msg))
    ensures NotedAt(msg.Columns()[i], msg.oldtuple.View()[i], droped[i], oldIsnull[i])
    ensures forall k | 0 <= k < msg.natt && k != i :: droped[k] == old(droped[k]) && oldIsnull[k] == old(oldIsnull[k])
  {
    hide ListText;
    hide LitText;
    ItemsStep(msg.Columns(), msg.oldtuple.View(), AllLive(msg), i);
    if msg.attname[i] == None {
      droped[i] := true;
      return first;
    }
    var wasNull := AppendItem(msg, scratch, buffer, msg.oldtuple, i, first, " AND ", start, AllLive(msg));
    oldIsnull[i] := wasNull;
    return false;
  }

  ghost predicate Noting(msg: DecodeMessage, droped: array<bool>, oldIsnull: array<bool>, n: nat)
    reads msg, msg.newtuple, msg.oldtuple, msg.attname, msg.atttype
    reads msg.oldtuple.isnull, msg.oldtuple.changed, msg.oldtuple.svalues, droped, oldIsnull
  {
    Noted(msg, droped, oldIsnull, n) && forall k | n <= k < droped.Length :: !droped[k]
  }

  /** One turn of the loop below. */
  method NoteNext(msg: DecodeMessage, scratch: StringInfo, buffer: PQExpBuffer, i: nat, first: bool, ghost start: string,
                  droped: array<bool>, ghost change: array<bool>, oldIsnull: array<bool>)
      returns (stillFirst: bool)
    requires i < msg.natt && msg.Valid() && Apart(msg, droped, change, oldIsnull)
    requires Listing(msg, scratch, buffer, msg.oldtuple, i, first, " AND ", start, AllLive(msg))
    requires Noting(msg, droped, oldIsnull, i)
    modifies scratch, scratch.data, buffer, droped, oldIsnull
    ensures (scratch.data == old(scratch.data) || fresh(scratch.data))
    ensures Listing(msg, scratch, buffer, msg.oldtuple, i + 1, stillFirst, " AND ", start, AllLive(msg))
    ensures Noting(msg, droped, oldIsnull, i + 1)
  {
    hide Listing;
    hide NotedAt;
    stillFirst := NoteOld(msg, scratch, buffer, i, first, start, droped, change, oldIsnull);
  }

  method AppendOldConditions(msg: DecodeMessage, scratch: StringInfo, buffer: PQExpBuffer, droped: array<bool>,
                             ghost change: array<bool>, oldIsnull: array<bool>)
    requires Ready(msg, msg.oldtuple) && scratch.Valid() && Apart(msg, droped, change, oldIsnull)
    requires Clean(msg.oldtuple.View(), AllLive(msg))
    requires forall k | 0 <= k < msg.natt :: !droped[k]
    modifies scratch, scratch.data, buffer, droped, oldIsnull
    ensures scratch.Valid() && (scratch.data == old(scratch.data) || fresh(scratch.data))
    ensures buffer.data == old(buffer.data) + ListText(WheresOf(msg.Columns(), [], msg.oldtuple.View()), " AND ")
    ensures Noted(msg, droped, oldIsnull, msg.natt)
  {
    hide NotedAt;
    hide ItemOf;
    hide ListText;
    hide LitText;
    ghost var start := buffer.data;
    var first := true;
    NoItemsYet(start, " AND ");
    for i := 0 to msg.oldtuple.natt
      invariant scratch.data == old(scratch.data) || fresh(scratch.data)
      invariant Listing(msg, scratch, buffer, msg.oldtuple, i, first, " AND ", start, AllLive(msg))
      invariant Noting(msg, droped, oldIsnull, i)
    {
      first := NoteNext(msg, scratch, buffer, i, first, start, droped, change, oldIsnull);
    }
  }

  /** Did attribute `i` change? */
  method Compare(msg: DecodeMessage, i: nat, oldIsnull: bool) returns (changed: bool)
    requires Ready(msg, msg.newtuple) && Ready(msg, msg.oldtuple) && i < msg.natt
    requires !msg.oldtuple.View()[i].Toast? && oldIsnull == msg.oldtuple.View()[i].Null?
    ensures changed == Differs(msg.oldtuple.View()[i], msg.newtuple.View()[i])
  {
    if msg.newtuple.isnull[i] && msg.newtuple.changed[i] && msg.newtuple.svalues[i] == None {
      return !oldIsnull;
    } else if msg.newtuple.isnull[i] && !msg.newtuple.changed[i] && msg.newtuple.svalues[i] == None {
      return false;
    } else if oldIsnull {
      return true;
    } else {
      return msg.newtuple.svalues[i] != msg.oldtuple.svalues[i];
    }
  }

  /** The diff, attribute by attribute. */
  method CompareAll(msg: DecodeMessage, droped: array<bool>, change: array<bool>, oldIsnull: array<bool>)
    requires Ready(msg, msg.newtuple) && Ready(msg, msg.oldtuple) && Apart(msg, droped, change, oldIsnull)
    requires Noted(msg, droped, oldIsnull, msg.natt) && Clean(msg.oldtuple.View(), AllLive(msg))
    requires forall k | 0 <= k < msg.natt :: !change[k]
    modifies change
    ensures change[..] == Diff(msg.Columns(), msg.oldtuple.View(), msg.newtuple.View())
  {
    ghost var diff := Diff(msg.Columns(), msg.oldtuple.View(), msg.newtuple.View());
    for i := 0 to msg.newtuple.natt
      invariant forall k | 0 <= k < i :: change[k] == diff[k]
      invariant forall k | i <= k < msg.natt :: !change[k]
    {
      assert NotedAt(msg.Columns()[i], msg.oldtuple.View()[i], droped[i], oldIsnull[i]);
      assert AllLive(msg)[i] == msg.Columns()[i].Live?;
      if droped[i] {
        continue;
      }
      var changed := Compare(msg, i, oldIsnull[i]);
      change[i] := changed;
    }
  }

  method AppendChange(msg: DecodeMessage, scratch: StringInfo, buffer: PQExpBuffer, i: nat, first: bool,
                      ghost start: string, droped: array<bool>, change: array<bool>) returns (stillFirst: bool)
    requires i < msg.natt && msg.Valid() && droped.Length == change.Length == msg.natt
    requires Listing(msg, scratch, buffer, msg.newtuple, i, first, " , ", start, change[..])
    requires droped[i] ==> !change[i]
    modifies scratch, scratch.data, buffer
    ensures (scratch.data == old(scratch.data) || fresh(scratch.data))
    ensures Listing(msg, scratch, buffer, msg.newtuple, i + 1, stillFirst, " , ", start, change[..])
  {
    ItemsStep(msg.Columns(), msg.newtuple.View(), change[..], i);
    if droped[i] {
      return first;
    }
    if change[i] {
      var _ := AppendItem(msg, scratch, buffer, msg.newtuple, i, first, " , ", start, change[..]);
      return false;
    }
    return first;
  }

  method AppendChanges(msg: DecodeMessage, scratch: StringInfo, buffer: PQExpBuffer, droped: array<bool>,
                       change: array<bool>)
    requires Ready(msg, msg.newtuple) && scratch.Valid() && droped.Length == change.Length == msg.natt
    requires OnLive(msg.Columns(), change[..]) && Clean(msg.newtuple.View(), change[..])
    requires forall k | 0 <= k < msg.natt :: droped[k] ==> !change[k]
    modifies scratch, scratch.data, buffer
    ensures scratch.Valid() && (scratch.data == old(scratch.data) || fresh(scratch.data))
    ensures buffer.data
         == old(buffer.data) + ListText(Items(msg.Columns(), msg.newtuple.View(), change[..], msg.natt), " , ")
  {
    ghost var start := buffer.data;
    var first := true;
    assert start + ListText([], " , ") == start;
    for i := 0 to msg.newtuple.natt
      invariant scratch.data == old(scratch.data) || fresh(scratch.data)
      invariant Listing(msg, scratch, buffer, msg.newtuple, i, first, " , ", start, change[..])
    {
      first := AppendChange(msg, scratch, buffer, i, first, start, droped, change);
    }
  }

  method AppendDiff(msg: DecodeMessage, scratch: StringInfo, buffer: PQExpBuffer, droped: array<bool>,
                    change: array<bool>)
    requires Ready(msg, msg.newtuple) && Ready(msg, msg.oldtuple) && scratch.Valid()
    requires droped.Length == change.Length == msg.natt
    requires change[..] == Diff(msg.Columns(), msg.oldtuple.View(), msg.newtuple.View())
    requires Clean(msg.newtuple.View(), change[..])
    requires forall k | 0 <= k < msg.natt :: droped[k] ==> !change[k]
    modifies scratch, scratch.data, buffer
    ensures scratch.Valid() && (scratch.data == old(scratch.data) || fresh(scratch.data))
    ensures buffer.data
         == old(buffer.data) + ListText(ChangesOf(msg.Columns(), msg.oldtuple.View(), msg.newtuple.View()), " , ")
  {
    assert OnLive(msg.Columns(), change[..]);
    AppendChanges(msg, scratch, buffer, droped, change);
  }

  // ---- The three kinds of UPDATE -----------------------------------------------------------------------------

  function UpdateTail(sets: seq<Item>, wheres: seq<Item>): string { SetText(sets) + " " + WhereText(wheres) }

  lemma {:induction false} TailSplits(sets: string, conditions: string)
    ensures ("" + " SET " + sets) + ("" + " WHERE " + conditions + ";")
         == (" SET " + sets) + " " + ("WHERE " + conditions + ";")
  {
  }

  /** The two halves of an update are built apart and put behind each other. */
  method AppendHalves(buffer: PQExpBuffer, set_: PQExpBuffer, conditions: PQExpBuffer, ghost sets: seq<Item>,
                      ghost wheres: seq<Item>)
    requires set_.data == "" + " SET " + ListText(sets, " , ")
    requires conditions.data == "" + " WHERE " + ListText(wheres, " AND ") + ";"
    requires buffer != set_ && buffer != conditions
    modifies buffer
    ensures buffer.data == old(buffer.data) + UpdateTail(sets, wheres)
  {
    ghost var before := buffer.data;
    buffer.Append(set_.data);
    buffer.Append(conditions.data);
    TailSplits(ListText(sets, " , "), ListText(wheres, " AND "));
    assert before + set_.data + conditions.data == before + (set_.data + conditions.data);
  }

  lemma {:induction false} DroppedUnchanged(msg: DecodeMessage, droped: array<bool>, change: array<bool>,
                                            oldIsnull: array<bool>)
    requires Ready(msg, msg.newtuple) && Noted(msg, droped, oldIsnull, msg.natt) && change.Length == msg.natt
    requires change[..] == Diff(msg.Columns(), msg.oldtuple.View(), msg.newtuple.View())
    ensures forall k | 0 <= k < msg.natt :: droped[k] ==> !change[k]
  {
    forall k | 0 <= k < msg.natt && droped[k] ensures !change[k] {
      assert NotedAt(msg.Columns()[k], msg.oldtuple.View()[k], droped[k], oldIsnull[k]);
      assert change[k] == change[..][k];
    }
  }

  /** The message says `d`. */
  ghost predicate Shows(msg: DecodeMessage, d: Decoded)
    reads msg, msg.newtuple, msg.oldtuple, msg.attname, msg.atttype, msg.kAttname
    reads msg.newtuple.isnull, msg.newtuple.changed, msg.newtuple.svalues
    reads msg.oldtuple.isnull, msg.oldtuple.changed, msg.oldtuple.svalues
  {
    d.ChangeD? && msg.Valid() && msg.View() == d && msg.newtuple.Sound() && msg.oldtuple.Sound()
  }

  predicate CleanWhere(cols: seq<Column>, keys: seq<string>, row: seq<Cell>) { Clean(row, Identifying(cols, keys)) }

  predicate CleanSet(cols: seq<Column>, keys: seq<string>, row: seq<Cell>) { Clean(row, OutsideKey(cols, keys)) }

  predicate CleanDiff(cols: seq<Column>, was: seq<Cell>, now: seq<Cell>) {
    |cols| == |was| == |now| && Clean(now, Diff(cols, was, now))
  }

  function ConditionsText(wheres: seq<Item>): string { "" + " WHERE " + ListText(wheres, " AND ") + ";" }

  function ItemsText(sets: seq<Item>): string { "" + " SET " + ListText(sets, " , ") }

  method StartedConditions() returns (conditions: PQExpBuffer)
    ensures fresh(conditions) && conditions.data == "" + " WHERE "
  {
    conditions := new PQExpBuffer();
    conditions.Append(" WHERE ");
  }

  /** Fresh arrays for full-row mode, all false. */
  method NewArrays(msg: DecodeMessage) returns (droped: array<bool>, change: array<bool>, oldIsnull: array<bool>)
    requires msg.Valid()
    ensures fresh(droped) && fresh(change) && fresh(oldIsnull) && Apart(msg, droped, change, oldIsnull)
    ensures forall k | 0 <= k < msg.natt :: !droped[k] && !change[k]
  {
    droped := new bool[msg.natt](_ => false);
    change := new bool[msg.natt](_ => false);
    oldIsnull := new bool[msg.natt](_ => false);
  }

  method NoteOldRow(msg: DecodeMessage, scratch: StringInfo, conditions: PQExpBuffer, droped: array<bool>,
                    ghost change: array<bool>, oldIsnull: array<bool>, ghost d: Decoded)
    requires Shows(msg, d) && |d.cols| == |d.oldRow| && scratch.Valid() && Apart(msg, droped, change, oldIsnull)
    requires CleanWhere(d.cols, [], d.oldRow)
    requires forall k | 0 <= k < msg.natt :: !droped[k]
    modifies scratch, scratch.data, conditions, droped, oldIsnull
    ensures scratch.Valid() && (scratch.data == old(scratch.data) || fresh(scratch.data))
    ensures Shows(msg, d) && Noted(msg, droped, oldIsnull, msg.natt)
    ensures conditions.data == old(conditions.data) + ListText(WheresOf(d.cols, [], d.oldRow), " AND ")
  {
    AppendOldConditions(msg, scratch, conditions, droped, change, oldIsnull);
  }

  method CompareRows(msg: DecodeMessage, droped: array<bool>, change: array<bool>, oldIsnull: array<bool>,
                     ghost d: Decoded)
    requires Shows(msg, d) && |d.cols| == |d.oldRow| == |d.newRow| && Apart(msg, droped, change, oldIsnull)
    requires CleanWhere(d.cols, [], d.oldRow) && Noted(msg, droped, oldIsnull, msg.natt)
    requires forall k | 0 <= k < msg.natt :: !change[k]
    modifies change
    ensures Shows(msg, d)
    ensures change[..] == Diff(d.cols, d.oldRow, d.newRow)
    ensures forall k | 0 <= k < msg.natt :: droped[k] ==> !change[k]
  {
    CompareAll(msg, droped, change, oldIsnull);
    DroppedUnchanged(msg, droped, change, oldIsnull);
  }

  /** The first half of full-row mode: the conditions on the old row, and what changed. */
  method OldConditions(msg: DecodeMessage, scratch: StringInfo, ghost d: Decoded)
      returns (conditions: PQExpBuffer, droped: array<bool>, change: array<bool>)
    requires Shows(msg, d) && |d.cols| == |d.oldRow| == |d.newRow| && scratch.Valid()
    requires CleanWhere(d.cols, [], d.oldRow)
    modifies scratch, scratch.data
    ensures scratch.Valid() && (scratch.data == old(scratch.data) || fresh(scratch.data))
    ensures Shows(msg, d)
    ensures fresh(conditions) && conditions.data == ConditionsText(WheresOf(d.cols, [], d.oldRow))
    ensures fresh(droped) && fresh(change) && droped.Length == change.Length == |d.cols|
    ensures change[..] == Diff(d.cols, d.oldRow, d.newRow)
    ensures forall k | 0 <= k < |d.cols| :: droped[k] ==> !change[k]
  {
    hide ListText;
    hide Items;
    hide NotedAt;
    conditions := StartedConditions();
    var oldIsnull;
    droped, change, oldIsnull := NewArrays(msg);
    NoteOldRow(msg, scratch, conditions, droped, change, oldIsnull, d);
    CompareRows(msg, droped, change, oldIsnull, d);
    conditions.Append(";");
  }

  method ChangedItems(msg: DecodeMessage, scratch: StringInfo, droped: array<bool>, change: array<bool>, ghost d: Decoded)
      returns (set_: PQExpBuffer)
    requires Shows(msg, d) && |d.cols| == |d.oldRow| == |d.newRow| && scratch.Valid()
    requires droped.Length == change.Length == |d.cols| && change[..] == Diff(d.cols, d.oldRow, d.newRow)
    requires forall k | 0 <= k < |d.cols| :: droped[k] ==> !change[k]
    requires CleanDiff(d.cols, d.oldRow, d.newRow)
    modifies scratch, scratch.data
    ensures scratch.Valid() && (scratch.data == old(scratch.data) || fresh(scratch.data))
    ensures Shows(msg, d)
    ensures fresh(set_) && set_.data == ItemsText(ChangesOf(d.cols, d.oldRow, d.newRow))
  {
    set_ := new PQExpBuffer();
    set_.Append(" SET ");
    AppendDiff(msg, scratch, set_, droped, change);
  }

  method AppendUpdateStatementFullRow(msg: DecodeMessage, scratch: StringInfo, buffer: PQExpBuffer, ghost d: Decoded)
    requires Shows(msg, d) && |d.cols| == |d.oldRow| == |d.newRow| && scratch.Valid()
    requires CleanWhere(d.cols, [], d.oldRow) && CleanDiff(d.cols, d.oldRow, d.newRow)
    modifies scratch, scratch.data, buffer
    ensures scratch.Valid() && (scratch.data == old(scratch.data) || fresh(scratch.data))
    ensures Shows(msg, d)
    ensures buffer.data == old(buffer.data)
      + UpdateTail(ChangesOf(d.cols, d.oldRow, d.newRow), WheresOf(d.cols, [], d.oldRow))
  {
    assert d.ChangeD?;
    hide Shows;
    hide ListText;
    hide Items;
    var conditions, droped, change := OldConditions(msg, scratch, d);
    var set_ := ChangedItems(msg, scratch, droped, change, d);
    AppendHalves(buffer, set_, conditions, ChangesOf(d.cols, d.oldRow, d.newRow), WheresOf(d.cols, [], d.oldRow));
  }

  /** The conditions of the modes with keys, on one of the two tuples. */
  method KeyConditions(msg: DecodeMessage, scratch: StringInfo, tuple: TupleData, ghost d: Decoded, ghost row: seq<Cell>)
      returns (conditions: PQExpBuffer)
    requires Shows(msg, d) && |d.cols| == |row| && scratch.Valid()
    requires (tuple == msg.oldtuple && row == d.oldRow) || (tuple == msg.newtuple && row == d.newRow)
    requires CleanWhere(d.cols, d.keys, row)
    modifies scratch, scratch.data
    ensures scratch.Valid() && (scratch.data == old(scratch.data) || fresh(scratch.data))
    ensures Shows(msg, d)
    ensures fresh(conditions) && conditions.data == ConditionsText(WheresOf(d.cols, d.keys, row))
  {
    hide ListText;
    hide Items;
    conditions := StartedConditions();
    AppendKeyConditions(msg, scratch, conditions, tuple);
    conditions.Append(";");
  }

  method NewItems(msg: DecodeMessage, scratch: StringInfo, skipKeys: bool, ghost d: Decoded) returns (set_: PQExpBuffer)
    requires Shows(msg, d) && |d.cols| == |d.newRow| && scratch.Valid()
    requires CleanSet(d.cols, if skipKeys then d.keys else [], d.newRow)
    modifies scratch, scratch.data
    ensures scratch.Valid() && (scratch.data == old(scratch.data) || fresh(scratch.data))
    ensures Shows(msg, d)
    ensures fresh(set_) && set_.data == ItemsText(SetsOf(d.cols, if skipKeys then d.keys else [], d.newRow))
  {
    hide ListText;
    hide Items;
    set_ := new PQExpBuffer();
    set_.Append(" SET ");
    AppendSetItems(msg, scratch, set_, msg.newtuple, skipKeys);
  }

  method AppendUpdateStatementKeyChange(msg: DecodeMessage, scratch: StringInfo, buffer: PQExpBuffer, ghost d: Decoded)
    requires Shows(msg, d) && |d.cols| == |d.oldRow| == |d.newRow| && scratch.Valid()
    requires CleanWhere(d.cols, d.keys, d.oldRow) && CleanSet(d.cols, [], d.newRow)
    modifies scratch, scratch.data, buffer
    ensures scratch.Valid() && (scratch.data == old(scratch.data) || fresh(scratch.data))
    ensures Shows(msg, d)
    ensures buffer.data == old(buffer.data)
      + UpdateTail(SetsOf(d.cols, [], d.newRow), WheresOf(d.cols, d.keys, d.oldRow))
  {
    assert d.ChangeD?;
    hide Shows;
    hide ListText;
    hide Items;
    var conditions := KeyConditions(msg, scratch, msg.oldtuple, d, d.oldRow);
    var set_ := NewItems(msg, scratch, false, d);
    AppendHalves(buffer, set_, conditions, SetsOf(d.cols, [], d.newRow), WheresOf(d.cols, d.keys, d.oldRow));
  }

  method AppendUpdateStatementKeyNotChange(msg: DecodeMessage, scratch: StringInfo, buffer: PQExpBuffer, ghost d: Decoded)
    requires Shows(msg, d) && |d.cols| == |d.newRow| && scratch.Valid()
    requires CleanWhere(d.cols, d.keys, d.newRow) && CleanSet(d.cols, d.keys, d.newRow)
    modifies scratch, scratch.data, buffer
    ensures scratch.Valid() && (scratch.data == old(scratch.data) || fresh(scratch.data))
    ensures Shows(msg, d)
    ensures buffer.data == old(buffer.data)
      + UpdateTail(SetsOf(d.cols, d.keys, d.newRow), WheresOf(d.cols, d.keys, d.newRow))
  {
    assert d.ChangeD?;
    hide Shows;
    hide ListText;
    hide Items;
    var conditions := KeyConditions(msg, scratch, msg.newtuple, d, d.newRow);
    var set_ := NewItems(msg, scratch, true, d);
    AppendHalves(buffer, set_, conditions, SetsOf(d.cols, d.keys, d.newRow), WheresOf(d.cols, d.keys, d.newRow));
  }

  // ---- INSERT ------------------------------------------------------------------------------------------------

  /** The column list after `n` attributes: every name but that of the last attribute is followed by a comma. */
  function NamesText(cols: seq<Column>, n: nat): string
    requires n <= |cols|
  {
    var names := LiveNames(cols, n);
    Joined(names, ",") + if names != [] && !(n == |cols| && cols[n - 1].Live?) then "," else ""
  }

  lemma {:induction false} NamesTextStep(cols: seq<Column>, i: nat)
    requires i < |cols|
    ensures cols[i].Dropped? ==> NamesText(cols, i + 1) == NamesText(cols, i)
    ensures cols[i].Live? ==>
      NamesText(cols, i + 1) == NamesText(cols, i) + (cols[i].name + if i != |cols| - 1 then "," else "")
  {
    var names := LiveNames(cols, i);
    if cols[i].Live? {
      JoinedSnoc(names, cols[i].name, ",");
      var before, end := Joined(names, ","), if i != |cols| - 1 then "," else "";
      assert (before + "," + cols[i].name) + end == (before + ",") + (cols[i].name + end);
      assert names == [] ==> NamesText(cols, i) == "";
    } else {
      assert names + [] == names;
    }
  }

  method AppendInsertColname(msg: DecodeMessage, buffer: PQExpBuffer, ghost d: Decoded)
    requires Shows(msg, d) && |d.newRow| == |d.cols| != 0
    modifies buffer
    ensures Shows(msg, d)
    ensures buffer.data == old(buffer.data)
      + ColumnsText(LiveNames(d.cols, |d.cols|), LiveNames(d.cols, |d.cols|) != [] && !d.cols[|d.cols| - 1].Live?)
  {
    ghost var start := buffer.data;
    buffer.Append("(");
    assert NamesText(d.cols, 0) == "";
    assert buffer.data == start + ("(" + NamesText(d.cols, 0));
    for i := 0 to msg.newtuple.natt
      invariant Shows(msg, d)
      invariant buffer.data == start + ("(" + NamesText(d.cols, i))
    {
      NamesTextStep(d.cols, i);
      if msg.attname[i] == None {
        continue;
      }
      ghost var before := buffer.data;
      buffer.Append(msg.attname[i].value);
      if i != msg.newtuple.natt - 1 {
        buffer.Append(",");
      }
      Regroup3(start, NamesText(d.cols, i), d.cols[i].name, if i != |d.cols| - 1 then "," else "");
    }
    buffer.Append(") ");
    ColumnsSplit(start, Joined(LiveNames(d.cols, |d.cols|), ","),
                 if LiveNames(d.cols, |d.cols|) != [] && !d.cols[|d.cols| - 1].Live? then "," else "");
  }

  lemma {:induction false} Regroup3(a: string, b: string, c: string, d: string)
    ensures a + ("(" + b) + c + d == a + ("(" + (b + (c + d)))
    ensures a + ("(" + b) + c == a + ("(" + (b + (c + "")))
  {
  }

  lemma {:induction false} ColumnsSplit(a: string, b: string, c: string)
    ensures a + ("(" + (b + c)) + ") " == a + ("(" + b + c + ") ")
  {
  }

  predicate CleanInsert(cols: seq<Column>, row: seq<Cell>) {
    |row| == |cols| && forall i | 0 <= i < |cols| :: cols[i].Live? ==> Quotable(row[i])
  }

  /** One value of an INSERT; an unchanged-toast value is printed as null. */
  method AppendInsertValue(msg: DecodeMessage, scratch: StringInfo, buffer: PQExpBuffer, i: nat, ghost d: Decoded)
    requires Shows(msg, d) && scratch.Valid() && |d.newRow| == |d.cols| && i < |d.cols|
    requires d.cols[i].Live? && Quotable(d.newRow[i])
    modifies scratch, scratch.data, buffer
    ensures scratch.Valid() && (scratch.data == old(scratch.data) || fresh(scratch.data))
    ensures Shows(msg, d)
    ensures buffer.data == old(buffer.data) + LitText(LitOf(d.cols[i], d.newRow[i]))
  {
    if msg.newtuple.isnull[i] && msg.newtuple.changed[i] && msg.newtuple.svalues[i] == None {
      buffer.Append("null");
    } else if msg.newtuple.isnull[i] && !msg.newtuple.changed[i] && msg.newtuple.svalues[i] == None {
      buffer.Append("null");
    } else {
      QuoteLiteralLocal(scratch, msg.newtuple.svalues[i].value, TypeAt(msg, i), buffer);
    }
  }

  method AppendInsertValues(msg: DecodeMessage, scratch: StringInfo, buffer: PQExpBuffer, ghost d: Decoded)
    requires Shows(msg, d) && scratch.Valid() && CleanInsert(d.cols, d.newRow)
    modifies scratch, scratch.data, buffer
    ensures scratch.Valid() && (scratch.data == old(scratch.data) || fresh(scratch.data))
    ensures Shows(msg, d)
    ensures buffer.data == old(buffer.data) + ValuesText(LiveLits(d.cols, d.newRow, |d.cols|))
  {
    hide LitText;
    ghost var start := buffer.data;
    ghost var lits: seq<Lit> := [];
    var first := true;
    buffer.Append("VALUES(");
    assert Joined(LitTexts(lits), ", ") == "";
    assert buffer.data == start + ("VALUES(" + Joined(LitTexts(lits), ", "));
    for i := 0 to msg.newtuple.natt
      invariant Shows(msg, d) && scratch.Valid() && (scratch.data == old(scratch.data) || fresh(scratch.data))
      invariant lits == LiveLits(d.cols, d.newRow, i) && (first <==> lits == [])
      invariant buffer.data == start + ("VALUES(" + Joined(LitTexts(lits), ", "))
    {
      if msg.attname[i] == None {
        continue;
      }
      first := AppendNextValue(msg, scratch, buffer, i, first, start, lits, d);
      lits := lits + [LitOf(d.cols[i], d.newRow[i])];
    }
    buffer.Append(");");
    ValuesSplit(start, Joined(LitTexts(lits), ", "));
  }

  method AppendNextValue(msg: DecodeMessage, scratch: StringInfo, buffer: PQExpBuffer, i: nat, first: bool,
                         ghost start: string, ghost lits: seq<Lit>, ghost d: Decoded) returns (stillFirst: bool)
    requires Shows(msg, d) && scratch.Valid() && |d.newRow| == |d.cols| && i < |d.cols|
    requires d.cols[i].Live? && Quotable(d.newRow[i]) && (first <==> lits == [])
    requires buffer.data == start + ("VALUES(" + Joined(LitTexts(lits), ", "))
    modifies scratch, scratch.data, buffer
    ensures scratch.Valid() && (scratch.data == old(scratch.data) || fresh(scratch.data))
    ensures Shows(msg, d) && !stillFirst
    ensures buffer.data == start + ("VALUES(" + Joined(LitTexts(lits + [LitOf(d.cols[i], d.newRow[i])]), ", "))
  {
    ghost var x := LitOf(d.cols[i], d.newRow[i]);
    if !first {
      buffer.Append(", ");
    }
    AppendInsertValue(msg, scratch, buffer, i, d);
    LitListSnoc(lits, x);
    ValueRegroup(start, Joined(LitTexts(lits), ", "), LitText(x));
    return false;
  }

  lemma {:induction false} ValueRegroup(a: string, b: string, c: string)
    ensures a + ("VALUES(" + b) + ", " + c == a + ("VALUES(" + (b + ", " + c))
    ensures a + ("VALUES(" + "") + c == a + ("VALUES(" + ("" + c))
  {
  }

  lemma {:induction false} ValuesSplit(a: string, b: string)
    ensures a + ("VALUES(" + b) + ");" == a + ("VALUES(" + b + ");")
  {
  }

  // ---- The whole statement -----------------------------------------------------------------------------------

  /** What the statement prints has a text. */
  predicate CleanChange(d: Decoded)
    requires Matching(d)
  {
    if d.kind == 'D' then
      d.oldRow != [] ==> CleanWhere(d.cols, d.keys, d.oldRow)
    else if |d.newRow| != |d.cols| then true
    else if d.kind == 'I' then CleanInsert(d.cols, d.newRow)
    else if d.keys == [] then
      |d.oldRow| == |d.cols| ==> CleanWhere(d.cols, [], d.oldRow) && CleanDiff(d.cols, d.oldRow, d.newRow)
    else if d.oldRow == [] then
      CleanWhere(d.cols, d.keys, d.newRow) && CleanSet(d.cols, d.keys, d.newRow)
    else
      CleanWhere(d.cols, d.keys, d.oldRow) && CleanSet(d.cols, [], d.newRow)
  }

  method CheckTuple(msg: DecodeMessage, ghost d: Decoded) returns (rc: int)
    requires Shows(msg, d)
    ensures rc == 0 <==>
      if d.kind == 'D' then d.hasOld && d.oldRow != []
      else if d.kind == 'I' || d.kind == 'U' then d.newRow != [] && |d.newRow| == |d.cols|
      else true
  {
    if msg.typ == 'D' && !msg.hasKeyOrOld {
      return 1;
    }
    if (msg.typ == 'I' || msg.typ == 'U') && msg.newtuple.natt == 0 {
      return 1;
    }
    if msg.typ == 'D' && msg.oldtuple.natt == 0 {
      return 1;
    }
    if (msg.typ == 'I' || msg.typ == 'U') && msg.newtuple.natt != msg.natt {
      return 1;
    }
    return 0;
  }

  lemma {:induction false} UpdateJoins(before: string, schema: string, rel: string, setText: string, whereText: string)
    ensures before + ("UPDATE " + schema + "." + rel + " ") + (setText + " " + whereText)
         == before + ("UPDATE " + schema + "." + rel + " " + setText + " " + whereText)
  {
  }

  method AppendUpdateStatement(msg: DecodeMessage, scratch: StringInfo, buffer: PQExpBuffer, ghost d: Decoded)
    requires Shows(msg, d) && scratch.Valid() && d.kind == 'U' && Matching(d)
    requires d.newRow != [] && |d.newRow| == |d.cols| && CleanChange(d)
    modifies scratch, scratch.data, buffer
    ensures scratch.Valid() && (scratch.data == old(scratch.data) || fresh(scratch.data))
    ensures Shows(msg, d)
    ensures buffer.data == old(buffer.data) + OutputText(UpdateOf(d))
  {
    ghost var before := buffer.data;
    var fullRowMode := false;
    var keyNotChange := false;
    if msg.kNatt == 0 {
      if !msg.hasKeyOrOld || msg.oldtuple.natt == 0 {
        return;
      } else if msg.natt == msg.newtuple.natt && msg.natt == msg.oldtuple.natt {
        fullRowMode := true;
      } else {
        return;
      }
    } else if msg.oldtuple.natt == 0 {
      keyNotChange := true;
    }
    ghost var st := UpdateOf(d).stmt;
    buffer.Append("UPDATE " + msg.schemaname + "." + msg.relname + " ");
    if fullRowMode {
      AppendUpdateStatementFullRow(msg, scratch, buffer, d);
    } else if keyNotChange {
      AppendUpdateStatementKeyNotChange(msg, scratch, buffer, d);
    } else {
      AppendUpdateStatementKeyChange(msg, scratch, buffer, d);
    }
    UpdateJoins(before, d.schema, d.name, SetText(st.sets), WhereText(st.wheres));
  }

  lemma {:induction false} InsertJoins(before: string, schema: string, rel: string, c: string, v: string)
    ensures before + ("INSERT INTO " + schema + "." + rel + " ") + c + v
         == before + ("INSERT INTO " + schema + "." + rel + " " + c + v)
  {
  }

  method AppendInsertStatement(msg: DecodeMessage, scratch: StringInfo, buffer: PQExpBuffer, ghost d: Decoded)
    requires Shows(msg, d) && scratch.Valid()
    requires d.newRow != [] && |d.newRow| == |d.cols| && CleanInsert(d.cols, d.newRow)
    modifies scratch, scratch.data, buffer
    ensures scratch.Valid() && (scratch.data == old(scratch.data) || fresh(scratch.data))
    ensures Shows(msg, d)
    ensures buffer.data == old(buffer.data) + Render(InsertOf(d))
  {
    ghost var before, st := buffer.data, InsertOf(d);
    buffer.Append("INSERT INTO " + msg.schemaname + "." + msg.relname + " ");
    AppendInsertColname(msg, buffer, d);
    AppendInsertValues(msg, scratch, buffer, d);
    InsertJoins(before, d.schema, d.name, ColumnsText(st.cols, st.comma), ValuesText(st.lits));
  }

  lemma {:induction false} DeleteJoins(before: string, schema: string, rel: string, conditions: string)
    ensures before + ("DELETE FROM " + schema + "." + rel + " ") + ("WHERE " + conditions + ";")
         == before + ("DELETE FROM " + schema + "." + rel + " " + ("WHERE " + conditions + ";"))
  {
  }

  method AppendDeleteWhereStatement(msg: DecodeMessage, scratch: StringInfo, buffer: PQExpBuffer, ghost d: Decoded)
    requires Shows(msg, d) && scratch.Valid()
    requires |d.oldRow| == |d.cols| && CleanWhere(d.cols, d.keys, d.oldRow)
    modifies scratch, scratch.data, buffer
    ensures scratch.Valid() && (scratch.data == old(scratch.data) || fresh(scratch.data))
    ensures Shows(msg, d)
    ensures buffer.data == old(buffer.data) + WhereText(WheresOf(d.cols, d.keys, d.oldRow))
  {
    ghost var before := buffer.data;
    buffer.Append("WHERE ");
    AppendKeyConditions(msg, scratch, buffer, msg.oldtuple);
    buffer.Append(";");
    WhereJoins(before, ListText(WheresOf(d.cols, d.keys, d.oldRow), " AND "));
  }

  lemma {:induction false} WhereJoins(before: string, conditions: string)
    ensures before + "WHERE " + conditions + ";" == before + ("WHERE " + conditions + ";")
  {
  }

  method AppendDeleteStatement(msg: DecodeMessage, scratch: StringInfo, buffer: PQExpBuffer, ghost d: Decoded)
    requires Shows(msg, d) && scratch.Valid()
    requires |d.oldRow| == |d.cols| && CleanWhere(d.cols, d.keys, d.oldRow)
    modifies scratch, scratch.data, buffer
    ensures scratch.Valid() && (scratch.data == old(scratch.data) || fresh(scratch.data))
    ensures Shows(msg, d)
    ensures buffer.data == old(buffer.data) + Render(DeleteOf(d))
  {
    ghost var before := buffer.data;
    buffer.Append("DELETE FROM " + msg.schemaname + "." + msg.relname + " ");
    AppendDeleteWhereStatement(msg, scratch, buffer, d);
    DeleteJoins(before, d.schema, d.name, ListText(WheresOf(d.cols, d.keys, d.oldRow), " AND "));
  }

  /** The text of a change: an error and no text, no text, or the text of its statement. */
  method OutPutChange(msg: DecodeMessage, scratch: StringInfo, buffer: PQExpBuffer, ghost d: Decoded) returns (rc: int)
    requires Shows(msg, d) && Matching(d) && CleanChange(d) && scratch.Valid()
    requires d.kind == 'I' || d.kind == 'U' || d.kind == 'D'
    modifies scratch, scratch.data, buffer
    ensures scratch.Valid() && (scratch.data == old(scratch.data) || fresh(scratch.data))
    ensures Shows(msg, d)
    ensures rc == 0 <==> !OutputOf(d).Refused?
    ensures buffer.data == old(buffer.data) + OutputText(OutputOf(d))
  {
    rc := CheckTuple(msg, d);
    if rc != 0 {
      return 1;
    }
    if msg.typ == 'I' {
      AppendInsertStatement(msg, scratch, buffer, d);
    } else if msg.typ == 'U' {
      AppendUpdateStatement(msg, scratch, buffer, d);
    } else {
      AppendDeleteStatement(msg, scratch, buffer, d);
    }
    return 0;
  }

  /** The text of any message. */
  function MessageText(d: Decoded): string
    requires d.ChangeD? ==> Matching(d) && (d.kind == 'I' || d.kind == 'U' || d.kind == 'D')
  {
    match d
    case BeginD(_, _, _) => "begin;"
    case CommitD(_, _, _) => "commit;"
    case ChangeD(_, _, _, _, _, _, _, _) => OutputText(OutputOf(d))
  }

  method OutPutTupleToSql(msg: DecodeMessage, scratch: StringInfo, buffer: PQExpBuffer) returns (rc: int)
    requires msg.Valid() && msg.newtuple.Sound() && msg.oldtuple.Sound() && scratch.Valid()
    requires msg.View().ChangeD? ==>
      var d := msg.View();
      Matching(d) && CleanChange(d) && (d.kind == 'I' || d.kind == 'U' || d.kind == 'D')
    modifies scratch, scratch.data, buffer
    ensures scratch.Valid() && (scratch.data == old(scratch.data) || fresh(scratch.data))
    ensures rc == 0 <==> !(old(msg.View()).ChangeD? && OutputOf(old(msg.View())).Refused?)
    ensures buffer.data == old(buffer.data) + MessageText(old(msg.View()))
  {
    if msg.typ == 'B' {
      buffer.Append("begin;");
      return 0;
    } else if msg.typ == 'C' {
      buffer.Append("commit;");
      return 0;
    } else {
      rc := OutPutChange(msg, scratch, buffer, msg.View());
    }
  }
}
