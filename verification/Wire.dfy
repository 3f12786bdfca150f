/** The message format between the output plugin and the client: the bytes of a message, and what a
    reader of such bytes finds.  `Parse` is written for the reader, `Encode` for the writer; that they
    fit together is proved here. */
module Wire {
  import opened OptionType
  import opened BigEndian
  import opened CStrings

  // ---- What is sent ----------------------------------------------------------------------------------------

  const MAX_ATTRIBUTES := 1664

  /** An attribute of the relation: dropped, or live with its quoted name and the name of its type. */
  datatype Column = Dropped | Live(name: string, typ: string)

  /** The value of an attribute in a tuple. */
  datatype Cell = Null | Toast | Text(value: string)

  /** The relation as the catalog describes it; `identity` lists the columns of the replica identity
      index, when there is one. */
  datatype Relation = Relation(schema: string, name: string, cols: seq<Column>, identity: Option<seq<string>>)

  datatype Change =
    | Insert(newRow: seq<Cell>)
    | Update(oldRow: Option<seq<Cell>>, newRow: seq<Cell>)
    | Delete(oldRow: Option<seq<Cell>>)

  /** The plugin's options. */
  datatype Options = Options(columnInfo: bool, keyInfo: bool, typeNames: bool)

  datatype Message =
    | BeginMsg(finalLsn: int, time: int, xid: int)
    | CommitMsg(commitLsn: int, endLsn: int, time: int)
    | ChangeMsg(rel: Relation, change: Change)

  // ---- What is received --------------------------------------------------------------------------------------

  /** A decoded change: `cols` and `keys` are empty when the message does not carry them, a tuple that is
      not there has no cells. */
  datatype Decoded =
    | BeginD(lsn: int, time: int, xid: int)
    | CommitD(lsn: int, endLsn: int, time: int)
    | ChangeD(kind: char, schema: string, name: string, cols: seq<Column>, keys: seq<string>,
              hasOld: bool, oldRow: seq<Cell>, newRow: seq<Cell>)

  // ---- The writer's bytes --------------------------------------------------------------------------------------

  /** A length of `width` bytes, the string, a NUL. */
  function EncStr2(s: string): string { BE2(|s| + 1) + s + ['\0'] }

  function EncCell(c: Column, v: Cell): string {
    if v.Null? || c.Dropped? then "n"
    else if v.Toast? then "u"
    else "t" + BE4(|v.value| + 1) + v.value + ['\0']
  }

  /** The pieces from `i` on, one after the other. */
  function Join(pieces: seq<string>, i: nat): string
    requires i <= |pieces|
    decreases |pieces| - i
  {
    if i == |pieces| then "" else pieces[i] + Join(pieces, i + 1)
  }

  function Cells(cols: seq<Column>, row: seq<Cell>): (s: seq<string>)
    requires |cols| == |row|
    ensures |s| == |row|
    ensures forall i | 0 <= i < |row| :: s[i] == EncCell(cols[i], row[i])
  {
    seq(|row|, i requires 0 <= i < |row| => EncCell(cols[i], row[i]))
  }

  function EncTuple(cols: seq<Column>, row: seq<Cell>): string
    requires |cols| == |row|
  {
    "T" + BE4(|cols|) + Join(Cells(cols, row), 0)
  }

  function EncColumn(c: Column, typeNames: bool): string {
    if c.Dropped? then BE2(0)
    else EncStr2(c.name) + if typeNames then EncStr2(c.typ) else ""
  }

  function Columns(cols: seq<Column>, typeNames: bool): (s: seq<string>)
    ensures |s| == |cols|
    ensures forall i | 0 <= i < |cols| :: s[i] == EncColumn(cols[i], typeNames)
  {
    seq(|cols|, i requires 0 <= i < |cols| => EncColumn(cols[i], typeNames))
  }

  function Names(names: seq<string>): (s: seq<string>)
    ensures |s| == |names|
    ensures forall i | 0 <= i < |names| :: s[i] == EncStr2(names[i])
  {
    seq(|names|, i requires 0 <= i < |names| => EncStr2(names[i]))
  }

  /** Keys go with an UPDATE or DELETE on a relation that has an identity index. */
  predicate SendsKeys(o: Options, rel: Relation, insert: bool) {
    !insert && o.keyInfo && rel.identity.Some?
  }

  function EncKeys(o: Options, rel: Relation, insert: bool): string {
    if SendsKeys(o, rel, insert) then "M" + BE2(|rel.identity.value|) + Join(Names(rel.identity.value), 0) else "P"
  }

  function EncColumnInfo(o: Options, rel: Relation, insert: bool): string {
    "C" + BE2(|rel.cols|) + Join(Columns(rel.cols, o.typeNames), 0) + EncKeys(o, rel, insert)
  }

  function EncRel(o: Options, rel: Relation, insert: bool): string {
    EncStr2(rel.schema) + EncStr2(rel.name) + if o.columnInfo then EncColumnInfo(o, rel, insert) else ""
  }

  function EncOld(rel: Relation, was: Option<seq<Cell>>): string
    requires was.Some? ==> |was.value| == |rel.cols|
  {
    if was.Some? then "K" + EncTuple(rel.cols, was.value) else ""
  }

  predicate Fits(rel: Relation, ch: Change) {
    && (!ch.Delete? ==> |ch.newRow| == |rel.cols|)
    && (!ch.Insert? && ch.oldRow.Some? ==> |ch.oldRow.value| == |rel.cols|)
  }

  function EncChange(o: Options, rel: Relation, ch: Change): string
    requires Fits(rel, ch)
  {
    match ch
    case Insert(n) => "I" + EncRel(o, rel, true) + "N" + EncTuple(rel.cols, n)
    case Update(was, n) => "U" + EncRel(o, rel, false) + EncOld(rel, was) + "N" + EncTuple(rel.cols, n)
    case Delete(was) => "D" + EncRel(o, rel, false) + if was.Some? then EncOld(rel, was) else "E"
  }

  function Encode(o: Options, m: Message): string
    requires m.ChangeMsg? ==> Fits(m.rel, m.change)
  {
    match m
    case BeginMsg(lsn, time, xid) => "B" + BE4(0) + BE8(lsn) + BE8(time) + BE4(xid)
    case CommitMsg(lsn, endLsn, time) => "C" + BE4(0) + BE8(lsn) + BE8(endLsn) + BE8(time)
    case ChangeMsg(rel, ch) => EncChange(o, rel, ch)
  }

  /** The first byte says what kind of message it is. */
  lemma {:induction false} EncodeKind(o: Options, m: Message)
    requires m.ChangeMsg? ==> Fits(m.rel, m.change)
    ensures Encode(o, m) != "" && Encode(o, m)[0] in {'B', 'C', 'I', 'U', 'D'}
  {
  }

  // ---- The reader ----------------------------------------------------------------------------------------------

  type Parsed<T> = Option<(T, string)>

  /** `n` bytes that hold one NUL-terminated string. */
  function ParseStr(s: string, n: int): Parsed<string> {
    if 1 <= n <= |s| && |CString(s[..n])| == n - 1 then Some((CString(s[..n]), s[n..])) else None
  }

  function ParseInt2(s: string): Parsed<int> {
    if 2 <= |s| then Some((FromBE2(s[..2]), s[2..])) else None
  }

  function ParseInt4(s: string): Parsed<int> {
    if 4 <= |s| then Some((FromBE4(s[..4]), s[4..])) else None
  }

  function ParseInt8(s: string): Parsed<int> {
    if 8 <= |s| then Some((FromBE8(s[..8]), s[8..])) else None
  }

  function ParseStr2(s: string): Parsed<string> {
    match ParseInt2(s)
    case None => None
    case Some((n, s')) => ParseStr(s', n)
  }

  function ParseCell(s: string): Parsed<Cell> {
    if s == "" then None
    else if s[0] == 'n' then Some((Null, s[1..]))
    else if s[0] == 'u' then Some((Toast, s[1..]))
    else if s[0] == 't' then
      match ParseInt4(s[1..])
      case None => None
      case Some((n, s')) =>
        match ParseStr(s', n)
        case None => None
        case Some((v, s'')) => Some((Text(v), s''))
    else None
  }

  /** `n` things in a row. */
  function ParseMany<T>(one: string -> Parsed<T>, s: string, n: nat): Parsed<seq<T>>
    decreases n
  {
    if n == 0 then Some(([], s))
    else
      match one(s)
      case None => None
      case Some((x, s')) =>
        match ParseMany(one, s', n - 1)
        case None => None
        case Some((xs, s'')) => Some(([x] + xs, s''))
  }

  function ParseTuple(s: string): Parsed<seq<Cell>> {
    if s == "" || s[0] != 'T' then None
    else
      match ParseInt4(s[1..])
      case None => None
      case Some((n, s')) => if 0 <= n <= MAX_ATTRIBUTES then ParseMany(ParseCell, s', n) else None
  }

  function ParseColumn(s: string): Parsed<Column> {
    match ParseInt2(s)
    case None => None
    case Some((n, s')) =>
      if n == 0 then Some((Dropped, s'))
      else
        match ParseStr(s', n)
        case None => None
        case Some((name, s'')) =>
          match ParseStr2(s'')
          case None => None
          case Some((typ, s''')) => Some((Live(name, typ), s'''))
  }

  function ParseKeys(s: string): Parsed<seq<string>> {
    if s == "" then None
    else if s[0] == 'P' then Some(([], s[1..]))
    else if s[0] == 'M' then
      match ParseInt2(s[1..])
      case None => None
      case Some((n, s')) => if 0 <= n <= MAX_ATTRIBUTES then ParseMany(ParseStr2, s', n) else None
    else None
  }

  /** The part behind a 'C': columns, then keys. */
  function ParseColumnInfo(s: string): Parsed<(seq<Column>, seq<string>)> {
    match ParseInt2(s)
    case None => None
    case Some((n, s')) =>
      if !(0 <= n <= MAX_ATTRIBUTES) then None
      else
        match ParseMany(ParseColumn, s', n)
        case None => None
        case Some((cols, s'')) =>
          match ParseKeys(s'')
          case None => None
          case Some((keys, s''')) => Some(((cols, keys), s'''))
  }

  function ParseNames(s: string): Parsed<(string, string)> {
    match ParseStr2(s)
    case None => None
    case Some((schema, s')) =>
      match ParseStr2(s')
      case None => None
      case Some((name, s'')) => Some(((schema, name), s''))
  }

  /** Columns and keys if the next byte is a 'C', else neither. */
  function ParseInfo(s: string): Parsed<(seq<Column>, seq<string>)> {
    if s == "" then None
    else if s[0] == 'C' then ParseColumnInfo(s[1..])
    else Some((([], []), s))
  }

  function ParseRel(s: string): Parsed<(string, string, seq<Column>, seq<string>)> {
    match ParseNames(s)
    case None => None
    case Some(((schema, name), s')) =>
      match ParseInfo(s')
      case None => None
      case Some(((cols, keys), s'')) => Some(((schema, name, cols, keys), s''))
  }

  function ParseNew(s: string): Parsed<seq<Cell>> {
    if s == "" || s[0] != 'N' then None else ParseTuple(s[1..])
  }

  /** An old tuple behind a 'K'; none when another byte follows. */
  function ParseOld(s: string): Parsed<Option<seq<Cell>>> {
    if s == "" then None
    else if s[0] != 'K' then Some((None, s))
    else
      match ParseTuple(s[1..])
      case None => None
      case Some((row, s')) => Some((Some(row), s'))
  }

  function Row(was: Option<seq<Cell>>): seq<Cell> { if was.Some? then was.value else [] }

  function ParseInsert(s: string): Parsed<Decoded> {
    match ParseRel(s)
    case None => None
    case Some(((schema, name, cols, keys), s1)) =>
      match ParseNew(s1)
      case None => None
      case Some((n, s2)) => Some((ChangeD('I', schema, name, cols, keys, false, [], n), s2))
  }

  function ParseUpdate(s: string): Parsed<Decoded> {
    match ParseRel(s)
    case None => None
    case Some(((schema, name, cols, keys), s1)) =>
      match ParseOld(s1)
      case None => None
      case Some((was, s2)) =>
        match ParseNew(s2)
        case None => None
        case Some((n, s3)) => Some((ChangeD('U', schema, name, cols, keys, was.Some?, Row(was), n), s3))
  }

  function ParseDelete(s: string): Parsed<Decoded> {
    match ParseRel(s)
    case None => None
    case Some(((schema, name, cols, keys), s1)) =>
      match ParseOld(s1)
      case None => None
      case Some((Some(was), s2)) => Some((ChangeD('D', schema, name, cols, keys, true, was, []), s2))
      case Some((None, s2)) =>
        if s2 != "" && s2[0] == 'E' then Some((ChangeD('D', schema, name, cols, keys, false, [], []), s2[1..])) else None
  }

  function ParseBegin(s: string): Parsed<Decoded> {
    match ParseInt4(s)
    case None => None
    case Some((_, s1)) =>
      match ParseInt8(s1)
      case None => None
      case Some((lsn, s2)) =>
        match ParseInt8(s2)
        case None => None
        case Some((time, s3)) =>
          match ParseInt4(s3)
          case None => None
          case Some((xid, s4)) => Some((BeginD(lsn, time, xid), s4))
  }

  function ParseCommit(s: string): Parsed<Decoded> {
    match ParseInt4(s)
    case None => None
    case Some((flags, s1)) =>
      if flags != 0 then None
      else
        match ParseInt8(s1)
        case None => None
        case Some((lsn, s2)) =>
          match ParseInt8(s2)
          case None => None
          case Some((endLsn, s3)) =>
            match ParseInt8(s3)
            case None => None
            case Some((time, s4)) => Some((CommitD(lsn, endLsn, time), s4))
  }

  function Parse(s: string): Parsed<Decoded> {
    if s == "" then None
    else if s[0] == 'B' then ParseBegin(s[1..])
    else if s[0] == 'C' then ParseCommit(s[1..])
    else if s[0] == 'I' then ParseInsert(s[1..])
    else if s[0] == 'U' then ParseUpdate(s[1..])
    else if s[0] == 'D' then ParseDelete(s[1..])
    else None
  }

  // ---- Round trip --------------------------------------------------------------------------------------------------

  predicate Name(s: string) { NulFree(s) && |s| + 1 < 0x1_0000 }

  predicate SoundCell(v: Cell) { v.Text? ==> NulFree(v.value) && |v.value| + 1 < 0x8000_0000 }

  predicate SoundRow(row: seq<Cell>) { forall i | 0 <= i < |row| :: SoundCell(row[i]) }

  predicate SoundColumn(c: Column) { c.Live? ==> Name(c.name) && Name(c.typ) }

  predicate SoundRelation(rel: Relation) {
    && Name(rel.schema) && Name(rel.name)
    && |rel.cols| <= MAX_ATTRIBUTES && (forall i | 0 <= i < |rel.cols| :: SoundColumn(rel.cols[i]))
    && (rel.identity.Some? ==>
        && |rel.identity.value| <= MAX_ATTRIBUTES
        && forall i | 0 <= i < |rel.identity.value| :: Name(rel.identity.value[i]))
  }

  predicate SoundChange(rel: Relation, ch: Change) {
    && Fits(rel, ch)
    && (!ch.Delete? ==> SoundRow(ch.newRow))
    && (!ch.Insert? && ch.oldRow.Some? ==> SoundRow(ch.oldRow.value))
  }

  predicate Sound(m: Message) {
    match m
    case BeginMsg(lsn, time, xid) => Int64(lsn) && Int64(time) && 0 <= xid < 0x1_0000_0000
    case CommitMsg(lsn, endLsn, time) => Int64(lsn) && Int64(endLsn) && Int64(time)
    case ChangeMsg(rel, ch) => SoundRelation(rel) && SoundChange(rel, ch)
  }

  /** The row as it arrives: a dropped attribute arrives as null. */
  function Arrived(cols: seq<Column>, row: seq<Cell>): (r: seq<Cell>)
    requires |cols| == |row|
    ensures |r| == |row|
    ensures forall i | 0 <= i < |row| :: r[i] == if cols[i].Dropped? then Null else row[i]
  {
    seq(|row|, i requires 0 <= i < |row| => if cols[i].Dropped? then Null else row[i])
  }

  /** What the client should know about a change: everything it was sent. */
  function DecodedChange(o: Options, rel: Relation, ch: Change): Decoded
    requires Fits(rel, ch)
  {
    var cols := if o.columnInfo then rel.cols else [];
    var keys := if o.columnInfo && SendsKeys(o, rel, ch.Insert?) then rel.identity.value else [];
    match ch
    case Insert(n) => ChangeD('I', rel.schema, rel.name, cols, keys, false, [], Arrived(rel.cols, n))
    case Update(was, n) =>
      ChangeD('U', rel.schema, rel.name, cols, keys, was.Some?,
              if was.Some? then Arrived(rel.cols, was.value) else [], Arrived(rel.cols, n))
    case Delete(was) =>
      ChangeD('D', rel.schema, rel.name, cols, keys, was.Some?,
              if was.Some? then Arrived(rel.cols, was.value) else [], [])
  }

  function DecodedMessage(o: Options, m: Message): Decoded
    requires m.ChangeMsg? ==> Fits(m.rel, m.change)
  {
    match m
    case BeginMsg(lsn, time, xid) => BeginD(lsn, time, xid)
    case CommitMsg(lsn, endLsn, time) => CommitD(lsn, endLsn, time)
    case ChangeMsg(rel, ch) => DecodedChange(o, rel, ch)
  }

  lemma {:induction false} StrRoundTrip(v: string, rest: string)
    requires NulFree(v)
    ensures ParseStr(v + ['\0'] + rest, |v| + 1) == Some((v, rest))
  {
    var s := v + ['\0'] + rest;
    assert s[..|v| + 1] == v + ['\0'] + "";
    CStringStops(v, "");
    assert s[|v| + 1..] == rest;
  }

  lemma {:induction false} Int2RoundTrip(i: int, rest: string)
    requires 0 <= i < 0x1_0000
    ensures ParseInt2(BE2(i) + rest) == Some((i, rest))
  {
    RoundTrip2(i);
    assert (BE2(i) + rest)[..2] == BE2(i) && (BE2(i) + rest)[2..] == rest;
  }

  lemma {:induction false} Int4RoundTrip(i: int, rest: string)
    requires 0 <= i < 0x1_0000_0000
    ensures ParseInt4(BE4(i) + rest) == Some((i, rest))
  {
    RoundTrip4(i);
    assert (BE4(i) + rest)[..4] == BE4(i) && (BE4(i) + rest)[4..] == rest;
  }

  lemma {:induction false} Int8RoundTrip(i: int, rest: string)
    requires Int64(i)
    ensures ParseInt8(BE8(i) + rest) == Some((i, rest))
  {
    RoundTrip8(i);
    assert (BE8(i) + rest)[..8] == BE8(i) && (BE8(i) + rest)[8..] == rest;
  }

  lemma {:induction false} Str2RoundTrip(v: string, rest: string)
    requires Name(v)
    ensures ParseStr2(EncStr2(v) + rest) == Some((v, rest))
  {
    assert EncStr2(v) + rest == BE2(|v| + 1) + (v + ['\0'] + rest);
    Int2RoundTrip(|v| + 1, v + ['\0'] + rest);
    StrRoundTrip(v, rest);
  }

  lemma {:induction false} CellRoundTrip(c: Column, v: Cell, rest: string)
    requires SoundCell(v)
    ensures ParseCell(EncCell(c, v) + rest) == Some((if c.Dropped? then Null else v, rest))
  {
    var s := EncCell(c, v) + rest;
    if v.Text? && c.Live? {
      var tail := v.value + ['\0'] + rest;
      assert s[1..] == BE4(|v.value| + 1) + tail;
      Int4RoundTrip(|v.value| + 1, tail);
      StrRoundTrip(v.value, rest);
    } else {
      assert s[1..] == rest;
    }
  }

  lemma {:induction false} ManyRoundTrip<T>(one: string -> Parsed<T>, pieces: seq<string>, values: seq<T>, i: nat, rest: string)
    requires i <= |pieces| == |values|
    requires forall k, r | 0 <= k < |pieces| :: one(pieces[k] + r) == Some((values[k], r))
    ensures ParseMany(one, Join(pieces, i) + rest, |pieces| - i) == Some((values[i..], rest))
    decreases |pieces| - i
  {
    hide ParseMany;
    hide Join;
    if i < |pieces| {
      var tail := Join(pieces, i + 1) + rest;
      JoinStep(pieces, i, rest);
      ManyRoundTrip(one, pieces, values, i + 1, rest);
      assert one(pieces[i] + tail) == Some((values[i], tail));
      ManyStep(one, pieces[i] + tail, |pieces| - i, values[i], tail, values[i + 1..], rest);
      assert values[i..] == [values[i]] + values[i + 1..];
    } else {
      NoneLeft(one, pieces, rest);
      assert values[i..] == [];
    }
  }

  lemma {:induction false} NoneLeft<T>(one: string -> Parsed<T>, pieces: seq<string>, rest: string)
    ensures Join(pieces, |pieces|) + rest == rest && ParseMany(one, rest, 0) == Some(([], rest))
  {
  }

  lemma {:induction false} JoinStep(pieces: seq<string>, i: nat, rest: string)
    requires i < |pieces|
    ensures Join(pieces, i) + rest == pieces[i] + (Join(pieces, i + 1) + rest)
  {
  }

  lemma {:induction false} ManyStep<T>(one: string -> Parsed<T>, s: string, n: nat, x: T, s': string, xs: seq<T>, rest: string)
    requires n > 0 && one(s) == Some((x, s')) && ParseMany(one, s', n - 1) == Some((xs, rest))
    ensures ParseMany(one, s, n) == Some(([x] + xs, rest))
  {
  }

  lemma {:induction false} TupleRoundTrip(cols: seq<Column>, row: seq<Cell>, rest: string)
    requires |cols| == |row| <= MAX_ATTRIBUTES && SoundRow(row)
    ensures ParseTuple(EncTuple(cols, row) + rest) == Some((Arrived(cols, row), rest))
  {
    hide ParseCell;
    hide ParseMany;
    hide EncCell;
    hide BE4;
    hide FromBE4;
    hide Join;
    var s := EncTuple(cols, row) + rest;
    var tail := Join(Cells(cols, row), 0) + rest;
    assert s[1..] == BE4(|cols|) + tail;
    Int4RoundTrip(|cols|, tail);
    forall k, r | 0 <= k < |row| ensures ParseCell(Cells(cols, row)[k] + r) == Some((Arrived(cols, row)[k], r)) {
      CellRoundTrip(cols[k], row[k], r);
    }
    ManyRoundTrip(ParseCell, Cells(cols, row), Arrived(cols, row), 0, rest);
  }

  lemma {:induction false} ColumnRoundTrip(c: Column, rest: string)
    requires SoundColumn(c)
    ensures ParseColumn(EncColumn(c, true) + rest) == Some((c, rest))
  {
    if c.Live? {
      var tail := EncStr2(c.typ) + rest;
      assert EncColumn(c, true) + rest == BE2(|c.name| + 1) + (c.name + ['\0'] + tail);
      Int2RoundTrip(|c.name| + 1, c.name + ['\0'] + tail);
      StrRoundTrip(c.name, tail);
      Str2RoundTrip(c.typ, rest);
    } else {
      Int2RoundTrip(0, rest);
    }
  }

  lemma {:induction false} KeysRoundTrip(o: Options, rel: Relation, insert: bool, rest: string)
    requires SoundRelation(rel)
    ensures ParseKeys(EncKeys(o, rel, insert) + rest)
         == Some((if SendsKeys(o, rel, insert) then rel.identity.value else [], rest))
  {
    var s := EncKeys(o, rel, insert) + rest;
    if SendsKeys(o, rel, insert) {
      var names := rel.identity.value;
      var tail := Join(Names(names), 0) + rest;
      Behind("M", BE2(|names|), Join(Names(names), 0), rest, "");
      Alone(rest);
      Alone(s);
      Int2RoundTrip(|names|, tail);
      forall k, r | 0 <= k < |names| ensures ParseStr2(Names(names)[k] + r) == Some((names[k], r)) {
        Str2RoundTrip(names[k], r);
      }
      ManyRoundTrip(ParseStr2, Names(names), names, 0, rest);
    } else {
      assert s[1..] == rest;
    }
  }

  lemma {:induction false} ColumnsRoundTrip(cols: seq<Column>, rest: string)
    requires forall k | 0 <= k < |cols| :: SoundColumn(cols[k])
    ensures ParseMany(ParseColumn, Join(Columns(cols, true), 0) + rest, |cols|) == Some((cols, rest))
  {
    forall k, r | 0 <= k < |cols| ensures ParseColumn(Columns(cols, true)[k] + r) == Some((cols[k], r)) {
      ColumnRoundTrip(cols[k], r);
    }
    ManyRoundTrip(ParseColumn, Columns(cols, true), cols, 0, rest);
  }

  lemma {:induction false} ColumnInfoRoundTrip(o: Options, rel: Relation, insert: bool, rest: string)
    requires SoundRelation(rel) && o.typeNames
    ensures ParseColumnInfo(EncColumnInfo(o, rel, insert)[1..] + rest)
         == Some(((rel.cols, if SendsKeys(o, rel, insert) then rel.identity.value else []), rest))
  {
    hide EncKeys;
    hide ParseKeys;
    hide ParseMany;
    hide ParseColumn;
    hide Join;
    hide BE2;
    hide FromBE2;
    var keys := EncKeys(o, rel, insert) + rest;
    var cols := Join(Columns(rel.cols, true), 0) + keys;
    assert EncColumnInfo(o, rel, insert)[1..] + rest == BE2(|rel.cols|) + cols;
    Int2RoundTrip(|rel.cols|, cols);
    ColumnsRoundTrip(rel.cols, keys);
    KeysRoundTrip(o, rel, insert, rest);
  }

  lemma {:induction false} NamesRoundTrip(schema: string, name: string, rest: string)
    requires Name(schema) && Name(name)
    ensures ParseNames(EncStr2(schema) + EncStr2(name) + rest) == Some(((schema, name), rest))
  {
    assert EncStr2(schema) + EncStr2(name) + rest == EncStr2(schema) + (EncStr2(name) + rest);
    Str2RoundTrip(schema, EncStr2(name) + rest);
    Str2RoundTrip(name, rest);
  }

  function SentColumns(o: Options, rel: Relation): seq<Column> { if o.columnInfo then rel.cols else [] }

  function SentKeys(o: Options, rel: Relation, insert: bool): seq<string> {
    if o.columnInfo && SendsKeys(o, rel, insert) then rel.identity.value else []
  }

  lemma {:induction false} InfoRoundTrip(o: Options, rel: Relation, insert: bool, rest: string)
    requires SoundRelation(rel) && (o.columnInfo ==> o.typeNames)
    requires rest != "" && rest[0] != 'C'
    ensures ParseInfo((if o.columnInfo then EncColumnInfo(o, rel, insert) else "") + rest)
         == Some(((SentColumns(o, rel), SentKeys(o, rel, insert)), rest))
  {
    if o.columnInfo {
      var info := EncColumnInfo(o, rel, insert);
      assert info != "" && info[0] == 'C';
      FirstOff(info, rest);
      ColumnInfoRoundTrip(o, rel, insert, rest);
    } else {
      assert "" + rest == rest;
    }
  }

  lemma {:induction false} FirstOff(s: string, rest: string)
    requires s != ""
    ensures (s + rest)[0] == s[0] && (s + rest)[1..] == s[1..] + rest
  {
  }

  /** Without the types the reader takes the next name for a type, so they have to be sent with the
      columns. */
  lemma {:induction false} RelRoundTrip(o: Options, rel: Relation, insert: bool, rest: string)
    requires SoundRelation(rel) && (o.columnInfo ==> o.typeNames)
    requires rest != "" && rest[0] != 'C'
    ensures ParseRel(EncRel(o, rel, insert) + rest)
         == Some(((rel.schema, rel.name, SentColumns(o, rel), SentKeys(o, rel, insert)), rest))
  {
    var info := if o.columnInfo then EncColumnInfo(o, rel, insert) else "";
    InfoRoundTrip(o, rel, insert, rest);
    NamesRoundTrip(rel.schema, rel.name, info + rest);
    ThreeAndRest(EncStr2(rel.schema), EncStr2(rel.name), info, rest);
    RelParses(EncStr2(rel.schema) + EncStr2(rel.name) + (info + rest), (rel.schema, rel.name), info + rest,
              (SentColumns(o, rel), SentKeys(o, rel, insert)), rest);
  }

  lemma {:induction false} ThreeAndRest(a: string, b: string, c: string, rest: string)
    ensures a + b + c + rest == a + b + (c + rest)
  {
  }

  lemma {:induction false} RelParses(s: string, names: (string, string), s1: string,
                                     info: (seq<Column>, seq<string>), s2: string)
    requires ParseNames(s) == Some((names, s1)) && ParseInfo(s1) == Some((info, s2))
    ensures ParseRel(s) == Some(((names.0, names.1, info.0, info.1), s2))
  {
  }

  lemma {:induction false} NewRoundTrip(rel: Relation, n: seq<Cell>, rest: string)
    requires SoundRelation(rel) && |n| == |rel.cols| && SoundRow(n)
    ensures ParseNew("N" + EncTuple(rel.cols, n) + rest) == Some((Arrived(rel.cols, n), rest))
  {
    assert ("N" + EncTuple(rel.cols, n) + rest)[1..] == EncTuple(rel.cols, n) + rest;
    TupleRoundTrip(rel.cols, n, rest);
  }

  lemma {:induction false} OldRoundTrip(rel: Relation, was: Option<seq<Cell>>, rest: string)
    requires SoundRelation(rel) && (was.Some? ==> |was.value| == |rel.cols| && SoundRow(was.value))
    requires was.None? ==> rest != "" && rest[0] != 'K'
    ensures ParseOld(EncOld(rel, was) + rest)
         == Some((ArrivedOld(rel, was), rest))
  {
    hide ParseTuple;
    hide EncTuple;
    var s := EncOld(rel, was) + rest;
    if was.Some? {
      assert s[1..] == EncTuple(rel.cols, was.value) + rest;
      TupleRoundTrip(rel.cols, was.value, rest);
    } else {
      assert s == rest;
    }
  }

  lemma {:induction false} InsertRoundTrip(o: Options, rel: Relation, n: seq<Cell>)
    requires SoundRelation(rel) && SoundChange(rel, Insert(n)) && (o.columnInfo ==> o.typeNames)
    ensures Parse(EncChange(o, rel, Insert(n))) == Some((DecodedChange(o, rel, Insert(n)), ""))
  {
    var tail := "N" + EncTuple(rel.cols, n);
    Behind("I", EncRel(o, rel, true), "N", EncTuple(rel.cols, n), "");
    Alone(tail);
    Alone(EncTuple(rel.cols, n));
    Alone(EncChange(o, rel, Insert(n)));
    RelRoundTrip(o, rel, true, tail);
    NewRoundTrip(rel, n, "");
    InsertParses(EncRel(o, rel, true) + tail, (rel.schema, rel.name, SentColumns(o, rel), SentKeys(o, rel, true)), tail,
                 Arrived(rel.cols, n), "");
    Dispatch(EncChange(o, rel, Insert(n)));
  }

  /** What is behind the first byte of five concatenated parts. */
  lemma {:induction false} Behind(tag: string, a: string, b: string, c: string, d: string)
    requires |tag| == 1
    ensures (tag + a + b + c + d)[1..] == a + (b + (c + d))
    ensures (tag + a + b + c + d)[0] == tag[0]
  {
  }

  lemma {:induction false} InsertShape(s: string)
    requires ParseInsert(s).Some?
    ensures ParseRel(s).Some? && ParseRel(s).value.1 != "" && ParseRel(s).value.1[0] == 'N'
    ensures ParseTuple(ParseRel(s).value.1[1..]).Some?
  {
  }

  /** A new tuple is next. */
  predicate IsNew(s: string) { s != "" && s[0] == 'N' && ParseTuple(s[1..]).Some? }

  lemma {:induction false} UpdateShape(s: string)
    requires ParseUpdate(s).Some?
    ensures ParseRel(s).Some? && ParseRel(s).value.1 != ""
    ensures
      var s1 := ParseRel(s).value.1;
      ParseOld(s1).Some? && (s1[0] == 'K' || s1[0] == 'N') && IsNew(ParseOld(s1).value.1)
  {
  }

  lemma {:induction false} DeleteShape(s: string)
    requires ParseDelete(s).Some?
    ensures ParseRel(s).Some? && ParseRel(s).value.1 != ""
    ensures
      var s1 := ParseRel(s).value.1;
      && (s1[0] == 'K' || s1[0] == 'E')
      && (s1[0] == 'K' ==> ParseTuple(s1[1..]).Some?)
  {
  }

  lemma {:induction false} NewParses(s: string, n: seq<Cell>, rest: string)
    requires s != "" && s[0] == 'N' && ParseTuple(s[1..]) == Some((n, rest))
    ensures ParseNew(s) == Some((n, rest))
  {
  }

  lemma {:induction false} InsertParses(s: string, rel: (string, string, seq<Column>, seq<string>), s1: string,
                                        n: seq<Cell>, s2: string)
    requires ParseRel(s) == Some((rel, s1)) && ParseNew(s1) == Some((n, s2))
    ensures ParseInsert(s) == Some((ChangeD('I', rel.0, rel.1, rel.2, rel.3, false, [], n), s2))
  {
  }

  lemma {:induction false} UpdateParses(s: string, rel: (string, string, seq<Column>, seq<string>), s1: string,
                                        was: Option<seq<Cell>>, s2: string, n: seq<Cell>, s3: string)
    requires ParseRel(s) == Some((rel, s1)) && ParseOld(s1) == Some((was, s2)) && ParseNew(s2) == Some((n, s3))
    ensures ParseUpdate(s) == Some((ChangeD('U', rel.0, rel.1, rel.2, rel.3, was.Some?, Row(was), n), s3))
  {
  }

  lemma {:induction false} DeleteParses(s: string, rel: (string, string, seq<Column>, seq<string>), s1: string,
                                        was: Option<seq<Cell>>, s2: string)
    requires ParseRel(s) == Some((rel, s1)) && ParseOld(s1) == Some((was, s2))
    requires was.None? ==> s2 != "" && s2[0] == 'E'
    ensures ParseDelete(s)
         == Some((ChangeD('D', rel.0, rel.1, rel.2, rel.3, was.Some?, Row(was), []), if was.Some? then s2 else s2[1..]))
  {
  }

  function ArrivedOld(rel: Relation, was: Option<seq<Cell>>): Option<seq<Cell>>
    requires was.Some? ==> |was.value| == |rel.cols|
  {
    if was.Some? then Some(Arrived(rel.cols, was.value)) else None
  }

  lemma {:induction false} UpdateRoundTrip(o: Options, rel: Relation, was: Option<seq<Cell>>, n: seq<Cell>)
    requires SoundRelation(rel) && SoundChange(rel, Update(was, n)) && (o.columnInfo ==> o.typeNames)
    ensures ParseUpdate(EncChange(o, rel, Update(was, n))[1..]) == Some((DecodedChange(o, rel, Update(was, n)), ""))
  {
    var tail := "N" + EncTuple(rel.cols, n);
    var rest := EncOld(rel, was) + tail;
    var s := EncRel(o, rel, false) + rest;
    Behind("U", EncRel(o, rel, false), EncOld(rel, was), "N", EncTuple(rel.cols, n));
    assert tail + "" == tail;
    assert rest[0] == if was.Some? then 'K' else 'N';
    RelRoundTrip(o, rel, false, rest);
    OldRoundTrip(rel, was, tail);
    NewRoundTrip(rel, n, "");
    UpdateParses(s, (rel.schema, rel.name, SentColumns(o, rel), SentKeys(o, rel, false)), rest,
                 ArrivedOld(rel, was), tail, Arrived(rel.cols, n), "");
  }

  lemma {:induction false} DeleteRoundTrip(o: Options, rel: Relation, was: Option<seq<Cell>>)
    requires SoundRelation(rel) && SoundChange(rel, Delete(was)) && (o.columnInfo ==> o.typeNames)
    ensures ParseDelete(EncChange(o, rel, Delete(was))[1..]) == Some((DecodedChange(o, rel, Delete(was)), ""))
  {
    hide EncRel;
    hide ParseRel;
    hide ParseOld;
    hide ParseDelete;
    var tail := if was.Some? then "" else "E";
    var rest := EncOld(rel, was) + tail;
    var s := EncRel(o, rel, false) + rest;
    Behind("D", EncRel(o, rel, false), EncOld(rel, was), tail, "");
    Behind("D", EncRel(o, rel, false), if was.Some? then EncOld(rel, was) else "E", "", "");
    assert EncChange(o, rel, Delete(was))[1..] == s;
    assert rest[0] == if was.Some? then 'K' else 'E';
    RelRoundTrip(o, rel, false, rest);
    OldRoundTrip(rel, was, tail);
    assert "E"[1..] == "";
    DeleteParses(s, (rel.schema, rel.name, SentColumns(o, rel), SentKeys(o, rel, false)), rest,
                 ArrivedOld(rel, was), tail);
  }

  lemma {:induction false} BeginRoundTrip(o: Options, lsn: int, time: int, xid: int)
    requires Int64(lsn) && Int64(time) && 0 <= xid < 0x1_0000_0000
    ensures Parse(Encode(o, BeginMsg(lsn, time, xid))) == Some((BeginD(lsn, time, xid), ""))
  {
    var t3 := BE4(xid) + "";
    var t2 := BE8(time) + t3;
    var t1 := BE8(lsn) + t2;
    assert Encode(o, BeginMsg(lsn, time, xid))[1..] == BE4(0) + t1;
    Int4RoundTrip(0, t1);
    Int8RoundTrip(lsn, t2);
    Int8RoundTrip(time, t3);
    Int4RoundTrip(xid, "");
  }

  lemma {:induction false} CommitRoundTrip(o: Options, lsn: int, endLsn: int, time: int)
    requires Int64(lsn) && Int64(endLsn) && Int64(time)
    ensures Parse(Encode(o, CommitMsg(lsn, endLsn, time))) == Some((CommitD(lsn, endLsn, time), ""))
  {
    var t3 := BE8(time) + "";
    var t2 := BE8(endLsn) + t3;
    var t1 := BE8(lsn) + t2;
    assert Encode(o, CommitMsg(lsn, endLsn, time))[1..] == BE4(0) + t1;
    Int4RoundTrip(0, t1);
    Int8RoundTrip(lsn, t2);
    Int8RoundTrip(endLsn, t3);
    Int8RoundTrip(time, "");
  }

  lemma {:induction false} FirstByte(o: Options, rel: Relation, ch: Change)
    requires Fits(rel, ch)
    ensures EncChange(o, rel, ch) != ""
    ensures EncChange(o, rel, ch)[0] == match ch case Insert(_) => 'I' case Update(_, _) => 'U' case Delete(_) => 'D'
  {
  }

  lemma {:induction false} Dispatch(s: string)
    requires s != ""
    ensures s[0] == 'I' ==> Parse(s) == ParseInsert(s[1..])
    ensures s[0] == 'U' ==> Parse(s) == ParseUpdate(s[1..])
    ensures s[0] == 'D' ==> Parse(s) == ParseDelete(s[1..])
  {
    hide ParseBegin;
    hide ParseCommit;
    hide ParseInsert;
    hide ParseUpdate;
    hide ParseDelete;
  }

  /** The wire round trip: reading the bytes of any message, whatever columns are dropped, null or
      unchanged, with or without column and key lists and old tuple, gives what was sent and leaves
      nothing over. */
  lemma {:induction false} WireRoundTrip(o: Options, m: Message)
    requires Sound(m) && (o.columnInfo ==> o.typeNames)
    ensures Parse(Encode(o, m)) == Some((DecodedMessage(o, m), ""))
  {
    match m
    case BeginMsg(lsn, time, xid) => BeginRoundTrip(o, lsn, time, xid);
    case CommitMsg(lsn, endLsn, time) => CommitRoundTrip(o, lsn, endLsn, time);
    case ChangeMsg(rel, Insert(n)) => InsertRoundTrip(o, rel, n);
    case ChangeMsg(rel, Update(was, n)) =>
      UpdateRoundTrip(o, rel, was, n);
      FirstByte(o, rel, Update(was, n));
      Dispatch(Encode(o, m));
    case ChangeMsg(rel, Delete(was)) =>
      DeleteRoundTrip(o, rel, was);
      FirstByte(o, rel, Delete(was));
      Dispatch(Encode(o, m));
  }

  /** What arrives of a change: its names and columns, the identity with an update or a delete and no keys with an
      insert, the old tuple when there is one, and every value but those of dropped columns, which are null. */
  lemma {:induction false} ChangeArrives(o: Options, rel: Relation, ch: Change)
    requires SoundRelation(rel) && SoundChange(rel, ch) && o.columnInfo && o.keyInfo && o.typeNames
    ensures
      var p := Parse(Encode(o, ChangeMsg(rel, ch)));
      && p.Some? && p.value.1 == "" && p.value.0.ChangeD?
      && var d := p.value.0;
      && d.schema == rel.schema && d.name == rel.name && d.cols == rel.cols
      && d.kind == (match ch case Insert(_) => 'I' case Update(_, _) => 'U' case Delete(_) => 'D')
      && d.keys == (if ch.Insert? || rel.identity.None? then [] else rel.identity.value)
      && (d.hasOld <==> !ch.Insert? && ch.oldRow.Some?) && (!d.hasOld ==> d.oldRow == []) && (ch.Delete? ==> d.newRow == [])
      && (d.hasOld ==> |d.oldRow| == |rel.cols| && forall i | 0 <= i < |rel.cols| ::
           d.oldRow[i] == if rel.cols[i].Dropped? then Null else ch.oldRow.value[i])
      && (!ch.Delete? ==> |d.newRow| == |rel.cols| && forall i | 0 <= i < |rel.cols| ::
           d.newRow[i] == if rel.cols[i].Dropped? then Null else ch.newRow[i])
  {
    WireRoundTrip(o, ChangeMsg(rel, ch));
  }

  /** Messages with equal bytes carry equal content. */
  lemma {:induction false} EncodingInjective(o: Options, o': Options, m: Message, m': Message)
    requires Sound(m) && Sound(m') && (o.columnInfo ==> o.typeNames) && (o'.columnInfo ==> o'.typeNames)
    requires Encode(o, m) == Encode(o', m')
    ensures DecodedMessage(o, m) == DecodedMessage(o', m')
  {
    WireRoundTrip(o, m);
    WireRoundTrip(o', m');
  }
}
