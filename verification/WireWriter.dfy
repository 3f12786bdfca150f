/** The output plugin: it appends a message to a byte buffer, piece by piece. */
module WireWriter {
  import opened OptionType
  import opened BigEndian
  import opened StringInfos
  import opened Wire

  method PqSendByte(buf: StringInfo, b: char)
    requires buf.Valid() && buf.len + 1 < MAX_ALLOC
    modifies buf, buf.data
    ensures buf.Valid() && buf.Contents() == old(buf.Contents()) + [b]
    ensures buf.data == old(buf.data) || fresh(buf.data)
  {
    buf.AppendChar(b);
  }

  /** `b` bytes of `i`; other widths write nothing. */
  method PqSendInt(buf: StringInfo, i: int, b: int)
    requires buf.Valid() && buf.len + 4 < MAX_ALLOC
    modifies buf, buf.data
    ensures buf.Valid()
    ensures buf.Contents() == old(buf.Contents())
                            + if b == 1 then [Byte(i)] else if b == 2 then BE2(i) else if b == 4 then BE4(i) else ""
    ensures buf.data == old(buf.data) || fresh(buf.data)
  {
    if b == 1 {
      buf.AppendBinary([Byte(i)]);
    } else if b == 2 {
      buf.AppendBinary([Byte(i / 256), Byte(i)]);
    } else if b == 4 {
      buf.AppendBinary([Byte(i / 0x100_0000), Byte(i / 0x1_0000), Byte(i / 256), Byte(i)]);
      assert i / 0x1_0000 / 256 == i / 0x100_0000;
      assert BE4(i) == [Byte(i / 0x100_0000), Byte(i / 0x1_0000), Byte(i / 256), Byte(i)];
    }
  }

  method PqSendInt64(buf: StringInfo, i: int)
    requires buf.Valid() && buf.len + 8 < MAX_ALLOC
    modifies buf, buf.data
    ensures buf.Valid() && buf.Contents() == old(buf.Contents()) + BE8(i)
    ensures buf.data == old(buf.data) || fresh(buf.data)
  {
    PqSendInt(buf, i / 0x1_0000_0000, 4);
    PqSendInt(buf, i, 4);
  }

  /** The length and the NUL-terminated string. */
  method WriteString(buf: StringInfo, s: string)
    requires buf.Valid() && buf.len + |EncStr2(s)| + 4 < MAX_ALLOC
    modifies buf, buf.data
    ensures buf.Valid() && buf.Contents() == old(buf.Contents()) + EncStr2(s)
    ensures buf.data == old(buf.data) || fresh(buf.data)
  {
    var len := |s| + 1;
    PqSendInt(buf, len, 2);
    buf.AppendBinary(s + ['\0']);
  }

  // ---- Concatenation is associative --------------------------------------------------------------------------

  lemma {:induction false} Cat2(x: string, a: string, b: string)
    ensures x + a + b == x + (a + b)
  {
  }

  lemma {:induction false} Cat3(x: string, a: string, b: string, c: string)
    ensures x + a + b + c == x + (a + b + c)
  {
  }

  lemma {:induction false} Cat4(x: string, a: string, b: string, c: string, d: string)
    ensures x + a + b + c + d == x + (a + b + c + d)
  {
  }

  lemma {:induction false} Cat5(x: string, a: string, b: string, c: string, d: string, e: string)
    ensures x + a + b + c + d + e == x + (a + b + c + d + e)
  {
  }

  // ---- Tuples, columns and keys --------------------------------------------------------------------------------

  method WriteCell(buf: StringInfo, c: Column, v: Cell)
    requires buf.Valid() && buf.len + |EncCell(c, v)| + 4 < MAX_ALLOC
    modifies buf, buf.data
    ensures buf.Valid() && buf.Contents() == old(buf.Contents()) + EncCell(c, v)
    ensures buf.data == old(buf.data) || fresh(buf.data)
  {
    ghost var at := buf.Contents();
    if v.Null? || c.Dropped? {
      PqSendByte(buf, 'n');
      return;
    }
    if v.Toast? {
      PqSendByte(buf, 'u');
      return;
    }
    PqSendByte(buf, 't');
    var len := |v.value| + 1;
    PqSendInt(buf, len, 4);
    buf.AppendBinary(v.value + ['\0']);
    Cat3(at, "t", BE4(len), v.value + ['\0']);
    Cat2("t" + BE4(len), v.value, ['\0']);
  }

  method WriteTuple(buf: StringInfo, cols: seq<Column>, row: seq<Cell>)
    requires |cols| == |row|
    requires buf.Valid() && buf.len + |EncTuple(cols, row)| + 4 < MAX_ALLOC
    modifies buf, buf.data
    ensures buf.Valid() && buf.Contents() == old(buf.Contents()) + EncTuple(cols, row)
    ensures buf.data == old(buf.data) || fresh(buf.data)
  {
    ghost var cells := Cells(cols, row);
    ghost var all := buf.Contents() + EncTuple(cols, row);
    Cat3(buf.Contents(), "T", BE4(|cols|), Join(cells, 0));
    PqSendByte(buf, 'T');
    PqSendInt(buf, |cols|, 4);
    for i := 0 to |cols|
      invariant buf.Valid() && (buf.data == old(buf.data) || fresh(buf.data))
      invariant buf.Contents() + Join(cells, i) == all
    {
      Cat2(buf.Contents(), cells[i], Join(cells, i + 1));
      WriteCell(buf, cols[i], row[i]);
    }
  }

  method WriteColumn(buf: StringInfo, c: Column, typeNames: bool)
    requires buf.Valid() && buf.len + |EncColumn(c, typeNames)| + 4 < MAX_ALLOC
    modifies buf, buf.data
    ensures buf.Valid() && buf.Contents() == old(buf.Contents()) + EncColumn(c, typeNames)
    ensures buf.data == old(buf.data) || fresh(buf.data)
  {
    if c.Dropped? {
      PqSendInt(buf, 0, 2);
      return;
    }
    ghost var at := buf.Contents();
    Cat2(at, EncStr2(c.name), if typeNames then EncStr2(c.typ) else "");
    WriteString(buf, c.name);
    if typeNames {
      WriteString(buf, c.typ);
    }
  }

  method WriteColumnInfo(buf: StringInfo, o: Options, rel: Relation, insert: bool)
    requires buf.Valid() && buf.len + |EncColumnInfo(o, rel, insert)| + 4 < MAX_ALLOC
    modifies buf, buf.data
    ensures buf.Valid() && buf.Contents() == old(buf.Contents()) + EncColumnInfo(o, rel, insert)
    ensures buf.data == old(buf.data) || fresh(buf.data)
  {
    hide EncKeys;
    hide BE2;
    ghost var cols := Columns(rel.cols, o.typeNames);
    ghost var keys := EncKeys(o, rel, insert);
    ghost var all := buf.Contents() + EncColumnInfo(o, rel, insert);
    Cat4(buf.Contents(), "C", BE2(|rel.cols|), Join(cols, 0), keys);
    PqSendByte(buf, 'C');
    PqSendInt(buf, |rel.cols|, 2);
    for i := 0 to |rel.cols|
      invariant buf.Valid() && (buf.data == old(buf.data) || fresh(buf.data))
      invariant buf.Contents() + Join(cols, i) + keys == all
    {
      Cat2(buf.Contents(), cols[i], Join(cols, i + 1));
      assert |all| == |buf.Contents() + Join(cols, i)| + |keys|;
      WriteColumn(buf, rel.cols[i], o.typeNames);
    }
    assert buf.Contents() + Join(cols, |rel.cols|) == buf.Contents();
    WriteKeys(buf, o, rel, insert);
  }

  method WriteKeys(buf: StringInfo, o: Options, rel: Relation, insert: bool)
    requires buf.Valid() && buf.len + |EncKeys(o, rel, insert)| + 4 < MAX_ALLOC
    modifies buf, buf.data
    ensures buf.Valid() && buf.Contents() == old(buf.Contents()) + EncKeys(o, rel, insert)
    ensures buf.data == old(buf.data) || fresh(buf.data)
  {
    hide BE2;
    if !insert && o.keyInfo {
      if rel.identity.None? {
        PqSendByte(buf, 'P');
        return;
      }
      var names := rel.identity.value;
      ghost var all := buf.Contents() + EncKeys(o, rel, insert);
      Cat3(buf.Contents(), "M", BE2(|names|), Join(Names(names), 0));
      PqSendByte(buf, 'M');
      PqSendInt(buf, |names|, 2);
      for i := 0 to |names|
        invariant buf.Valid() && (buf.data == old(buf.data) || fresh(buf.data))
        invariant buf.Contents() + Join(Names(names), i) == all
      {
        Cat2(buf.Contents(), EncStr2(names[i]), Join(Names(names), i + 1));
        WriteString(buf, names[i]);
      }
    } else {
      PqSendByte(buf, 'P');
    }
  }

  method WriteRel(buf: StringInfo, o: Options, rel: Relation, insert: bool)
    requires buf.Valid() && buf.len + |EncRel(o, rel, insert)| + 4 < MAX_ALLOC
    modifies buf, buf.data
    ensures buf.Valid() && buf.Contents() == old(buf.Contents()) + EncRel(o, rel, insert)
    ensures buf.data == old(buf.data) || fresh(buf.data)
  {
    ghost var info := if o.columnInfo then EncColumnInfo(o, rel, insert) else "";
    Cat3(buf.Contents(), EncStr2(rel.schema), EncStr2(rel.name), info);
    assert |EncRel(o, rel, insert)| == |EncStr2(rel.schema)| + |EncStr2(rel.name)| + |info|;
    WriteString(buf, rel.schema);
    WriteString(buf, rel.name);
    if o.columnInfo {
      WriteColumnInfo(buf, o, rel, insert);
    }
  }

  // ---- The callbacks -------------------------------------------------------------------------------------------

  /** The BEGIN, COMMIT and change callbacks write exactly the bytes of the message. */
  method WriteBegin(buf: StringInfo, o: Options, finalLsn: int, time: int, xid: int)
    requires buf.Valid() && buf.len + 40 < MAX_ALLOC
    modifies buf, buf.data
    ensures buf.Valid() && buf.Contents() == old(buf.Contents()) + Encode(o, BeginMsg(finalLsn, time, xid))
  {
    var flags := 0;
    Cat5(buf.Contents(), "B", BE4(flags), BE8(finalLsn), BE8(time), BE4(xid));
    PqSendByte(buf, 'B');
    PqSendInt(buf, flags, 4);
    PqSendInt64(buf, finalLsn);
    PqSendInt64(buf, time);
    PqSendInt(buf, xid, 4);
  }

  method WriteCommit(buf: StringInfo, o: Options, commitLsn: int, endLsn: int, time: int)
    requires buf.Valid() && buf.len + 40 < MAX_ALLOC
    modifies buf, buf.data
    ensures buf.Valid() && buf.Contents() == old(buf.Contents()) + Encode(o, CommitMsg(commitLsn, endLsn, time))
  {
    var flags := 0;
    Cat5(buf.Contents(), "C", BE4(flags), BE8(commitLsn), BE8(endLsn), BE8(time));
    PqSendByte(buf, 'C');
    PqSendInt(buf, flags, 4);
    PqSendInt64(buf, commitLsn);
    PqSendInt64(buf, endLsn);
    PqSendInt64(buf, time);
  }

  method WriteOld(buf: StringInfo, rel: Relation, was: Option<seq<Cell>>)
    requires was.Some? ==> |was.value| == |rel.cols|
    requires buf.Valid() && buf.len + |EncOld(rel, was)| + 4 < MAX_ALLOC
    modifies buf, buf.data
    ensures buf.Valid() && buf.Contents() == old(buf.Contents()) + EncOld(rel, was)
    ensures buf.data == old(buf.data) || fresh(buf.data)
  {
    if was.Some? {
      Cat2(buf.Contents(), "K", EncTuple(rel.cols, was.value));
      PqSendByte(buf, 'K');
      WriteTuple(buf, rel.cols, was.value);
    }
  }

  method WriteInsert(buf: StringInfo, o: Options, rel: Relation, n: seq<Cell>)
    requires Fits(rel, Insert(n))
    requires buf.Valid() && buf.len + |EncChange(o, rel, Insert(n))| + 4 < MAX_ALLOC
    modifies buf, buf.data
    ensures buf.Valid() && buf.Contents() == old(buf.Contents()) + EncChange(o, rel, Insert(n))
  {
    Cat4(buf.Contents(), "I", EncRel(o, rel, true), "N", EncTuple(rel.cols, n));
    PqSendByte(buf, 'I');
    WriteRel(buf, o, rel, true);
    PqSendByte(buf, 'N');
    WriteTuple(buf, rel.cols, n);
  }

  method WriteUpdate(buf: StringInfo, o: Options, rel: Relation, was: Option<seq<Cell>>, n: seq<Cell>)
    requires Fits(rel, Update(was, n))
    requires buf.Valid() && buf.len + |EncChange(o, rel, Update(was, n))| + 4 < MAX_ALLOC
    modifies buf, buf.data
    ensures buf.Valid() && buf.Contents() == old(buf.Contents()) + EncChange(o, rel, Update(was, n))
  {
    Cat5(buf.Contents(), "U", EncRel(o, rel, false), EncOld(rel, was), "N", EncTuple(rel.cols, n));
    PqSendByte(buf, 'U');
    WriteRel(buf, o, rel, false);
    WriteOld(buf, rel, was);
    PqSendByte(buf, 'N');
    WriteTuple(buf, rel.cols, n);
  }

  method WriteDelete(buf: StringInfo, o: Options, rel: Relation, was: Option<seq<Cell>>)
    requires Fits(rel, Delete(was))
    requires buf.Valid() && buf.len + |EncChange(o, rel, Delete(was))| + 4 < MAX_ALLOC
    modifies buf, buf.data
    ensures buf.Valid() && buf.Contents() == old(buf.Contents()) + EncChange(o, rel, Delete(was))
  {
    Cat3(buf.Contents(), "D", EncRel(o, rel, false), if was.Some? then EncOld(rel, was) else "E");
    PqSendByte(buf, 'D');
    WriteRel(buf, o, rel, false);
    if was.Some? {
      WriteOld(buf, rel, was);
    } else {
      PqSendByte(buf, 'E');
    }
  }

  method WriteChange(buf: StringInfo, o: Options, rel: Relation, ch: Change)
    requires Fits(rel, ch)
    requires buf.Valid() && buf.len + |EncChange(o, rel, ch)| + 4 < MAX_ALLOC
    modifies buf, buf.data
    ensures buf.Valid() && buf.Contents() == old(buf.Contents()) + Encode(o, ChangeMsg(rel, ch))
  {
    match ch {
      case Insert(n) => WriteInsert(buf, o, rel, n);
      case Update(was, n) => WriteUpdate(buf, o, rel, was, n);
      case Delete(was) => WriteDelete(buf, o, rel, was);
    }
  }
}
