/** Copying a table from MySQL: rows are written as CSV with delimiter `|` and quote `'`, gathered in a buffer
    and sent in pieces; the target reads them by the rules of section 2 of RFC 4180 with those characters, an
    unquoted empty field being null. */
module CopyCsv {
  import opened OptionType
  import opened StringInfos
  import opened Literals
  import opened SqlGen
  import opened CStrings

  const DELIMITER: char := '|'

  // ---- What is written ---------------------------------------------------------------------------------------

  /** Numbers and timestamps go as they are, everything else quoted. */
  datatype Kind = Number | Timestamp | Other

  type Field = Option<string>

  predicate ZeroDate(v: string) {
    v == "0000-00-00" || v == "00:00:00" || v == "0000-00-00 00:00:00" || v == "0000"
  }

  function FieldText(k: Kind, v: Field): string {
    match v
    case None => ""
    case Some(x) => if k.Number? then x else if k.Timestamp? then (if ZeroDate(x) then "" else x) else Quoted(x)
  }

  /** What is meant to arrive: a zero date becomes a null. */
  function Meant(k: Kind, v: Field): Field {
    if v.Some? && k.Timestamp? && ZeroDate(v.value) then None else v
  }

  function RowText(kinds: seq<Kind>, row: seq<Field>, n: nat): string
    requires n <= |row| == |kinds|
  {
    if n == 0 then ""
    else RowText(kinds, row, n - 1) + (if n > 1 then [DELIMITER] else "") + FieldText(kinds[n - 1], row[n - 1])
  }

  predicate Shaped(kinds: seq<Kind>, rows: seq<seq<Field>>) {
    kinds != [] && forall i | 0 <= i < |rows| :: |rows[i]| == |kinds|
  }

  /** Every row on a line of its own. */
  function Lines(kinds: seq<Kind>, rows: seq<seq<Field>>): (r: seq<string>)
    requires Shaped(kinds, rows)
    ensures |r| == |rows| && forall i | 0 <= i < |rows| :: r[i] == RowText(kinds, rows[i], |kinds|) + "\n"
  {
    seq(|rows|, i requires 0 <= i < |rows| => RowText(kinds, rows[i], |kinds|) + "\n")
  }

  function Concat(chunks: seq<string>): string {
    if chunks == [] then "" else Concat(chunks[..|chunks| - 1]) + chunks[|chunks| - 1]
  }

  function Stream(kinds: seq<Kind>, rows: seq<seq<Field>>): string
    requires Shaped(kinds, rows)
  {
    Concat(Lines(kinds, rows))
  }

  lemma {:induction false} ConcatSnoc(chunks: seq<string>, c: string)
    ensures Concat(chunks + [c]) == Concat(chunks) + c
  {
    assert (chunks + [c])[..|chunks|] == chunks;
  }

  lemma {:induction false} ConcatFront(chunks: seq<string>)
    requires chunks != []
    ensures Concat(chunks) == chunks[0] + Concat(chunks[1..])
  {
    if |chunks| == 1 {
      assert chunks[..0] == [] && chunks[1..] == [];
      assert "" + chunks[0] == chunks[0] + "";
    } else {
      var init, last := chunks[..|chunks| - 1], chunks[|chunks| - 1];
      ConcatFront(init);
      assert init[1..] == chunks[1..][..|chunks| - 2];
      assert chunks[0] + Concat(init[1..]) + last == chunks[0] + (Concat(init[1..]) + last);
    }
  }

  // ---- Writing -----------------------------------------------------------------------------------------------

  method QuoteLiteralLocalWithoid(s: StringInfo, rawstr: string, kind: Kind, buffer: PQExpBuffer)
    requires s.Valid() && 2 * |rawstr| + 3 < MAX_ALLOC
    modifies s, s.data, buffer
    ensures s.Valid() && (s.data == old(s.data) || fresh(s.data))
    ensures buffer.data == old(buffer.data) + FieldText(kind, Some(rawstr))
  {
    var needProcess := true;
    if kind == Number {
      needProcess := false;
    } else if kind == Timestamp {
      if rawstr == "0000-00-00" || rawstr == "00:00:00" || rawstr == "0000-00-00 00:00:00" || rawstr == "0000" {
        assert buffer.data + "" == buffer.data;
        return;
      }
      needProcess := false;
    }
    if !needProcess {
      buffer.Append(rawstr);
      return;
    }
    s.Reset();
    s.AppendSpaces(|rawstr| * 2 + 3);
    var newlen := QuoteLiteralInternal(s.data, rawstr);
    s.data[newlen] := '\0';
    buffer.Append(s.data[..newlen]);
  }

  predicate FitsScratch(row: seq<Field>) {
    forall i | 0 <= i < |row| && row[i].Some? :: 2 * |row[i].value| + 3 < MAX_ALLOC
  }

  method AppendRow(s: StringInfo, kinds: seq<Kind>, row: seq<Field>, query: PQExpBuffer)
    requires s.Valid() && |row| == |kinds| && FitsScratch(row)
    modifies s, s.data, query
    ensures s.Valid() && (s.data == old(s.data) || fresh(s.data))
    ensures query.data == old(query.data) + (RowText(kinds, row, |kinds|) + "\n")
  {
    ghost var start := query.data;
    assert start + RowText(kinds, row, 0) == start;
    for i := 0 to |kinds|
      invariant s.Valid() && (s.data == old(s.data) || fresh(s.data))
      invariant query.data == start + RowText(kinds, row, i)
    {
      ghost var before := RowText(kinds, row, i);
      if i != 0 {
        query.Append("|");
      }
      if row[i].Some? {
        QuoteLiteralLocalWithoid(s, row[i].value, kinds[i], query);
      }
      FieldJoins(start, before, if i != 0 then "|" else "", FieldText(kinds[i], row[i]));
    }
    query.Append("\n");
    RowEnds(start, RowText(kinds, row, |kinds|));
  }

  lemma {:induction false} FieldJoins(a: string, b: string, c: string, d: string)
    ensures a + b + c + d == a + (b + c + d)
    ensures c == "" ==> a + b + d == a + (b + c + d)
    ensures d == "" ==> a + b + c == a + (b + c + d)
    ensures c == "" && d == "" ==> a + b == a + (b + c + d)
  {
  }

  lemma {:induction false} RowEnds(a: string, b: string)
    ensures a + b + "\n" == a + (b + "\n")
  {
  }

  /** The connection that the rows go to: what was sent, and how often sending failed. */
  class Target {
    var sent: seq<string>
    var refused: nat

    constructor ()
      ensures sent == [] && refused == 0
    {
      sent, refused := [], 0;
    }

    method PQputCopyData(data: string) returns (ok: bool)
      modifies this
      ensures sent == if ok then old(sent) + [data] else old(sent)
      ensures refused == old(refused) + if ok then 0 else 1
    {
      ok := *;
      if ok {
        sent := sent + [data];
      } else {
        refused := refused + 1;
      }
    }
  }

  /** What was sent is a beginning of the lines. */
  ghost predicate Begun(sent: seq<string>, lines: seq<string>) {
    exists n, rest :: 0 <= n <= |lines| && Concat(sent) + rest == Concat(lines[..n])
  }

  lemma {:induction false} BegunBy(sent: seq<string>, lines: seq<string>, n: nat, rest: string)
    requires n <= |lines| && Concat(sent) + rest == Concat(lines[..n])
    ensures Begun(sent, lines)
  {
  }

  /** One line more, in the buffer and in what is to be sent. */
  lemma {:induction false} LineAdded(sent: string, held: string, lines: seq<string>, n: nat)
    requires n < |lines| && sent + held == Concat(lines[..n])
    ensures sent + (held + lines[n]) == Concat(lines[..n + 1])
  {
    assert lines[..n + 1] == lines[..n] + [lines[n]];
    ConcatSnoc(lines[..n], lines[n]);
    assert sent + (held + lines[n]) == (sent + held) + lines[n];
  }

  /** Send the buffer and empty it. */
  method Flush(query: PQExpBuffer, target: Target) returns (ok: bool)
    modifies query, target
    ensures ok ==> query.data == "" && target.sent == old(target.sent) + [old(query.data)]
    ensures ok ==> Concat(target.sent) == Concat(old(target.sent)) + old(query.data)
    ensures !ok ==> target.sent == old(target.sent)
    ensures target.refused == old(target.refused) + if ok then 0 else 1
  {
    ghost var chunks := target.sent;
    ok := target.PQputCopyData(query.data);
    if ok {
      ConcatSnoc(chunks, query.data);
      query.data := "";
    }
  }

  /** What has been sent and what is in the buffer make up the first `n` lines, and the pieces are long enough. */
  ghost predicate Progress(query: PQExpBuffer, target: Target, lines: seq<string>, n: nat, bufferSize: nat)
    reads query, target
  {
    && n <= |lines| && Concat(target.sent) + query.data == Concat(lines[..n])
    && forall i | 0 <= i < |target.sent| :: |target.sent[i]| >= bufferSize
  }

  lemma {:induction false} LongerPieces(sent: seq<string>, c: string, bufferSize: nat)
    requires (forall i | 0 <= i < |sent| :: |sent[i]| >= bufferSize) && |c| >= bufferSize
    ensures forall i | 0 <= i < |sent + [c]| :: |(sent + [c])[i]| >= bufferSize
  {
  }

  /** One row, and the buffer if it is full. */
  method CopyRow(s: StringInfo, kinds: seq<Kind>, row: seq<Field>, bufferSize: nat, query: PQExpBuffer, target: Target,
                 ghost lines: seq<string>, ghost n: nat) returns (ok: bool)
    requires s.Valid() && |row| == |kinds| && FitsScratch(row)
    requires n < |lines| && lines[n] == RowText(kinds, row, |kinds|) + "\n"
    requires Progress(query, target, lines, n, bufferSize)
    modifies s, s.data, query, target
    ensures s.Valid() && (s.data == old(s.data) || fresh(s.data))
    ensures ok ==> Progress(query, target, lines, n + 1, bufferSize)
    ensures !ok ==> Begun(target.sent, lines) && target.sent == old(target.sent)
    ensures target.refused == old(target.refused) + if ok then 0 else 1
  {
    hide RowText;
    hide Begun;
    hide Concat;
    LineAdded(Concat(target.sent), query.data, lines, n);
    AppendRow(s, kinds, row, query);
    ok := true;
    if |query.data| >= bufferSize {
      BegunBy(target.sent, lines, n + 1, query.data);
      LongerPieces(target.sent, query.data, bufferSize);
      ok := Flush(query, target);
      Alone(Concat(target.sent));
    }
  }

  /** What was sent is a beginning of the first `n` lines. */
  ghost predicate BegunOf(sent: seq<string>, lines: seq<string>, n: nat)
    requires n <= |lines|
  {
    exists rest :: Concat(sent) + rest == Concat(lines[..n])
  }

  /** The row loop; `stops` says behind which rows the process has been told to stop.  Whatever the buffer size, what has
      been sent is all of the rows when it ends well, and a beginning of them when sending fails or behind the row where
      the process is told to stop; nothing else ends it.  All pieces but the last are at least as long as the buffer
      size.  The rows are counted unless sending fails; when stopped, the count covers rows that were never sent. */
  method CopyRows(s: StringInfo, kinds: seq<Kind>, rows: seq<seq<Field>>, stops: seq<bool>, bufferSize: nat, target: Target)
      returns (ok: bool, counted: bool, rowCount: nat)
    requires s.Valid() && Shaped(kinds, rows) && target.sent == [] && target.refused == 0 && |stops| == |rows|
    requires forall i | 0 <= i < |rows| :: FitsScratch(rows[i])
    modifies s, s.data, target
    ensures ok ==> Concat(target.sent) == Stream(kinds, rows) && counted && rowCount == |rows|
    ensures !ok ==> Begun(target.sent, Lines(kinds, rows))
    ensures target.refused == if ok || counted then 0 else 1
    ensures counted ==> rowCount <= |rows| && (forall i | 0 <= i < rowCount - 1 :: !stops[i])
    ensures counted ==> (ok <==> rowCount == 0 || !stops[rowCount - 1])
    ensures counted ==> rowCount <= |rows| && BegunOf(target.sent, Lines(kinds, rows), rowCount)
    ensures forall i | 0 <= i < |target.sent| - 1 :: |target.sent[i]| >= bufferSize
  {
    ghost var lines := Lines(kinds, rows);
    var query := new PQExpBuffer();
    counted, rowCount := false, 0;
    while rowCount < |rows|
      invariant s.Valid() && (s.data == old(s.data) || fresh(s.data)) && fresh(query)
      invariant Progress(query, target, lines, rowCount, bufferSize)
      invariant target.refused == 0 && forall i | 0 <= i < rowCount :: !stops[i]
    {
      ok := CopyRow(s, kinds, rows[rowCount], bufferSize, query, target, lines, rowCount);
      if !ok {
        return;
      }
      rowCount := rowCount + 1;
      if stops[rowCount - 1] {
        BegunBy(target.sent, lines, rowCount, query.data);
        assert BegunOf(target.sent, lines, rowCount);
        return false, true, rowCount;
      }
    }
    assert lines[..rowCount] == lines;
    if |query.data| > 0 {
      BegunBy(target.sent, lines, rowCount, query.data);
      ok := Flush(query, target);
      if !ok {
        return;
      }
    }
    Alone(Concat(target.sent));
    assert Concat(target.sent) + "" == Concat(lines[..rowCount]);
    ok, counted := true, true;
  }

  // ---- Reading -----------------------------------------------------------------------------------------------

  /** The unquoted field at the head of `s`; a quote or a carriage return has no place in one. */
  function ReadBare(s: string): (r: Option<(string, string)>)
    ensures r.Some? ==> |r.value.1| <= |s|
  {
    if s == "" || s[0] == QUOTE || s[0] == '\r' then None
    else if s[0] == DELIMITER || s[0] == '\n' then Some(("", s))
    else Behind(s[0], ReadBare(s[1..]))
  }

  function ReadField(s: string): (r: Option<(Field, string)>)
    ensures r.Some? ==> |r.value.1| <= |s|
  {
    if s != "" && s[0] == QUOTE then
      match LexString(false, s[1..])
      case None => None
      case Some((v, rest)) => Some((Some(v), rest))
    else
      match ReadBare(s)
      case None => None
      case Some((v, rest)) => Some((if v == "" then None else Some(v), rest))
  }

  /** Fields up to the end of the line. */
  function ReadRow(s: string): (r: Option<(seq<Field>, string)>)
    ensures r.Some? ==> |r.value.1| < |s|
    decreases |s|
  {
    match ReadField(s)
    case None => None
    case Some((v, rest)) =>
      if rest == "" then None
      else if rest[0] == '\n' then Some(([v], rest[1..]))
      else if rest[0] != DELIMITER then None
      else
        match ReadRow(rest[1..])
        case None => None
        case Some((vs, rest')) => Some(([v] + vs, rest'))
  }

  function ReadRows(s: string): Option<seq<seq<Field>>>
    decreases |s|
  {
    if s == "" then Some([])
    else
      match ReadRow(s)
      case None => None
      case Some((row, rest)) =>
        match ReadRows(rest)
        case None => None
        case Some(rows) => Some([row] + rows)
  }

  // ---- Round trip --------------------------------------------------------------------------------------------

  predicate Special(c: char) { c == QUOTE || c == '\r' || c == DELIMITER || c == '\n' }

  /** The field can be read back: quoted ones hold no backslash, unquoted ones are not empty and hold none of
      the four characters that mean something. */
  predicate Readable(k: Kind, v: Field) {
    v.Some? ==>
      if k.Other? then BACKSLASH !in v.value
      else (k.Timestamp? && ZeroDate(v.value)) || (v.value != "" && forall c | c in v.value :: !Special(c))
  }

  predicate EndsField(rest: string) { rest != "" && (rest[0] == DELIMITER || rest[0] == '\n') }

  lemma {:induction false} BareBack(v: string, rest: string)
    requires EndsField(rest)
    ensures ReadBare(v + rest) == Some((v, rest)) <==> forall c | c in v :: !Special(c)
  {
    if v == "" {
      assert v + rest == rest;
    } else {
      assert (v + rest)[1..] == v[1..] + rest && v == [v[0]] + v[1..];
      BareBack(v[1..], rest);
      assert v[0] in v && forall c | c in v :: c == v[0] || c in v[1..];
      if ReadBare(v + rest) == Some((v, rest)) {
        assert ([v[0]] + ReadBare(v[1..] + rest).value.0)[1..] == v[1..];
      }
    }
  }

  /** A field reads back exactly when it is readable; in particular a value with a backslash does not. */
  lemma {:induction false} FieldBack(k: Kind, v: Field, rest: string)
    requires EndsField(rest)
    ensures ReadField(FieldText(k, v) + rest) == Some((Meant(k, v), rest)) <==> Readable(k, v)
  {
    var text := FieldText(k, v);
    if text == "" {
      assert text + rest == rest;
    }
    if v.Some? {
      var x := v.value;
      if k.Other? {
        if BACKSLASH in x {
          assert (text + rest)[0] == 'E' && (text + rest)[1..][0] == QUOTE;
          assert ReadBare((text + rest)[1..]) == None;
        } else {
          QuotedLexesBack(x, rest);
        }
      } else if k.Timestamp? && ZeroDate(x) {
      } else if x != "" {
        BareBack(x, rest);
        if (x + rest)[0] == QUOTE && LexString(false, (x + rest)[1..]).Some? {
          LexStringLength(false, (x + rest)[1..]);
          assert QUOTE in x;
        }
      }
    }
  }

  /** A timestamp arrives as it is, but for the four zero dates, which arrive as nulls. */
  lemma {:induction false} TimestampArrives(x: string, rest: string)
    requires rest != "" && (rest[0] == '|' || rest[0] == '\n')
    ensures x in {"0000-00-00", "00:00:00", "0000-00-00 00:00:00", "0000"} ==>
      ReadField(FieldText(Timestamp, Some(x)) + rest) == Some((None, rest))
    ensures (x !in {"0000-00-00", "00:00:00", "0000-00-00 00:00:00", "0000", ""}
             && forall c | c in x :: c != '\'' && c != '|' && c != '\r' && c != '\n') ==>
      ReadField(FieldText(Timestamp, Some(x)) + rest) == Some((Some(x), rest))
  {
    FieldBack(Timestamp, Some(x), rest);
  }

  /** So does a number; any other value arrives when it holds no backslash, the empty one too, and a null as a null. */
  lemma {:induction false} OthersArrive(k: Kind, x: string, rest: string)
    requires rest != "" && (rest[0] == '|' || rest[0] == '\n')
    ensures ReadField(FieldText(k, None) + rest) == Some((None, rest))
    ensures (k.Number? && x != "" && forall c | c in x :: c != '\'' && c != '|' && c != '\r' && c != '\n') ==>
      ReadField(FieldText(k, Some(x)) + rest) == Some((Some(x), rest))
    ensures k.Other? ==> (ReadField(FieldText(k, Some(x)) + rest) == Some((Some(x), rest)) <==> '\\' !in x)
  {
    FieldBack(k, None, rest);
    FieldBack(k, Some(x), rest);
  }

  // The same texts from the front.

  function RowFrom(kinds: seq<Kind>, row: seq<Field>, i: nat): string
    requires i < |row| == |kinds|
    decreases |row| - i
  {
    FieldText(kinds[i], row[i]) + if i + 1 < |row| then [DELIMITER] + RowFrom(kinds, row, i + 1) else ""
  }

  lemma {:induction false} RowInTwo(kinds: seq<Kind>, row: seq<Field>, i: nat)
    requires i < |row| == |kinds|
    ensures RowText(kinds, row, |row|) == RowText(kinds, row, i) + (if i > 0 then [DELIMITER] else "") + RowFrom(kinds, row, i)
    decreases |row| - i
  {
    var a, d, f := RowText(kinds, row, i), if i > 0 then [DELIMITER] else "", FieldText(kinds[i], row[i]);
    if i + 1 < |row| {
      RowInTwo(kinds, row, i + 1);
      FiveParts(a, d, f, [DELIMITER], RowFrom(kinds, row, i + 1));
    } else {
      FiveParts(a, d, f, "", "");
      Alone(f);
      Alone(a + d + f);
    }
  }

  lemma {:induction false} FiveParts(a: string, b: string, c: string, d: string, e: string)
    ensures (a + b + c) + d + e == a + b + (c + (d + e))
  {
  }

  function MeantRow(kinds: seq<Kind>, row: seq<Field>): (r: seq<Field>)
    requires |kinds| == |row|
    ensures |r| == |row| && forall i | 0 <= i < |row| :: r[i] == Meant(kinds[i], row[i])
  {
    seq(|row|, i requires 0 <= i < |row| => Meant(kinds[i], row[i]))
  }

  function MeantRows(kinds: seq<Kind>, rows: seq<seq<Field>>): (r: seq<seq<Field>>)
    requires Shaped(kinds, rows)
    ensures |r| == |rows| && forall i | 0 <= i < |rows| :: r[i] == MeantRow(kinds, rows[i])
  {
    seq(|rows|, i requires 0 <= i < |rows| => MeantRow(kinds, rows[i]))
  }

  predicate ReadableRow(kinds: seq<Kind>, row: seq<Field>) {
    |kinds| == |row| && forall i | 0 <= i < |row| :: Readable(kinds[i], row[i])
  }

  lemma {:induction false} FieldFirst(text: string, d: string, more: string, rest: string)
    ensures (text + (d + more)) + "\n" + rest == text + (d + (more + "\n" + rest))
    ensures (text + "") + "\n" + rest == text + ("\n" + rest)
  {
  }

  lemma {:induction false} RowBack(kinds: seq<Kind>, row: seq<Field>, i: nat, rest: string)
    requires ReadableRow(kinds, row) && i < |row|
    ensures ReadRow(RowFrom(kinds, row, i) + "\n" + rest) == Some((MeantRow(kinds, row)[i..], rest))
    decreases |row| - i
  {
    hide ReadRow;
    hide ReadField;
    hide FieldText;
    hide Readable;
    var text, meant := FieldText(kinds[i], row[i]), MeantRow(kinds, row);
    if i + 1 < |row| {
      var next := RowFrom(kinds, row, i + 1) + "\n" + rest;
      var tail := [DELIMITER] + next;
      FieldFirst(text, [DELIMITER], RowFrom(kinds, row, i + 1), rest);
      FieldBack(kinds[i], row[i], tail);
      assert tail[1..] == next;
      RowBack(kinds, row, i + 1, rest);
      FieldThenRow(text + tail, meant[i], tail, meant[i + 1..], rest);
      assert meant[i..] == [meant[i]] + meant[i + 1..];
    } else {
      var tail := "\n" + rest;
      FieldFirst(text, "", "", rest);
      FieldBack(kinds[i], row[i], tail);
      assert tail[1..] == rest;
      LastField(text + tail, meant[i], tail, rest);
      assert meant[i..] == [meant[i]];
    }
  }

  lemma {:induction false} FieldThenRow(s: string, v: Field, tail: string, vs: seq<Field>, rest: string)
    requires ReadField(s) == Some((v, tail)) && tail != "" && tail[0] == DELIMITER && ReadRow(tail[1..]) == Some((vs, rest))
    ensures ReadRow(s) == Some(([v] + vs, rest))
  {
  }

  lemma {:induction false} LastField(s: string, v: Field, tail: string, rest: string)
    requires ReadField(s) == Some((v, tail)) && tail != "" && tail[0] == '\n' && tail[1..] == rest
    ensures ReadRow(s) == Some(([v], rest))
  {
  }

  lemma {:induction false} LineBack(kinds: seq<Kind>, row: seq<Field>, rest: string)
    requires ReadableRow(kinds, row) && row != []
    ensures ReadRow(RowText(kinds, row, |kinds|) + "\n" + rest) == Some((MeantRow(kinds, row), rest))
  {
    RowInTwo(kinds, row, 0);
    assert RowText(kinds, row, |kinds|) == RowFrom(kinds, row, 0);
    RowBack(kinds, row, 0, rest);
    assert MeantRow(kinds, row)[0..] == MeantRow(kinds, row);
  }

  /** Reading the stream gives the rows back: nulls apart from empty strings, zero dates as nulls. */
  lemma {:induction false} CsvRoundTrip(kinds: seq<Kind>, rows: seq<seq<Field>>)
    requires Shaped(kinds, rows) && forall k | 0 <= k < |rows| :: ReadableRow(kinds, rows[k])
    ensures ReadRows(Stream(kinds, rows)) == Some(MeantRows(kinds, rows))
    decreases |rows|
  {
    if rows != [] {
      var tail := Stream(kinds, rows[1..]);
      StreamFront(kinds, rows);
      LineBack(kinds, rows[0], tail);
      CsvRoundTrip(kinds, rows[1..]);
      RowsStep(RowText(kinds, rows[0], |kinds|) + "\n" + tail, MeantRow(kinds, rows[0]), tail, MeantRows(kinds, rows[1..]));
    }
  }

  lemma {:induction false} StreamFront(kinds: seq<Kind>, rows: seq<seq<Field>>)
    requires Shaped(kinds, rows) && rows != []
    ensures Shaped(kinds, rows[1..])
    ensures Stream(kinds, rows) == RowText(kinds, rows[0], |kinds|) + "\n" + Stream(kinds, rows[1..])
    ensures MeantRows(kinds, rows) == [MeantRow(kinds, rows[0])] + MeantRows(kinds, rows[1..])
  {
    hide MeantRow;
    hide RowText;
    hide Concat;
    ConcatFront(Lines(kinds, rows));
    LinesFront(kinds, rows);
  }

  lemma {:induction false} LinesFront(kinds: seq<Kind>, rows: seq<seq<Field>>)
    requires Shaped(kinds, rows) && rows != []
    ensures Shaped(kinds, rows[1..]) && Lines(kinds, rows)[1..] == Lines(kinds, rows[1..])
    ensures MeantRows(kinds, rows) == [MeantRow(kinds, rows[0])] + MeantRows(kinds, rows[1..])
  {
    hide MeantRow;
    hide RowText;
  }

  lemma {:induction false} RowsStep(s: string, row: seq<Field>, rest: string, rows: seq<seq<Field>>)
    requires s != "" && ReadRow(s) == Some((row, rest)) && ReadRows(rest) == Some(rows)
    ensures ReadRows(s) == Some([row] + rows)
  {
  }
}
