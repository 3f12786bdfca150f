/** The client's part in one piece: from the bytes of a message to the text that is logged. */
module Translation {
  import opened StringInfos
  import opened CStrings
  import opened Wire
  import opened WireReader
  import opened SqlGen

  /** A message whose statement can be printed: every live value has a text that fits the scratch buffer. */
  predicate Translatable(d: Decoded) {
    d.ChangeD? ==> Matching(d) && (d.kind == 'I' || d.kind == 'U' || d.kind == 'D') && CleanChange(d)
  }

  /** Decode what was received into a message of its own. */
  method Received(bytes: string, ghost o: Options, ghost m: Message) returns (msg: DecodeMessage)
    requires Sound(m) && (o.columnInfo ==> o.typeNames) && bytes == Encode(o, m)
    ensures fresh(msg.Repr()) && msg.Valid() && msg.View() == DecodedMessage(o, m)
    ensures msg.newtuple.Sound() && msg.oldtuple.Sound()
  {
    WireRoundTrip(o, m);
    var s := new Cursor(bytes);
    msg := new DecodeMessage();
    var ok := msg.BdrProcessRemoteAction(s);
  }

  /** Decode what was received and print it. */
  method Translate(bytes: string, scratch: StringInfo, ghost o: Options, ghost m: Message)
      returns (rc: int, typ: char, text: string)
    requires Sound(m) && (o.columnInfo ==> o.typeNames) && bytes == Encode(o, m)
    requires Translatable(DecodedMessage(o, m)) && scratch.Valid()
    modifies scratch, scratch.data
    ensures scratch.Valid() && (scratch.data == old(scratch.data) || fresh(scratch.data))
    ensures (typ == 'B' <==> m.BeginMsg?) && (typ == 'C' <==> m.CommitMsg?)
    ensures rc == 0 <==> !(m.ChangeMsg? && OutputOf(DecodedMessage(o, m)).Refused?)
    ensures text == MessageText(DecodedMessage(o, m))
  {
    var buffer := new PQExpBuffer();
    var msg := Received(bytes, o, m);
    typ := msg.typ;
    assert (typ == 'B' <==> m.BeginMsg?) && (typ == 'C' <==> m.CommitMsg?);
    hide OutputOf;
    hide DecodedMessage;
    rc := OutPutTupleToSql(msg, scratch, buffer);
    text := buffer.data;
    Alone(MessageText(DecodedMessage(o, m)));
  }
}
