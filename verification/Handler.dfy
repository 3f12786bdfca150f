/** The decoder handler: the three positions, the status message that reports them, and the loop that takes
    messages from the replication connection. */
module Handler {
  import opened OptionType
  import opened BigEndian
  import R = Receive

  predicate Lsn(x: int) { 0 <= x < 0x1_0000_0000_0000_0000 }

  /** A position is unsigned; on the wire it travels as a signed number with the same bits. */
  function Unsigned64(i: int): int { if i < 0 then i + 0x1_0000_0000_0000_0000 else i }

  function PositionAt(s: string, at: nat): int
    requires at + 8 <= |s|
  {
    Unsigned64(FromBE8(s[at..at + 8]))
  }

  lemma {:induction false} PositionRoundTrip(x: int)
    requires Lsn(x)
    ensures Unsigned64(FromBE8(BE8(x))) == x
  {
    var i := Signed64(x);
    RoundTrip8(i);
    SameBits(x, i);
  }

  lemma {:induction false} Shifted(i: int)
    ensures (i + 0x1_0000_0000_0000_0000) / 0x1_0000_0000 == i / 0x1_0000_0000 + 0x1_0000_0000
    ensures (i + 0x1_0000_0000) % 0x1_0000_0000 == i % 0x1_0000_0000
    ensures (i + 0x1_0000_0000_0000_0000) % 0x1_0000_0000 == i % 0x1_0000_0000
  {
  }

  /** Numbers that differ by 2^64 have the same bytes. */
  lemma {:induction false} SameBits(x: int, i: int)
    requires x == i || x == i + 0x1_0000_0000_0000_0000
    ensures BE8(x) == BE8(i)
  {
    if x != i {
      var h := i / 0x1_0000_0000;
      Shifted(i);
      Shifted(h);
      BE4Mod(h + 0x1_0000_0000);
      BE4Mod(h);
      BE4Mod(x);
      BE4Mod(i);
    }
  }

  // ---- The two halves by hand --------------------------------------------------------------------------------

  method FeSendint64(i: int, buf: array<char>, at: nat)
    requires at + 8 <= buf.Length
    modifies buf
    ensures buf[at..at + 8] == BE8(i)
    ensures forall k | 0 <= k < buf.Length && !(at <= k < at + 8) :: buf[k] == old(buf[k])
  {
    var n32 := i / 0x1_0000_0000;
    buf[at], buf[at + 1], buf[at + 2], buf[at + 3] := Byte(n32 / 0x100_0000), Byte(n32 / 0x1_0000), Byte(n32 / 256), Byte(n32);
    n32 := i;
    buf[at + 4], buf[at + 5], buf[at + 6], buf[at + 7] := Byte(n32 / 0x100_0000), Byte(n32 / 0x1_0000), Byte(n32 / 256), Byte(n32);
    FourBytes(i / 0x1_0000_0000);
    FourBytes(i);
  }

  lemma {:induction false} FourBytes(i: int)
    ensures BE4(i) == [Byte(i / 0x100_0000), Byte(i / 0x1_0000), Byte(i / 256), Byte(i)]
  {
    assert i / 0x1_0000 / 256 == i / 0x100_0000;
  }

  /** Reading in the handler and reading through the message cursor agree: both are `FromBE8`. */
  method FeRecvint64(buf: string, at: nat) returns (i: int)
    requires at + 8 <= |buf|
    ensures i == FromBE8(buf[at..at + 8])
  {
    var h32 := FromBE4(buf[at..at + 4]);
    var l32 := FromBE4(buf[at + 4..at + 8]);
    i := Signed64(h32 * 0x1_0000_0000 + l32);
    assert buf[at..at + 8][..4] == buf[at..at + 4] && buf[at..at + 8][4..] == buf[at + 4..at + 8];
  }

  // ---- Status messages ---------------------------------------------------------------------------------------

  /** A Standby Status Update: written, flushed and applied position, time, and whether to answer. */
  function StatusUpdate(write: int, flush: int, now: int, answer: bool): (s: string)
    ensures |s| == 34
  {
    "r" + BE8(write) + BE8(flush) + BE8(0) + BE8(now) + [if answer then 1 as char else 0 as char]
  }

  lemma {:induction false} UpdateParts(a: string, b: string, c: string, d: string, e: string, f: string)
    requires |a| == 1 && |b| == |c| == |d| == |e| == 8 && |f| == 1
    ensures
      var s := a + b + c + d + e + f;
      s[0] == a[0] && s[1..9] == b && s[9..17] == c && s[17..25] == d && s[25..33] == e && s[33] == f[0]
  {
  }

  /** What the server reads from it. */
  lemma {:induction false} ServerReads(write: int, flush: int, now: int, answer: bool)
    requires Lsn(write) && Lsn(flush)
    ensures
      var s := StatusUpdate(write, flush, now, answer);
      PositionAt(s, 1) == write && PositionAt(s, 9) == flush && PositionAt(s, 17) == 0
  {
    UpdateParts("r", BE8(write), BE8(flush), BE8(0), BE8(now), [if answer then 1 as char else 0 as char]);
    PositionRoundTrip(write);
    PositionRoundTrip(flush);
    PositionRoundTrip(0);
  }

  // ---- What arrives ------------------------------------------------------------------------------------------

  /** A received piece of the stream, nothing within the waiting time, the end of the stream, or an error. */
  datatype Arrival = Data(bytes: string) | Quiet | EndOfStream | Broken

  /** What the clock shows when a round begins, and when it answers or ends, in microseconds. */
  datatype Times = Times(top: int, later: int)

  const KEEPALIVE_SIZE := 18
  const HEADER_SIZE := 25

  predicate Bytes(s: string) { forall i | 0 <= i < |s| :: s[i] as int < 256 }

  /** There is at least one byte: a piece of none is a quiet round. */
  predicate Sane(a: Arrival) { a.Data? ==> a.bytes != "" && Bytes(a.bytes) }

  lemma {:induction false} PositionInRange(s: string, at: nat)
    requires at + 8 <= |s| && Bytes(s)
    ensures Lsn(PositionAt(s, at))
  {
    RoundTripBytes8(s[at..at + 8]);
  }

  /** The position in the header of a message: the later of its start and its end. */
  function HeaderLsn(bytes: string): (x: int)
    requires |bytes| > HEADER_SIZE
  {
    R.Later(R.Later(0, PositionAt(bytes, 1)), PositionAt(bytes, 9))
  }

  /** It is one of the two positions in the header, and the other is no later. */
  lemma {:induction false} HeaderLsnIs(bytes: string)
    requires |bytes| > 25 && Bytes(bytes)
    ensures
      var (x, start, end) := (HeaderLsn(bytes), PositionAt(bytes, 1), PositionAt(bytes, 9));
      Lsn(x) && start <= x && end <= x && (x == start || x == end)
  {
    PositionInRange(bytes, 1);
    PositionInRange(bytes, 9);
  }

  // ---- What the events of the protocol do to the handler -------------------------------------------------------

  /** What one event of the protocol does to the positions; `lsn` is that of a message. */
  function Act(p: R.Positions, ev: R.Event, lsn: int): R.Positions {
    match ev
    case Keepalive(walEnd) => p.(recvpos := R.Later(walEnd, p.recvpos))
    case Message => p.(recvpos := lsn)
    case Feedback => p.(startpos := p.recvpos)
    case FeedbackFails => p.(startpos := p.recvpos)
    case _ => p
  }

  function Acts(p: R.Positions, evs: seq<R.Event>, lsn: int): R.Positions
    decreases |evs|
  {
    if evs == [] then p else Acts(Act(p, evs[0], lsn), evs[1..], lsn)
  }

  lemma {:induction false} ActsSnoc(p: R.Positions, evs: seq<R.Event>, ev: R.Event, lsn: int)
    ensures Acts(p, evs + [ev], lsn) == Act(Acts(p, evs, lsn), ev, lsn)
    decreases |evs|
  {
    if evs != [] {
      ActsSnoc(Act(p, evs[0], lsn), evs[1..], ev, lsn);
      assert (evs + [ev])[1..] == evs[1..] + [ev];
    }
  }

  lemma {:induction false} ActsAppend(p: R.Positions, a: seq<R.Event>, b: seq<R.Event>, lsn: int)
    ensures Acts(p, a + b, lsn) == Acts(Acts(p, a, lsn), b, lsn)
    decreases |a|
  {
    if a == [] {
      assert a + b == b;
    } else {
      ActsAppend(Act(p, a[0], lsn), a[1..], b, lsn);
      assert (a + b)[1..] == a[1..] + b;
    }
  }

  /** The events of the handler are those of the protocol: they move the positions in the same way. */
  lemma {:induction false} ActIsDo<K, V>(src: seq<R.SrcTxn<K, V>>, ev: R.Event, r: R.Recv<K, V>)
    requires R.CommitOrder(src) && R.Enabled(src, ev, r)
    requires ev.Keepalive? || ev.Message? || ev.Feedback? || ev.FeedbackFails?
    ensures R.Do(src, ev, r).pos == Act(r.pos, ev, if ev.Message? then R.MsgLsn(src, r.stream.value) else 0)
  {
  }

  predicate FeedbackEvent(ev: R.Event) { ev.Feedback? || ev.FeedbackFails? }

  /** A status message that says where the receiver is and what it has flushed, and asks for no answer. */
  predicate Says(s: string, recv: int, flush: int) {
    |s| == 34 && s[0] == 'r' && PositionAt(s, 1) == recv && PositionAt(s, 9) == flush && PositionAt(s, 17) == 0 && s[33] == 0 as char
  }

  /** One status message for every report among the events, and none besides: each says the positions at that event. */
  predicate Reported(p: R.Positions, evs: seq<R.Event>, lsn: int, msgs: seq<string>)
    decreases |evs|
  {
    if evs == [] then msgs == []
    else if evs[0].Feedback? then
      msgs != [] && Says(msgs[0], p.recvpos, p.flushpos) && Reported(Act(p, evs[0], lsn), evs[1..], lsn, msgs[1..])
    else Reported(Act(p, evs[0], lsn), evs[1..], lsn, msgs)
  }

  lemma {:induction false} ReportedAppend(p: R.Positions, a: seq<R.Event>, b: seq<R.Event>, lsn: int, msgs: seq<string>, more: seq<string>)
    requires Reported(p, a, lsn, msgs) && Reported(Acts(p, a, lsn), b, lsn, more)
    ensures Reported(p, a + b, lsn, msgs + more)
    decreases |a|
  {
    if a == [] {
      assert a + b == b && msgs + more == more;
    } else {
      assert (a + b)[1..] == a[1..] + b;
      if a[0].Feedback? {
        assert (msgs + more)[1..] == msgs[1..] + more;
        ReportedAppend(Act(p, a[0], lsn), a[1..], b, lsn, msgs[1..], more);
      } else {
        ReportedAppend(Act(p, a[0], lsn), a[1..], b, lsn, msgs, more);
      }
    }
  }

  /** Without a message among the events its position does not matter. */
  lemma {:induction false} NoMessageNoLsn(p: R.Positions, evs: seq<R.Event>, lsn: int, msgs: seq<string>)
    requires R.Message !in evs
    ensures Acts(p, evs, lsn) == Acts(p, evs, 0)
    ensures Reported(p, evs, lsn, msgs) <==> Reported(p, evs, 0, msgs)
    decreases |evs|
  {
    if evs != [] {
      assert evs[0] in evs;
      NoMessageNoLsn(Act(p, evs[0], lsn), evs[1..], lsn, if evs[0].Feedback? && msgs != [] then msgs[1..] else msgs);
    }
  }

  function Failures(evs: seq<R.Event>): nat {
    if evs == [] then 0 else (if evs[0].FeedbackFails? then 1 else 0) + Failures(evs[1..])
  }

  lemma {:induction false} FailuresAppend(a: seq<R.Event>, b: seq<R.Event>)
    ensures Failures(a + b) == Failures(a) + Failures(b)
  {
    if a == [] {
      assert a + b == b;
    } else {
      assert (a + b)[1..] == a[1..] + b;
      FailuresAppend(a[1..], b);
    }
  }

  // ---- What a round tells --------------------------------------------------------------------------------------

  /** The actions that the message reader knows. */
  predicate KnownAction(body: string) { body != "" && body[0] in {'B', 'C', 'I', 'U', 'D'} }

  predicate IsKeepalive(a: Arrival) { a.Data? && a.bytes != "" && a.bytes[0] == 'k' }

  predicate IsMessage(a: Arrival) { a.Data? && |a.bytes| > HEADER_SIZE && a.bytes[0] == 'w' }

  /** Five seconds since the last report. */
  predicate Due(status: int, now: int) { now - status >= 5_000_000 }

  /** The server asks for a report. */
  predicate AsksReply(a: Arrival) { IsKeepalive(a) && |a.bytes| >= 18 && a.bytes[17] != 0 as char }

  /** What a round makes of what has arrived.  Of a keepalive that is too short the bytes behind its end are read as a
      position, whatever they are. */
  predicate Takes(a: Arrival, t: Times, status: int, part: seq<R.Event>) {
    if IsKeepalive(a) then
      && part != [] && part[0].Keepalive? && (|a.bytes| >= 9 ==> part[0].walEnd == PositionAt(a.bytes, 1))
      && if AsksReply(a) then |part| == 2 && FeedbackEvent(part[1]) else |part| == 1
    else if IsMessage(a) then
      && part != [] && part[0] == R.Message
      && if KnownAction(a.bytes[25..]) && Due(status, t.later) then |part| == 2 && FeedbackEvent(part[1]) else |part| == 1
    else part == []
  }

  /** And before it, of the time that has gone by since the last report, when there has been a quiet round. */
  predicate Tells(a: Arrival, t: Times, inRedo: bool, status: int, part: seq<R.Event>) {
    if inRedo && Due(status, t.top) then
      part != [] && if part[0].FeedbackFails? then |part| == 1 else part[0] == R.Feedback && Takes(a, t, t.top, part[1..])
    else Takes(a, t, status, part)
  }

  /** Another round follows. */
  predicate GoesOn(a: Arrival, part: seq<R.Event>) {
    R.FeedbackFails !in part && (a.Quiet? || (IsKeepalive(a) && |a.bytes| >= 18))
  }

  /** The time of the last report behind the round. */
  function StatusAfter(t: Times, inRedo: bool, status: int, part: seq<R.Event>): int {
    var redone := inRedo && Due(status, t.top) && part != [] && part[0] == R.Feedback;
    if |part| > (if redone then 1 else 0) && part[|part| - 1] == R.Feedback then t.later
    else if redone then t.top
    else status
  }

  function InRedo(arrivals: seq<Arrival>, n: nat): bool
    requires n <= |arrivals|
  {
    exists k | 0 <= k < n :: arrivals[k].Quiet?
  }

  /** The time of the last report before round `n`. */
  function StatusAt(arrivals: seq<Arrival>, clock: seq<Times>, status: int, parts: seq<seq<R.Event>>, n: nat): int
    requires n <= |parts| <= |arrivals| == |clock|
  {
    if n == 0 then status
    else StatusAfter(clock[n - 1], InRedo(arrivals, n - 1), StatusAt(arrivals, clock, status, parts, n - 1), parts[n - 1])
  }

  /** What the first rounds told, one part each; only behind the last of them there may be no other. */
  predicate Rounds(arrivals: seq<Arrival>, clock: seq<Times>, status: int, parts: seq<seq<R.Event>>) {
    && |parts| <= |arrivals| == |clock|
    && (forall i | 0 <= i < |parts| ::
      Tells(arrivals[i], clock[i], InRedo(arrivals, i), StatusAt(arrivals, clock, status, parts, i), parts[i]))
    && forall i | 0 <= i < |parts| - 1 :: GoesOn(arrivals[i], parts[i])
  }

  /** Nothing more arrives, or the last round was the end. */
  predicate Over(arrivals: seq<Arrival>, parts: seq<seq<R.Event>>)
    requires |parts| <= |arrivals|
  {
    var n := |parts|;
    n == |arrivals| || (n > 0 && !GoesOn(arrivals[n - 1], parts[n - 1]))
  }

  /** The last round received a message that the reader knows, and no report failed. */
  predicate Got(arrivals: seq<Arrival>, parts: seq<seq<R.Event>>)
    requires |parts| <= |arrivals|
  {
    var n := |parts|;
    n > 0 && IsMessage(arrivals[n - 1]) && R.Message in parts[n - 1] && KnownAction(arrivals[n - 1].bytes[25..])
    && R.FeedbackFails !in parts[n - 1]
  }

  /** The position of the message that the last round received, if it did. */
  function LsnOf(arrivals: seq<Arrival>, parts: seq<seq<R.Event>>): int
    requires |parts| <= |arrivals|
  {
    var n := |parts|;
    if n > 0 && IsMessage(arrivals[n - 1]) then HeaderLsn(arrivals[n - 1].bytes) else 0
  }

  function Joined(parts: seq<seq<R.Event>>): seq<R.Event> {
    if parts == [] then [] else Joined(parts[..|parts| - 1]) + parts[|parts| - 1]
  }

  lemma {:induction false} JoinedSnoc(parts: seq<seq<R.Event>>, part: seq<R.Event>)
    ensures Joined(parts + [part]) == Joined(parts) + part
  {
    assert (parts + [part])[..|parts|] == parts;
  }

  lemma {:induction false} StatusOfPrefix(arrivals: seq<Arrival>, clock: seq<Times>, status: int, parts: seq<seq<R.Event>>, part: seq<R.Event>, n: nat)
    requires n <= |parts| < |arrivals| == |clock|
    ensures StatusAt(arrivals, clock, status, parts + [part], n) == StatusAt(arrivals, clock, status, parts, n)
  {
    if n > 0 {
      StatusOfPrefix(arrivals, clock, status, parts, part, n - 1);
    }
  }

  /** One round more. */
  lemma {:induction false} RoundsMore(arrivals: seq<Arrival>, clock: seq<Times>, status: int, parts: seq<seq<R.Event>>, part: seq<R.Event>)
    requires Rounds(arrivals, clock, status, parts) && |parts| < |arrivals|
    requires |parts| > 0 ==> GoesOn(arrivals[|parts| - 1], parts[|parts| - 1])
    requires
      var n := |parts|;
      Tells(arrivals[n], clock[n], InRedo(arrivals, n), StatusAt(arrivals, clock, status, parts, n), part)
    ensures Rounds(arrivals, clock, status, parts + [part])
    ensures
      var n := |parts|;
      StatusAt(arrivals, clock, status, parts + [part], n + 1)
      == StatusAfter(clock[n], InRedo(arrivals, n), StatusAt(arrivals, clock, status, parts, n), part)
  {
    hide Tells;
    hide InRedo;
    hide StatusAfter;
    hide GoesOn;
    var more := parts + [part];
    forall i | 0 <= i < |more|
      ensures Tells(arrivals[i], clock[i], InRedo(arrivals, i), StatusAt(arrivals, clock, status, more, i), more[i])
    {
      StatusOfPrefix(arrivals, clock, status, parts, part, i);
    }
    StatusOfPrefix(arrivals, clock, status, parts, part, |parts|);
  }

  // ---- What the rounds together come to ------------------------------------------------------------------------

  /** What the loop can make of a stream: keepalives and reports, at most one message, which only reports follow,
      and nothing behind a failed report. */
  predicate Ordered(evs: seq<R.Event>) {
    && (forall i | 0 <= i < |evs| :: evs[i].Keepalive? || evs[i].Message? || FeedbackEvent(evs[i]))
    && (forall i, j | 0 <= i < j < |evs| :: !evs[i].FeedbackFails? && (evs[i].Message? ==> FeedbackEvent(evs[j])))
  }

  /** Every keepalive among the events has arrived; one too short for its position may stand for any. */
  ghost predicate Arrived(arrivals: seq<Arrival>, evs: seq<R.Event>) {
    forall i | 0 <= i < |evs| && evs[i].Keepalive? :: exists j ::
      && 0 <= j < |arrivals| && IsKeepalive(arrivals[j])
      && (|arrivals[j].bytes| >= 9 ==> evs[i].walEnd == PositionAt(arrivals[j].bytes, 1))
  }

  /** Events without a message and without a failed report. */
  predicate Uneventful(evs: seq<R.Event>) { R.Message !in evs && R.FeedbackFails !in evs }

  lemma {:induction false} OrderedAppend(arrivals: seq<Arrival>, a: seq<R.Event>, b: seq<R.Event>)
    requires Uneventful(a) && Ordered(a) && Ordered(b) && Arrived(arrivals, a) && Arrived(arrivals, b)
    ensures Ordered(a + b) && Arrived(arrivals, a + b) && (Uneventful(b) ==> Uneventful(a + b))
  {
    var all := a + b;
    forall i | 0 <= i < |all| - 1 ensures !all[i].FeedbackFails? {
      if i < |a| {
        assert a[i] in a && all[i] == a[i] && a[i] != R.FeedbackFails;
      } else {
        assert all[i] == b[i - |a|] && all[i + 1] == b[i + 1 - |a|];
      }
    }
    forall i, j | 0 <= i < j < |all| ensures !all[i].FeedbackFails? && (all[i].Message? ==> FeedbackEvent(all[j])) {
      if i < |a| {
        assert a[i] in a && all[i] == a[i] && a[i] != R.Message;
        assert j < |a| ==> all[j] == a[j];
      } else {
        assert all[i] == b[i - |a|] && all[j] == b[j - |a|];
      }
    }
    forall i | 0 <= i < |all| && all[i].Keepalive? ensures exists j ::
      && 0 <= j < |arrivals| && IsKeepalive(arrivals[j])
      && (|arrivals[j].bytes| >= 9 ==> all[i].walEnd == PositionAt(arrivals[j].bytes, 1))
    {
      if i < |a| { assert all[i] == a[i]; } else { assert all[i] == b[i - |a|]; }
    }
  }

  /** What one round told. */
  lemma {:induction false} RoundPartIs(arrivals: seq<Arrival>, i: nat, t: Times, inRedo: bool, status: int, part: seq<R.Event>)
    requires i < |arrivals| && Tells(arrivals[i], t, inRedo, status, part)
    ensures Ordered(part) && Arrived(arrivals, part) && |part| <= 3
    ensures GoesOn(arrivals[i], part) ==> Uneventful(part)
    ensures R.Message in part ==> IsMessage(arrivals[i])
  {
  }

  lemma {:induction false} RoundsOrdered(arrivals: seq<Arrival>, clock: seq<Times>, status: int, parts: seq<seq<R.Event>>, n: nat)
    requires Rounds(arrivals, clock, status, parts) && n <= |parts|
    ensures Ordered(Joined(parts[..n])) && Arrived(arrivals, Joined(parts[..n]))
    ensures n < |parts| || (n > 0 && GoesOn(arrivals[n - 1], parts[n - 1])) ==> Uneventful(Joined(parts[..n]))
    ensures R.Message in Joined(parts[..n]) <==> n == |parts| > 0 && R.Message in parts[n - 1]
    ensures R.FeedbackFails in Joined(parts[..n]) <==> n == |parts| > 0 && R.FeedbackFails in parts[n - 1]
  {
    if n > 0 {
      hide Tells;
      hide Ordered;
      hide Arrived;
      hide GoesOn;
      RoundsOrdered(arrivals, clock, status, parts, n - 1);
      assert parts[..n][..n - 1] == parts[..n - 1];
      RoundPartIs(arrivals, n - 1, clock[n - 1], InRedo(arrivals, n - 1), StatusAt(arrivals, clock, status, parts, n - 1), parts[n - 1]);
      OrderedAppend(arrivals, Joined(parts[..n - 1]), parts[n - 1]);
    }
  }

  // ---- The handler ---------------------------------------------------------------------------------------------

  /** The replication connection: the messages that were put on it, and how often that failed. */
  class Connection {
    var sent: seq<string>
    var refused: nat

    constructor ()
      ensures sent == [] && refused == 0
    {
      sent, refused := [], 0;
    }

    method PQputCopyData(data: string) returns (ok: bool)
      modifies this
      ensures sent == if ok then old(sent) + [data] else old(sent)
      ensures refused == old(refused) + if ok then 0 else 1
    {
      ok := *;
      if ok {
        sent := sent + [data];
      } else {
        refused := refused + 1;
      }
    }
  }

  class DecoderHandler {
    var recvpos: int
    var startpos: int
    var flushpos: int
    var lastRecvpos: int
    var lastStatus: int
    const standbyMessageTimeout: int
    const conn: Connection

    constructor (conn: Connection)
      ensures View() == R.ZERO && lastRecvpos == 0 && lastStatus == -1 && this.conn == conn && Valid()
    {
      recvpos, startpos, flushpos, lastRecvpos := 0, 0, 0, 0;
      lastStatus := -1;
      standbyMessageTimeout := 5 * 1000;
      this.conn := conn;
    }

    predicate Valid()
      reads this
    {
      Lsn(recvpos) && Lsn(flushpos) && standbyMessageTimeout == 5 * 1000
    }

    function View(): R.Positions
      reads this
    {
      R.Positions(recvpos, startpos, flushpos)
    }

    /** The events tell how the handler came from the positions `was` to its own, and behind what had been put on the
        connection there is one message for each report. */
    ghost predicate Did(was: R.Positions, evs: seq<R.Event>, lsn: int, sent: seq<string>, refused: nat)
      reads this, conn
    {
      && View() == Acts(was, evs, lsn)
      && sent <= conn.sent && Reported(was, evs, lsn, conn.sent[|sent|..])
      && conn.refused == refused + Failures(evs)
    }

    lemma {:induction false} DidMore(was: R.Positions, a: seq<R.Event>, mid: R.Positions, b: seq<R.Event>, lsn: int,
                                     sent: seq<string>, sent': seq<string>, refused: nat, refused': nat)
      requires mid == Acts(was, a, lsn) && sent <= sent' && Reported(was, a, lsn, sent'[|sent|..]) && refused' == refused + Failures(a)
      requires Did(mid, b, lsn, sent', refused')
      ensures Did(was, a + b, lsn, sent, refused)
    {
      ActsAppend(was, a, b, lsn);
      FailuresAppend(a, b);
      ReportedAppend(was, a, b, lsn, sent'[|sent|..], conn.sent[|sent'|..]);
      assert conn.sent[|sent|..] == sent'[|sent|..] + conn.sent[|sent'|..];
    }

    /** Report the positions.  Both copies of the received position are moved before it is known whether the
        message went out. */
    method SendFeedback(now: int, force: bool, replyRequested: bool) returns (ok: bool)
      modifies this, conn
      ensures recvpos == old(recvpos) && flushpos == old(flushpos) && lastStatus == old(lastStatus)
      ensures !force && old(lastRecvpos) == recvpos ==>
        ok && View() == old(View()) && lastRecvpos == old(lastRecvpos) && conn.sent == old(conn.sent) && conn.refused == old(conn.refused)
      ensures force || old(lastRecvpos) != recvpos ==>
        && startpos == lastRecvpos == recvpos
        && conn.sent == old(conn.sent) + (if ok then [StatusUpdate(recvpos, flushpos, now, replyRequested)] else [])
        && conn.refused == old(conn.refused) + if ok then 0 else 1
    {
      hide StatusUpdate;
      hide BE8;
      if !force && lastRecvpos == recvpos {
        return true;
      }
      var replybuf := new char[34];
      var len := 0;
      replybuf[len] := 'r';
      len := len + 1;
      FeSendint64(recvpos, replybuf, len);
      len := len + 8;
      FeSendint64(flushpos, replybuf, len);
      len := len + 8;
      FeSendint64(0, replybuf, len);
      len := len + 8;
      FeSendint64(now, replybuf, len);
      len := len + 8;
      replybuf[len] := if replyRequested then 1 as char else 0 as char;
      len := len + 1;
      startpos := recvpos;
      lastRecvpos := recvpos;
      Assembled(replybuf, recvpos, flushpos, now, replyRequested);
      ok := conn.PQputCopyData(replybuf[..len]);
    }

    /** A forced report. */
    method Report(now: int, ghost lsn: int) returns (ok: bool, ghost ev: R.Event)
      requires Valid()
      modifies this, conn
      ensures ev == if ok then R.Feedback else R.FeedbackFails
      ensures Valid() && Did(old(View()), [ev], lsn, old(conn.sent), old(conn.refused))
      ensures lastStatus == if ok then now else old(lastStatus)
    {
      hide StatusUpdate;
      hide Reported;
      hide Acts;
      hide Says;
      ok := SendFeedback(now, true, false);
      if ok {
        lastStatus := now;
      }
      ev := if ok then R.Feedback else R.FeedbackFails;
      SaysThem(recvpos, flushpos, now);
      OneEvent(old(View()), ev, lsn, conn.sent[|old(conn.sent)|..]);
    }

    method TimeToReport(now: int) returns (yes: bool)
      requires Valid()
      ensures yes <==> Due(lastStatus, now)
    {
      yes := standbyMessageTimeout > 0 && now - lastStatus >= standbyMessageTimeout * 1000;
    }

    /** The position in a keepalive, or whatever is behind the end of one that is too short. */
    method WalEnd(bytes: string, pos: nat) returns (walEnd: int)
      requires Bytes(bytes)
      ensures Lsn(walEnd)
      ensures |bytes| >= pos + 8 ==> walEnd == PositionAt(bytes, pos)
    {
      if |bytes| >= pos + 8 {
        var raw := FeRecvint64(bytes, pos);
        walEnd := Unsigned64(raw);
        PositionInRange(bytes, pos);
      } else {
        var behind: int := *;
        walEnd := behind % 0x1_0000_0000_0000_0000;
      }
    }

    /** The later of the two positions in the header. */
    method LastReceived(bytes: string) returns (lastReceived: int)
      requires |bytes| > HEADER_SIZE && Bytes(bytes)
      ensures Lsn(lastReceived) && lastReceived == HeaderLsn(bytes)
    {
      hide FromBE8;
      HeaderLsnIs(bytes);
      lastReceived := 0;
      var start := FeRecvint64(bytes, 1);
      var startLsn := Unsigned64(start);
      var end := FeRecvint64(bytes, 9);
      var endLsn := Unsigned64(end);
      if lastReceived < startLsn {
        lastReceived := startLsn;
      }
      if lastReceived < endLsn {
        lastReceived := endLsn;
      }
    }

    /** A keepalive moves the received position forward, never back; the server may ask for a report.  Of one that
        is too short the bytes behind its end are read as a position, whatever they are, before it is refused. */
    method Keepalive(bytes: string, t: Times) returns (ok: bool, ghost evs: seq<R.Event>)
      requires Valid() && IsKeepalive(Data(bytes)) && Bytes(bytes)
      modifies this, conn
      ensures Valid() && Takes(Data(bytes), t, old(lastStatus), evs)
      ensures Did(old(View()), evs, 0, old(conn.sent), old(conn.refused))
      ensures ok <==> GoesOn(Data(bytes), evs)
      ensures lastStatus == if R.Feedback in evs then t.later else old(lastStatus)
    {
      var pos := 1;
      var walEnd := WalEnd(bytes, pos);
      recvpos := R.Later(walEnd, recvpos);
      ghost var first := R.Keepalive(walEnd);
      evs := [first];
      OneEvent(old(View()), first, 0, []);
      pos := pos + 8;
      pos := pos + 8;
      if |bytes| < pos + 1 {
        return false, evs;
      }
      if bytes[pos] != 0 as char {
        ghost var ev;
        ghost var mid := View();
        ok, ev := Report(t.later, 0);
        DidMore(old(View()), evs, mid, [ev], 0, old(conn.sent), old(conn.sent), old(conn.refused), old(conn.refused));
        evs := evs + [ev];
        return ok, evs;
      }
      return true, evs;
    }

    /** A message: its header moves the received position; afterwards it may be time to report.  One whose header is not
        complete changes nothing. */
    method Message(bytes: string, t: Times) returns (body: Option<string>, ghost evs: seq<R.Event>)
      requires Valid() && bytes != "" && bytes[0] == 'w' && Bytes(bytes)
      modifies this, conn
      ensures Valid() && Takes(Data(bytes), t, old(lastStatus), evs)
      ensures Did(old(View()), evs, if |bytes| > 25 then HeaderLsn(bytes) else 0, old(conn.sent), old(conn.refused))
      ensures body == if |bytes| > 25 && KnownAction(bytes[25..]) && R.FeedbackFails !in evs then Some(bytes[25..]) else None
      ensures lastStatus == if R.Feedback in evs then t.later else old(lastStatus)
    {
      hide PositionAt;
      hide Reported;
      hide Acts;
      if |bytes| < HEADER_SIZE + 1 {
        NoEvent(View(), 0);
        assert conn.sent[|conn.sent|..] == [];
        return None, [];
      }
      recvpos := LastReceived(bytes);
      assert conn.sent[|conn.sent|..] == [];
      evs := [R.Message];
      OneEvent(old(View()), R.Message, HeaderLsn(bytes), []);
      if !KnownAction(bytes[HEADER_SIZE..]) {
        return None, evs;
      }
      var due := TimeToReport(t.later);
      if due {
        ghost var ev;
        ghost var mid := View();
        var ok;
        ok, ev := Report(t.later, HeaderLsn(bytes));
        DidMore(old(View()), evs, mid, [ev], HeaderLsn(bytes), old(conn.sent), old(conn.sent), old(conn.refused), old(conn.refused));
        evs := evs + [ev];
        if !ok {
          return None, evs;
        }
      }
      return Some(bytes[HEADER_SIZE..]), evs;
    }

    /** The report of a round that is due for one. */
    method RedoReport(inRedo: bool, t: Times) returns (ok: bool, ghost evs: seq<R.Event>)
      requires Valid()
      modifies this, conn
      ensures Valid() && Did(old(View()), evs, 0, old(conn.sent), old(conn.refused))
      ensures evs == if inRedo && Due(old(lastStatus), t.top) then [if ok then R.Feedback else R.FeedbackFails] else []
      ensures evs == [] ==> ok
      ensures lastStatus == if evs == [R.Feedback] then t.top else old(lastStatus)
    {
      evs := [];
      ok := true;
      if inRedo {
        var due := TimeToReport(t.top);
        if due {
          ghost var ev;
          ok, ev := Report(t.top, 0);
          evs := [ev];
        }
      }
    }

    /** One round. */
    method OneRound(a: Arrival, t: Times, inRedo: bool) returns (go: bool, body: Option<string>, ghost part: seq<R.Event>)
      requires Valid() && Sane(a)
      modifies this, conn
      ensures Valid() && Tells(a, t, inRedo, old(lastStatus), part)
      ensures Did(old(View()), part, if IsMessage(a) then HeaderLsn(a.bytes) else 0, old(conn.sent), old(conn.refused))
      ensures go <==> GoesOn(a, part)
      ensures body == if IsMessage(a) && R.Message in part && KnownAction(a.bytes[25..]) && R.FeedbackFails !in part
                      then Some(a.bytes[25..]) else None
      ensures lastStatus == StatusAfter(t, inRedo, old(lastStatus), part)
    {
      var ok;
      ok, part := RedoReport(inRedo, t);
      body := None;
      if !ok {
        NoMessageNoLsn(old(View()), part, if IsMessage(a) then HeaderLsn(a.bytes) else 0, conn.sent[|old(conn.sent)|..]);
        return false, None, part;
      }
      ghost var mid, sent, refused := View(), conn.sent, conn.refused;
      ghost var lsn := if IsMessage(a) then HeaderLsn(a.bytes) else 0;
      ghost var main: seq<R.Event> := [];
      NoMessageNoLsn(old(View()), part, lsn, sent[|old(conn.sent)|..]);
      go := a.Quiet?;
      if a.Data? {
        if a.bytes[0] == 'k' {
          go, main := Keepalive(a.bytes, t);
        } else if a.bytes[0] == 'w' {
          body, main := Message(a.bytes, t);
        }
      }
      DidMore(old(View()), part, mid, main, lsn, old(conn.sent), sent, old(conn.refused), refused);
      RoundTold(a, t, inRedo, old(lastStatus), part, main);
      part := part + main;
    }

    /** Rounds until a message has come, the connection is given up, or the process is to stop.  The positions
        move by the events of the protocol alone; for each report that is told there is one message more on the
        connection.  What each round tells is what it makes of its arrival: a keepalive that asks for a report is
        followed by one, and so are five seconds without one when a round begins behind a quiet one or when a message
        has come.  A message that the reader knows is returned unless a report fails behind it, and nothing else is. */
    method ExecLogicalDecoder(arrivals: seq<Arrival>, clock: seq<Times>)
        returns (body: Option<string>, ghost parts: seq<seq<R.Event>>)
      requires Valid() && |clock| == |arrivals| && forall i | 0 <= i < |arrivals| :: Sane(arrivals[i])
      modifies this, conn
      ensures Valid() && Rounds(arrivals, clock, old(lastStatus), parts) && Over(arrivals, parts)
      ensures Did(old(View()), Joined(parts), LsnOf(arrivals, parts), old(conn.sent), old(conn.refused))
      ensures lastStatus == StatusAt(arrivals, clock, old(lastStatus), parts, |parts|)
      ensures body == if Got(arrivals, parts) then Some(arrivals[|parts| - 1].bytes[25..]) else None
    {
      hide Going;
      hide Rounds;
      hide Over;
      hide StatusAt;
      hide Did;
      parts := [];
      body := None;
      GoingAtFirst(arrivals, clock);
      var i, inRedo := 0, false;
      while i < |arrivals|
        invariant i == |parts| <= |arrivals| && body == None
        invariant Going(arrivals, clock, old(lastStatus), parts, inRedo, old(View()), old(conn.sent), old(conn.refused))
      {
        var go;
        go, body, parts := NextRound(arrivals, clock, i, inRedo, old(lastStatus), parts, old(View()), old(conn.sent), old(conn.refused));
        if !go {
          return;
        }
        inRedo := inRedo || arrivals[i].Quiet?;
        i := i + 1;
      }
      GoingEnds(arrivals, clock, old(lastStatus), parts, inRedo, old(View()), old(conn.sent), old(conn.refused));
    }

    /** Rounds have been made, and another one follows unless nothing more arrives. */
    ghost predicate Going(arrivals: seq<Arrival>, clock: seq<Times>, status: int, parts: seq<seq<R.Event>>, inRedo: bool,
                          was: R.Positions, sent: seq<string>, refused: nat)
      reads this, conn
    {
      && Valid() && Rounds(arrivals, clock, status, parts)
      && (|parts| > 0 ==> GoesOn(arrivals[|parts| - 1], parts[|parts| - 1]))
      && inRedo == InRedo(arrivals, |parts|) && lastStatus == StatusAt(arrivals, clock, status, parts, |parts|)
      && Did(was, Joined(parts), 0, sent, refused)
    }

    lemma {:induction false} GoingAtFirst(arrivals: seq<Arrival>, clock: seq<Times>)
      requires Valid() && |clock| == |arrivals|
      ensures Going(arrivals, clock, lastStatus, [], false, View(), conn.sent, conn.refused)
    {
      NoEvent(View(), 0);
      assert conn.sent[|conn.sent|..] == [];
    }

    lemma {:induction false} GoingEnds(arrivals: seq<Arrival>, clock: seq<Times>, status: int, parts: seq<seq<R.Event>>, inRedo: bool,
                                       was: R.Positions, sent: seq<string>, refused: nat)
      requires |parts| == |arrivals| && Going(arrivals, clock, status, parts, inRedo, was, sent, refused)
      ensures Valid() && Rounds(arrivals, clock, status, parts) && Over(arrivals, parts) && !Got(arrivals, parts)
      ensures Did(was, Joined(parts), LsnOf(arrivals, parts), sent, refused)
      ensures lastStatus == StatusAt(arrivals, clock, status, parts, |parts|)
    {
      hide Did;
      hide Rounds;
    }

    /** One round more. */
    method NextRound(arrivals: seq<Arrival>, clock: seq<Times>, i: nat, inRedo: bool, ghost status: int, ghost parts: seq<seq<R.Event>>,
                     ghost was: R.Positions, ghost sent: seq<string>, ghost refused: nat)
        returns (go: bool, body: Option<string>, ghost more: seq<seq<R.Event>>)
      requires i < |arrivals| == |clock| && Sane(arrivals[i]) && i == |parts|
      requires Going(arrivals, clock, status, parts, inRedo, was, sent, refused)
      modifies this, conn
      ensures |more| == i + 1
      ensures go ==> body == None && Going(arrivals, clock, status, more, inRedo || arrivals[i].Quiet?, was, sent, refused)
      ensures !go ==>
        && Valid() && Rounds(arrivals, clock, status, more) && Over(arrivals, more)
        && Did(was, Joined(more), LsnOf(arrivals, more), sent, refused)
        && lastStatus == StatusAt(arrivals, clock, status, more, i + 1)
        && body == if Got(arrivals, more) then Some(arrivals[i].bytes[25..]) else None
    {
      hide Going;
      hide Did;
      hide Rounds;
      hide Tells;
      hide StatusAfter;
      hide StatusAt;
      hide Joined;
      hide Reported;
      hide Acts;
      ghost var mid, sent', refused' := View(), conn.sent, conn.refused;
      ghost var lsn := if IsMessage(arrivals[i]) then HeaderLsn(arrivals[i].bytes) else 0;
      SoFar(arrivals, clock, status, parts, inRedo, was, sent, refused, lsn);
      ghost var part;
      go, body, part := OneRound(arrivals[i], clock[i], inRedo);
      RoundsMore(arrivals, clock, status, parts, part);
      JoinedSnoc(parts, part);
      DidMore(was, Joined(parts), mid, part, lsn, sent, sent', refused, refused');
      more := parts + [part];
      if go {
        StillGoing(arrivals, clock, status, more, inRedo || arrivals[i].Quiet?, was, sent, refused);
      }
    }

    lemma {:induction false} SoFar(arrivals: seq<Arrival>, clock: seq<Times>, status: int, parts: seq<seq<R.Event>>, inRedo: bool,
                                   was: R.Positions, sent: seq<string>, refused: nat, lsn: int)
      requires Going(arrivals, clock, status, parts, inRedo, was, sent, refused)
      ensures Valid() && Rounds(arrivals, clock, status, parts) && |parts| <= |arrivals|
      ensures |parts| > 0 ==> GoesOn(arrivals[|parts| - 1], parts[|parts| - 1])
      ensures inRedo == InRedo(arrivals, |parts|)
      ensures |clock| == |arrivals| && lastStatus == StatusAt(arrivals, clock, status, parts, |parts|)
      ensures View() == Acts(was, Joined(parts), lsn) && sent <= conn.sent && Reported(was, Joined(parts), lsn, conn.sent[|sent|..])
      ensures conn.refused == refused + Failures(Joined(parts))
    {
      NoMessageYet(arrivals, clock, status, parts, was, lsn, conn.sent[|sent|..]);
    }

    lemma {:induction false} StillGoing(arrivals: seq<Arrival>, clock: seq<Times>, status: int, parts: seq<seq<R.Event>>, inRedo: bool,
                                        was: R.Positions, sent: seq<string>, refused: nat)
      requires Valid() && Rounds(arrivals, clock, status, parts) && parts != []
      requires var n := |parts|; GoesOn(arrivals[n - 1], parts[n - 1]) && inRedo == (InRedo(arrivals, n - 1) || arrivals[n - 1].Quiet?)
      requires lastStatus == StatusAt(arrivals, clock, status, parts, |parts|) && Did(was, Joined(parts), 0, sent, refused)
      ensures Going(arrivals, clock, status, parts, inRedo, was, sent, refused)
    {
      hide Did;
      hide StatusAt;
    }
  }

  lemma {:induction false} NoEvent(was: R.Positions, lsn: int)
    ensures Acts(was, [], lsn) == was && Reported(was, [], lsn, []) && Failures([]) == 0
  {
  }

  /** One event, with its message if it is a report. */
  lemma {:induction false} OneEvent(was: R.Positions, ev: R.Event, lsn: int, msgs: seq<string>)
    requires if ev.Feedback? then |msgs| == 1 && Says(msgs[0], was.recvpos, was.flushpos) else msgs == []
    ensures Acts(was, [ev], lsn) == Act(was, ev, lsn) && Reported(was, [ev], lsn, msgs)
    ensures Failures([ev]) == if ev.FeedbackFails? then 1 else 0
  {
    assert [ev][1..] == [];
  }

  /** What a round told: of the time that had gone by, and of its arrival. */
  lemma {:induction false} RoundTold(a: Arrival, t: Times, inRedo: bool, status: int, part: seq<R.Event>, main: seq<R.Event>)
    requires part == if inRedo && Due(status, t.top) then [R.Feedback] else []
    requires Takes(a, t, if part != [] then t.top else status, main)
    ensures Tells(a, t, inRedo, status, part + main)
    ensures GoesOn(a, part + main) <==> GoesOn(a, main)
    ensures R.Message in part + main <==> R.Message in main
    ensures R.FeedbackFails in part + main <==> R.FeedbackFails in main
    ensures StatusAfter(t, inRedo, status, part + main)
         == if R.Feedback in main then t.later else if part != [] then t.top else status
  {
    if part != [] {
      assert (part + main)[1..] == main;
    } else {
      assert part + main == main;
    }
  }

  /** As long as rounds follow no message has come, and its position does not matter. */
  lemma {:induction false} NoMessageYet(arrivals: seq<Arrival>, clock: seq<Times>, status: int, parts: seq<seq<R.Event>>,
                                        was: R.Positions, lsn: int, msgs: seq<string>)
    requires Rounds(arrivals, clock, status, parts)
    requires |parts| > 0 ==> GoesOn(arrivals[|parts| - 1], parts[|parts| - 1])
    ensures Acts(was, Joined(parts), lsn) == Acts(was, Joined(parts), 0)
    ensures Reported(was, Joined(parts), 0, msgs) ==> Reported(was, Joined(parts), lsn, msgs)
  {
    RoundsOrdered(arrivals, clock, status, parts, |parts|);
    assert parts[..|parts|] == parts;
    NoMessageNoLsn(was, Joined(parts), lsn, msgs);
  }

  lemma {:induction false} SaysThem(recv: int, flush: int, now: int)
    requires Lsn(recv) && Lsn(flush)
    ensures Says(StatusUpdate(recv, flush, now, false), recv, flush)
  {
    ServerReads(recv, flush, now, false);
    UpdateParts("r", BE8(recv), BE8(flush), BE8(0), BE8(now), [0 as char]);
  }

  lemma {:induction false} Assembled(buf: array<char>, write: int, flush: int, now: int, answer: bool)
    requires buf.Length == 34 && buf[0] == 'r' && buf[33] == if answer then 1 as char else 0 as char
    requires buf[1..9] == BE8(write) && buf[9..17] == BE8(flush) && buf[17..25] == BE8(0) && buf[25..33] == BE8(now)
    ensures buf[..34] == StatusUpdate(write, flush, now, answer)
  {
    assert buf[..34] == [buf[0]] + buf[1..9] + buf[9..17] + buf[17..25] + buf[25..33] + [buf[33]];
  }
}
