/** One direction of the handshake connection, over all its runs: a plain byte pipe. */
module TlsPipe {
  import opened Bytes
  import opened Schema
  import opened Headers
  import opened Frames
  import opened Tls

  /** A handshake message that was written, and whether it carried the negotiation header. */
  datatype Framed = Framed(id: MessageId, first: bool, body: seq<byte>)

  /** The writing end, the reading end, the bytes between them, and the history of the run. */
  datatype Pipe = Pipe(
    writerDone: bool, negoSend: bool,
    readerDone: bool, rbuf: seq<byte>,
    wire: seq<byte>,
    sent: seq<byte>, received: seq<byte>, log: seq<Framed>, consumed: nat)

  datatype Event =
    | Write(id: MessageId, b: seq<byte>)
    | FinishWriter
    | Read(n: nat, k: nat)
    | FinishReader

  /** A server starts with the body of a first message that was read before. */
  function Start(initbuf: seq<byte>): Pipe {
    Pipe(false, false, false, initbuf, [], initbuf, [], [], 0)
  }

  /** What may happen. A reader that finds nothing waits; the reader switches to raw bytes at the point of the
      stream where the writer did. */
  predicate Allowed(st: Pipe, ev: Event) {
    match ev
    case Write(id, b) => IsGuid(id.guid) && b != [] && WriteFits(b)
    case FinishWriter => true
    case Read(n, k) => k <= n && k <= |st.wire| && (st.rbuf != [] || st.readerDone || st.consumed < |st.log|)
    case FinishReader => st.writerDone && st.consumed == |st.log|
  }

  function Step(crc: Checksums, acts: Activators, st: Pipe, ev: Event): Pipe
    requires Allowed(st, ev)
  {
    match ev
    case Write(id, b) =>
      st.(wire := st.wire + WriteStep(crc, st.writerDone, st.negoSend, id, b),
          negoSend := st.negoSend || !st.writerDone,
          log := if st.writerDone then st.log else st.log + [Framed(id, !st.negoSend, b)],
          sent := st.sent + b)
    case FinishWriter => st.(writerDone := true)
    case Read(n, k) =>
      (match ReadStep(crc, acts, st.readerDone, st.rbuf, st.wire, n, k)
       case Err(_) => st
       case Ok((b, rbuf, wire)) =>
         st.(rbuf := rbuf, wire := wire, received := st.received + b,
             consumed := st.consumed + if st.rbuf == [] && !st.readerDone then 1 else 0))
    case FinishReader => st.(readerDone := true)
  }

  predicate ValidFramed(f: Framed) {
    IsGuid(f.id.guid) && f.body != [] && WriteFits(f.body)
  }

  predicate ValidLog(log: seq<Framed>) {
    forall i {:trigger log[i]} :: 0 <= i < |log| ==> ValidFramed(log[i]) && log[i].first == (i == 0)
  }

  function Packets(crc: Checksums, fs: seq<Framed>): seq<byte>
    requires forall i {:trigger fs[i]} :: 0 <= i < |fs| ==> ValidFramed(fs[i])
  {
    if fs == [] then []
    else
      assert ValidFramed(fs[0]);
      HandshakePacket(crc, fs[0].id, fs[0].first, fs[0].body) + Packets(crc, fs[1..])
  }

  function Bodies(fs: seq<Framed>): seq<byte> {
    if fs == [] then [] else fs[0].body + Bodies(fs[1..])
  }

  /** The wire holds the handshake messages not yet read and then `raw` bytes; together with what is buffered
      they are what was sent and has not been received. */
  predicate Holds(crc: Checksums, st: Pipe, raw: seq<byte>) {
    && ValidLog(st.log) && st.consumed <= |st.log| && st.negoSend == (st.log != [])
    && (st.readerDone ==> st.writerDone && st.consumed == |st.log|)
    && (!st.writerDone ==> raw == [])
    && st.wire == Packets(crc, st.log[st.consumed..]) + raw
    && st.sent == st.received + (st.rbuf + (Bodies(st.log[st.consumed..]) + raw))
  }

  ghost predicate Inv(crc: Checksums, st: Pipe) {
    exists raw :: Holds(crc, st, raw)
  }

  lemma PacketsFirst(crc: Checksums, g: Framed, fs: seq<Framed>)
    requires ValidFramed(g) && forall i {:trigger fs[i]} :: 0 <= i < |fs| ==> ValidFramed(fs[i])
    ensures Packets(crc, [g] + fs) == HandshakePacket(crc, g.id, g.first, g.body) + Packets(crc, fs)
    ensures Bodies([g] + fs) == g.body + Bodies(fs)
  {
    hide HandshakePacket, ValidFramed;
    assert ([g] + fs)[1..] == fs;
  }

  lemma NothingFramed(crc: Checksums)
    ensures Packets(crc, []) == [] && Bodies([]) == []
  {
  }

  lemma {:induction false} PacketsAppend(crc: Checksums, fs: seq<Framed>, f: Framed)
    requires forall i {:trigger fs[i]} :: 0 <= i < |fs| ==> ValidFramed(fs[i])
    requires ValidFramed(f)
    ensures Packets(crc, fs + [f]) == Packets(crc, fs) + HandshakePacket(crc, f.id, f.first, f.body)
    ensures Bodies(fs + [f]) == Bodies(fs) + f.body
  {
    hide HandshakePacket, WriteFits, Packets, Bodies;
    NothingFramed(crc);
    var p := HandshakePacket(crc, f.id, f.first, f.body);
    if fs == [] {
      PacketsFirst(crc, f, []);
      assert fs + [f] == [f] == [f] + [];
      assert p + [] == [] + p == p && f.body + [] == [] + f.body == f.body;
    } else {
      var g, rest := fs[0], fs[1..];
      PacketsAppend(crc, rest, f);
      PacketsFirst(crc, g, rest);
      PacketsFirst(crc, g, rest + [f]);
      assert fs == [g] + rest && fs + [f] == [g] + (rest + [f]);
      Assoc(HandshakePacket(crc, g.id, g.first, g.body), Packets(crc, rest), p);
      Assoc(g.body, Bodies(rest), f.body);
    }
  }

  /** Bytes sent are outstanding. */
  lemma Added(received: seq<byte>, rbuf: seq<byte>, more: seq<byte>, b: seq<byte>)
    ensures received + (rbuf + more) + b == received + (rbuf + (more + b))
  {
  }

  lemma WriteKeeps(crc: Checksums, acts: Activators, st: Pipe, raw: seq<byte>, id: MessageId, b: seq<byte>)
    requires Holds(crc, st, raw) && Allowed(st, Write(id, b))
    ensures Holds(crc, Step(crc, acts, st, Write(id, b)), if st.writerDone then raw + b else [])
  {
    hide HandshakePacket, Packets, Bodies, WriteFits;
    var rest := st.log[st.consumed..];
    if st.writerDone {
      Assoc(Packets(crc, rest), raw, b);
      Assoc(Bodies(rest), raw, b);
      Added(st.received, st.rbuf, Bodies(rest) + raw, b);
    } else {
      var f := Framed(id, !st.negoSend, b);
      PacketsAppend(crc, rest, f);
      assert (st.log + [f])[st.consumed..] == rest + [f];
      assert Packets(crc, rest) + [] == Packets(crc, rest) && Bodies(rest) + [] == Bodies(rest);
      assert Packets(crc, rest + [f]) + [] == Packets(crc, rest + [f]) && Bodies(rest) + b + [] == Bodies(rest) + b;
      Added(st.received, st.rbuf, Bodies(rest), b);
    }
  }

  /** Moving bytes from the front of what is outstanding to what was received. */
  lemma Shift(received: seq<byte>, b: seq<byte>, buffered: seq<byte>, more: seq<byte>)
    ensures received + (b + buffered + more) == received + b + (buffered + more)
  {
  }

  lemma BufferedReadKeeps(crc: Checksums, acts: Activators, st: Pipe, raw: seq<byte>, n: nat, k: nat)
    requires Holds(crc, st, raw) && Allowed(st, Read(n, k)) && st.rbuf != []
    ensures Holds(crc, Step(crc, acts, st, Read(n, k)), raw)
  {
    hide HandshakePacket, Packets, Bodies, NextMessage, ValidLog, WriteFits;
    var (b, buffered, _) := TakeBuffered(st.rbuf, st.wire, n);
    assert st.rbuf == b + buffered;
    Shift(st.received, b, buffered, Bodies(st.log[st.consumed..]) + raw);
  }

  lemma PacketsHead(crc: Checksums, fs: seq<Framed>)
    requires fs != [] && forall i {:trigger fs[i]} :: 0 <= i < |fs| ==> ValidFramed(fs[i])
    ensures ValidFramed(fs[0])
    ensures Packets(crc, fs) == HandshakePacket(crc, fs[0].id, fs[0].first, fs[0].body) + Packets(crc, fs[1..])
    ensures Bodies(fs) == fs[0].body + Bodies(fs[1..])
  {
    hide HandshakePacket, ValidFramed;
  }

  /** What a framed read finds: the first message not yet read. */
  lemma FirstOnWire(crc: Checksums, st: Pipe, raw: seq<byte>) returns (f: Framed, tail: seq<Framed>)
    requires Holds(crc, st, raw) && st.consumed < |st.log|
    ensures f == st.log[st.consumed] && tail == st.log[st.consumed + 1..] && ValidFramed(f)
    ensures forall i {:trigger tail[i]} :: 0 <= i < |tail| ==> ValidFramed(tail[i])
    ensures st.wire == HandshakePacket(crc, f.id, f.first, f.body) + (Packets(crc, tail) + raw)
    ensures st.sent == st.received + (st.rbuf + (f.body + (Bodies(tail) + raw)))
  {
    hide HandshakePacket, WriteFits, Packets, Bodies;
    var rest := st.log[st.consumed..];
    PacketsHead(crc, rest);
    f, tail := rest[0], rest[1..];
    Assoc(HandshakePacket(crc, f.id, f.first, f.body), Packets(crc, tail), raw);
    Assoc(f.body, Bodies(tail), raw);
  }

  /** Its body went to the buffer, and from there partly to the reader. */
  lemma MessageTaken(crc: Checksums, st: Pipe, st': Pipe, raw: seq<byte>, tail: seq<Framed>,
                     b: seq<byte>, buffered: seq<byte>)
    requires Holds(crc, st, raw) && st.consumed < |st.log| && st.rbuf == [] && !st.readerDone
    requires st.log[st.consumed].body == b + buffered
    requires st' == st.(rbuf := buffered, wire := st'.wire, received := st.received + b, consumed := st.consumed + 1)
    requires tail == st.log[st.consumed + 1..]
    requires forall i {:trigger tail[i]} :: 0 <= i < |tail| ==> ValidFramed(tail[i])
    requires st'.wire == Packets(crc, tail) + raw
    ensures Holds(crc, st', raw)
  {
    hide HandshakePacket, WriteFits, Packets, Bodies;
    var f, _ := FirstOnWire(crc, st, raw);
    assert [] + (f.body + (Bodies(tail) + raw)) == b + buffered + (Bodies(tail) + raw);
    Shift(st.received, b, buffered, Bodies(tail) + raw);
  }

  lemma FramedReadKeeps(crc: Checksums, acts: Activators, st: Pipe, raw: seq<byte>, n: nat, k: nat)
    requires Holds(crc, st, raw) && Allowed(st, Read(n, k)) && st.rbuf == [] && !st.readerDone
    ensures ReadStep(crc, acts, false, [], st.wire, n, k).Ok?
    ensures Holds(crc, Step(crc, acts, st, Read(n, k)), raw)
  {
    hide HandshakePacket, NextMessage, WriteFits, Packets, Bodies, Holds;
    var f, tail := FirstOnWire(crc, st, raw);
    HandshakeBack(crc, acts, f.id, f.first, f.body, Packets(crc, tail) + raw);
    var (b, buffered, _) := TakeBuffered(f.body, Packets(crc, tail) + raw, n);
    assert f.body == b + buffered;
    MessageTaken(crc, st, Step(crc, acts, st, Read(n, k)), raw, tail, b, buffered);
  }

  lemma RawReadKeeps(crc: Checksums, acts: Activators, st: Pipe, raw: seq<byte>, n: nat, k: nat)
    requires Holds(crc, st, raw) && Allowed(st, Read(n, k)) && st.rbuf == [] && st.readerDone
    ensures k <= |raw| && Holds(crc, Step(crc, acts, st, Read(n, k)), raw[k..])
  {
    hide HandshakePacket, NextMessage, WriteFits, Packets, Bodies;
    assert st.log[st.consumed..] == [];
    NothingFramed(crc);
    assert [] + raw == raw && raw == raw[..k] + raw[k..] && [] + raw[k..] == raw[k..];
    Assoc(st.received, raw[..k], raw[k..]);
  }

  lemma FinishKeeps(crc: Checksums, acts: Activators, st: Pipe, raw: seq<byte>, ev: Event)
    requires Holds(crc, st, raw) && Allowed(st, ev) && (ev.FinishWriter? || ev.FinishReader?)
    ensures Holds(crc, Step(crc, acts, st, ev), raw)
  {
  }

  /** Every step keeps the invariant, and no read fails. */
  lemma StepKeeps(crc: Checksums, acts: Activators, st: Pipe, ev: Event)
    requires Inv(crc, st) && Allowed(st, ev)
    ensures Inv(crc, Step(crc, acts, st, ev))
    ensures ev.Read? ==> ReadStep(crc, acts, st.readerDone, st.rbuf, st.wire, ev.n, ev.k).Ok?
  {
    hide Holds, NextMessage, HandshakePacket;
    var raw :| Holds(crc, st, raw);
    match ev
    case Write(id, b) => WriteKeeps(crc, acts, st, raw, id, b);
    case Read(n, k) =>
      if st.rbuf != [] {
        BufferedReadKeeps(crc, acts, st, raw, n, k);
      } else if st.readerDone {
        RawReadKeeps(crc, acts, st, raw, n, k);
      } else {
        FramedReadKeeps(crc, acts, st, raw, n, k);
      }
    case FinishWriter => FinishKeeps(crc, acts, st, raw, ev);
    case FinishReader => FinishKeeps(crc, acts, st, raw, ev);
  }

  /** `evs` is a run from `st` in which every event is allowed. */
  predicate IsRun(crc: Checksums, acts: Activators, st: Pipe, evs: seq<Event>)
    decreases |evs|
  {
    evs == [] || (Allowed(st, evs[0]) && IsRun(crc, acts, Step(crc, acts, st, evs[0]), evs[1..]))
  }

  function Run(crc: Checksums, acts: Activators, st: Pipe, evs: seq<Event>): Pipe
    requires IsRun(crc, acts, st, evs)
    decreases |evs|
  {
    if evs == [] then st else Run(crc, acts, Step(crc, acts, st, evs[0]), evs[1..])
  }

  lemma {:induction false} RunKeeps(crc: Checksums, acts: Activators, st: Pipe, evs: seq<Event>)
    requires Inv(crc, st) && IsRun(crc, acts, st, evs)
    ensures Inv(crc, Run(crc, acts, st, evs))
    decreases |evs|
  {
    hide Step, Inv, Allowed;
    if evs != [] {
      StepKeeps(crc, acts, st, evs[0]);
      RunKeeps(crc, acts, Step(crc, acts, st, evs[0]), evs[1..]);
    }
  }

  lemma StartHolds(crc: Checksums, initbuf: seq<byte>)
    ensures Inv(crc, Start(initbuf))
  {
    assert [] + (initbuf + ([] + [])) == initbuf;
    assert Holds(crc, Start(initbuf), []);
  }

  lemma PacketNotEmpty(crc: Checksums, f: Framed)
    requires ValidFramed(f)
    ensures HandshakePacket(crc, f.id, f.first, f.body) != []
  {
    hide Packet, NextMessage, WriteFits;
    HandshakeBack(crc, map[], f.id, f.first, f.body, []);
    NothingNext(crc, map[], NO_CHECKS);
  }

  lemma NothingUnread(crc: Checksums, st: Pipe, raw: seq<byte>)
    requires Holds(crc, st, raw) && st.wire == []
    ensures st.log[st.consumed..] == [] && Bodies([]) == [] && raw == []
  {
    hide HandshakePacket, WriteFits, Bodies;
    var rest := st.log[st.consumed..];
    NothingFramed(crc);
    if rest != [] {
      PacketNotEmpty(crc, rest[0]);
      assert false;
    }
  }

  lemma LogNegotiates(crc: Checksums, log: seq<Framed>)
    requires ValidLog(log)
    ensures forall i {:trigger log[i]} :: 0 <= i < |log| ==>
              && ValidFramed(log[i])
              && Negotiates(crc, HandshakePacket(crc, log[i].id, log[i].first, log[i].body), i == 0)
  {
    hide HandshakePacket, WriteFits, Negotiates;
    forall i | 0 <= i < |log|
      ensures ValidFramed(log[i])
      ensures Negotiates(crc, HandshakePacket(crc, log[i].id, log[i].first, log[i].body), i == 0)
    {
      var p := HandshakePacket(crc, log[i].id, log[i].first, log[i].body);
      HandshakeNegotiates(crc, log[i].id, log[i].first, log[i].body, []);
      assert p + [] == p;
    }
  }

  /** The handshake connection is a byte pipe. After any run the bytes sent (the initial buffer first) are, in
      order, those received, those buffered, and those on the wire: the bodies of the handshake messages not yet
      read and then `raw` bytes, which are all the wire holds. Once nothing is buffered or on the wire, all has been
      received. Of the handshake messages written the first one, and no other, carries on the wire a record with the
      id of the negotiation header, and that offers framing. */
  lemma BytePipe(crc: Checksums, acts: Activators, initbuf: seq<byte>, evs: seq<Event>) returns (raw: seq<byte>)
    requires IsRun(crc, acts, Start(initbuf), evs)
    ensures var st := Run(crc, acts, Start(initbuf), evs);
            && ValidLog(st.log) && st.consumed <= |st.log|
            && var unread := st.log[st.consumed..];
               && st.wire == Packets(crc, unread) + raw
               && st.sent == st.received + (st.rbuf + (Bodies(unread) + raw))
               && st.received <= st.sent && (st.rbuf == [] && st.wire == [] ==> st.received == st.sent)
               && forall i {:trigger st.log[i]} :: 0 <= i < |st.log| ==>
                    Negotiates(crc, HandshakePacket(crc, st.log[i].id, st.log[i].first, st.log[i].body), i == 0)
  {
    hide Step, Allowed, HandshakePacket, ValidLog, Negotiates;
    StartHolds(crc, initbuf);
    RunKeeps(crc, acts, Start(initbuf), evs);
    var st := Run(crc, acts, Start(initbuf), evs);
    raw :| Holds(crc, st, raw);
    if st.wire == [] {
      NothingUnread(crc, st, raw);
    }
    LogNegotiates(crc, st.log);
  }

  /** Without the demand that writes are not empty this fails: a framed read into a non-empty buffer succeeds
      exactly when the message read is not empty; an empty one looks like the end of the stream. */
  lemma EmptyWriteEndsStream(crc: Checksums, acts: Activators, id: MessageId, first: bool, b: seq<byte>,
                             rest: seq<byte>, n: nat)
    requires IsGuid(id.guid) && WriteFits(b) && n > 0
    ensures ReadStep(crc, acts, false, [], HandshakePacket(crc, id, first, b) + rest, n, 0).Ok? <==> b != []
  {
    hide NextMessage, HandshakePacket;
    HandshakeBack(crc, acts, id, first, b, rest);
  }
}
