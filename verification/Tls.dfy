/** The connection TLS handshakes over: framed while the handshake lasts, raw afterwards. */
module Tls {
  import opened Bytes
  import opened Schema
  import opened Codec
  import opened Evolution
  import opened Versioning
  import opened ShortBodies
  import opened Headers
  import opened HeaderTheorems
  import opened Frames
  import opened Factory
  import opened Transport

  const SECURITY_CONTEXT: i64 := 35
  const NO_CHECKS := ReadConfig(false, false)
  const SSL := WriteConfig(1, false, false)

  // ---- the negotiation header ----

  function ListenTypes(): seq<Schema> { [Str, Num(false, 8), Guid, Bool, Num(false, 4)] }
  function ListenType(): Schema { Struct(PlainAll(ListenTypes())) }
  function NegotiationTypes(): seq<Schema> { [Bool, Bool, ListenType(), Num(false, 8)] }
  function NegotiationType(): Schema { Struct(PlainAll(NegotiationTypes())) }

  function ListenVals(): seq<Value> { [VStr([]), VInt(0), VGuid(EMPTY_GUID), VBool(false), VInt(0)] }
  function NegotiationVals(): seq<Value> { [VBool(true), VBool(true), VStruct(ListenVals()), VInt(0)] }
  function Negotiation(): Payload { Typed(NegotiationType(), VStruct(NegotiationVals())) }

  /** A handshake message: its body is what was written; the first one carries the negotiation header. */
  function HandshakeMessage(id: MessageId, first: bool, b: seq<byte>): Message {
    Message(NO_HEADERS.(id := id, actor := SECURITY_CONTEXT,
                        custom := if first then map[SECURITY_NEGOTIATION := [Negotiation()]] else map[]),
            Some(Raw(b)))
  }

  function HandshakeOrder(first: bool): seq<HeaderId> {
    if first then [SECURITY_NEGOTIATION] else []
  }

  /** What one write may hold at most for its frame's length to fit. */
  predicate WriteFits(b: seq<byte>) {
    |b| < 0xFFFE_FFF4
  }

  lemma {:induction false} AllHaveAll(ts: seq<Schema>, vs: seq<Value>)
    requires |ts| == |vs| && forall i {:trigger ts[i]} :: 0 <= i < |ts| ==> HasType(ts[i], vs[i])
    ensures AllHave(ts, vs)
  {
    hide HasType;
    if ts != [] {
      AllHaveAll(ts[1..], vs[1..]);
    }
  }

  lemma ListenSmall()
    ensures HasType(ListenType(), VStruct(ListenVals())) && Encode(ListenType(), VStruct(ListenVals())).Ok?
    ensures |Encode(ListenType(), VStruct(ListenVals())).value| <= 512
  {
    hide PlainAll, EncodeAll, AllHave;
    var ts, vs := ListenTypes(), ListenVals();
    forall i | 0 <= i < |ts| ensures HasType(ts[i], vs[i]) && Small(ts[i], vs[i]) {
      LeafSmall(ts[i], vs[i]);
    }
    AllHaveAll(ts, vs);
    AllSmall(ts, vs);
    PlainSmall(ts, vs);
  }

  lemma NegotiationLeaves()
    ensures HasType(Bool, VBool(true)) && Small(Bool, VBool(true))
    ensures HasType(Num(false, 8), VInt(0)) && Small(Num(false, 8), VInt(0))
  {
    LeafSmall(Bool, VBool(true));
    LeafSmall(Num(false, 8), VInt(0));
  }

  lemma FourEncode(ts: seq<Schema>, vs: seq<Value>)
    requires |ts| == 4 && AllHave(ts, vs)
    requires forall i {:trigger ts[i]} :: 0 <= i < 4 ==> HasType(ts[i], vs[i]) && Encode(ts[i], vs[i]).Ok?
    requires forall i {:trigger ts[i]} :: 0 <= i < 4 ==> |Encode(ts[i], vs[i]).value| <= 512
    ensures EncodeAll(ts, vs).Ok? && |EncodeAll(ts, vs).value| <= 4 * 512
  {
    hide HasType, Encode;
    var t1, v1 := ts[1..], vs[1..];
    var t2, v2 := t1[1..], v1[1..];
    var t3, v3 := t2[1..], v2[1..];
    assert t1[0] == ts[1] && t2[0] == ts[2] && t3[0] == ts[3] && t3[1..] == [];
    assert v1[0] == vs[1] && v2[0] == vs[2] && v3[0] == vs[3];
    assert EncodeAll(t3, v3).Ok? && |EncodeAll(t3, v3).value| <= 512;
    assert EncodeAll(t2, v2).Ok? && |EncodeAll(t2, v2).value| <= 2 * 512;
    assert EncodeAll(t1, v1).Ok? && |EncodeAll(t1, v1).value| <= 3 * 512;
  }

  lemma NegotiationSmall()
    ensures HasType(NegotiationType(), VStruct(NegotiationVals()))
    ensures Encode(NegotiationType(), VStruct(NegotiationVals())).Ok?
    ensures |Encode(NegotiationType(), VStruct(NegotiationVals())).value| < 0x1000
  {
    hide PlainAll, AllHave, ListenType, ListenVals, HasType, Encode, EncodeAll;
    ListenSmall();
    var ts, vs := NegotiationTypes(), NegotiationVals();
    NegotiationLeaves();
    AllHaveAll(ts, vs);
    FourEncode(ts, vs);
    PlainSmall(ts, vs);
  }

  lemma HandshakeValid(id: MessageId, first: bool, b: seq<byte>)
    requires IsGuid(id.guid)
    ensures ValidMessage(HandshakeMessage(id, first, b))
    ensures Enumerates(HandshakeOrder(first), HandshakeMessage(id, first, b).headers.custom)
  {
    hide HasType, NegotiationTypes, NegotiationVals, PlainAll;
    NegotiationSmall();
  }

  /** The frame of a handshake message. */
  function HandshakePacket(crc: Checksums, id: MessageId, first: bool, b: seq<byte>): seq<byte>
    requires IsGuid(id.guid)
  {
    HandshakeValid(id, first, b);
    var p := Packet(crc, HandshakeMessage(id, first, b), HandshakeOrder(first), SSL);
    if p.Ok? then p.value else []
  }

  // ---- handshake messages are small and well-formed ----

  lemma TwoKeys(order: seq<HeaderId>)
    requires |order| > 1 && Distinct(order)
    ensures order[0] != order[1]
  {
  }

  lemma OnlyOrder(id: MessageId, first: bool, b: seq<byte>, order: seq<HeaderId>)
    requires Enumerates(order, HandshakeMessage(id, first, b).headers.custom)
    ensures order == HandshakeOrder(first)
  {
    var custom := HandshakeMessage(id, first, b).headers.custom;
    assert first ==> SECURITY_NEGOTIATION in custom;
    var front := if order == [] then SECURITY_NEGOTIATION else order[0];
    assert order == [] || front in order;
    forall i | 0 <= i < |order| ensures order[i] == SECURITY_NEGOTIATION && first {
      assert order[i] in order;
    }
    if |order| > 1 {
      TwoKeys(order);
      assert false;
    }
    if first {
      assert SECURITY_NEGOTIATION in order;
      assert order == [order[0]];
    }
  }

  lemma HandshakeRecords(id: MessageId, first: bool, b: seq<byte>)
    requires IsGuid(id.guid)
    ensures ValidHeaders(HandshakeMessage(id, first, b).headers)
    ensures var h := HandshakeMessage(id, first, b).headers;
            && FixedRecords(h) == [Record(MESSAGE_ID, IdBody(id)), Record(ACTOR, ActorBody(SECURITY_CONTEXT))]
            && HeadersFit(h) && CustomFits(h.custom)
  {
    hide IdBody, ActorBody, HasType, NegotiationTypes, NegotiationVals, PlainAll, Encode;
    HandshakeValid(id, first, b);
    NegotiationSmall();
    IdSmall(id);
    ActorSmall(SECURITY_CONTEXT);
  }

  /** The record the negotiation header is written as. */
  function NegotiationRecord(): Record {
    NegotiationSmall();
    Record(SECURITY_NEGOTIATION, Encode(NegotiationType(), VStruct(NegotiationVals())).value)
  }

  function BlockOf(id: MessageId, first: bool): seq<Record>
    requires IsGuid(id.guid)
  {
    [Record(MESSAGE_ID, IdBody(id)), Record(ACTOR, ActorBody(SECURITY_CONTEXT))]
    + if first then [NegotiationRecord()] else []
  }

  lemma HandshakeBlock(id: MessageId, first: bool, b: seq<byte>)
    requires IsGuid(id.guid)
    ensures ValidHeaders(HandshakeMessage(id, first, b).headers)
    ensures Enumerates(HandshakeOrder(first), HandshakeMessage(id, first, b).headers.custom)
    ensures WriteTo(HandshakeMessage(id, first, b).headers, HandshakeOrder(first)) == Ok(Block(BlockOf(id, first)))
  {
    hide IdBody, ActorBody, HasType, NegotiationTypes, NegotiationVals, PlainAll, Encode, RecordBytes, FixedRecords,
         ValidHeaders, Block;
    HandshakeValid(id, first, b);
    HandshakeRecords(id, first, b);
    NegotiationSmall();
    var m := HandshakeMessage(id, first, b).headers.custom;
    if first {
      var n := NegotiationRecord();
      assert [SECURITY_NEGOTIATION][1..] == [] && [Negotiation()][1..] == [];
      assert ListRecords(SECURITY_NEGOTIATION, [Negotiation()]) == Ok([n] + []);
      assert CustomRecords(m, [SECURITY_NEGOTIATION]) == Ok([n] + [] + []);
      assert [n] + [] + [] == [n];
    } else {
      assert CustomRecords(m, []) == Ok([]);
    }
  }

  lemma BlockSmall(id: MessageId, first: bool)
    requires IsGuid(id.guid)
    ensures AllFit(BlockOf(id, first)) && |Block(BlockOf(id, first))| < 0x1_0000
  {
    hide IdBody, ActorBody, Encode, NegotiationType, NegotiationVals, RecordBytes, Block;
    NegotiationSmall();
    IdSmall(id);
    ActorSmall(SECURITY_CONTEXT);
    var i, a := Record(MESSAGE_ID, IdBody(id)), Record(ACTOR, ActorBody(SECURITY_CONTEXT));
    BlockOne(i);
    BlockOne(a);
    BlockAppend([i], [a]);
    assert [i] + [a] == [i, a];
    if first {
      BlockOne(NegotiationRecord());
      BlockAppend([i, a], [NegotiationRecord()]);
    } else {
      assert [i, a] + [] == [i, a];
    }
  }

  lemma HandshakeSize(id: MessageId, first: bool, b: seq<byte>)
    requires IsGuid(id.guid)
    ensures ValidHeaders(HandshakeMessage(id, first, b).headers)
    ensures Enumerates(HandshakeOrder(first), HandshakeMessage(id, first, b).headers.custom)
    ensures var x := WriteTo(HandshakeMessage(id, first, b).headers, HandshakeOrder(first));
            x.Ok? ==> |x.value| < 0x1_0000
  {
    hide *;
    HandshakeBlock(id, first, b);
    BlockSmall(id, first);
  }

  lemma HandshakeSendable(id: MessageId, first: bool, b: seq<byte>)
    requires IsGuid(id.guid) && WriteFits(b)
    ensures ValidMessage(HandshakeMessage(id, first, b)) && Sendable(HandshakeMessage(id, first, b))
  {
    hide HeadersFit, CustomFits, ValidHeaders, WriteTo, Negotiation, HasType, HandshakeOrder;
    HandshakeValid(id, first, b);
    HandshakeRecords(id, first, b);
    HandshakeSize(id, first, b);
    var h := HandshakeMessage(id, first, b).headers;
    forall order {:trigger WriteTo(h, order)} | Enumerates(order, h.custom) && WriteTo(h, order).Ok?
      ensures |WriteTo(h, order).value| < 0x1_0000
    {
      OnlyOrder(id, first, b, order);
    }
  }

  lemma NothingArrives(acts: Activators, id: MessageId, first: bool, b: seq<byte>)
    requires IsGuid(id.guid)
    ensures var m := HandshakeMessage(id, first, b).headers.custom;
            ValidCustom(m) && Arrives(acts, m) && Arrived(acts, m) == map[]
  {
    hide ReceiveAll, HasType;
    HandshakeValid(id, first, b);
  }

  /** A handshake message is read back from the front of the wire: its body, and nothing of what follows. The
      negotiation header is skipped by the parser. */
  lemma HandshakeBack(crc: Checksums, acts: Activators, id: MessageId, first: bool, b: seq<byte>, rest: seq<byte>)
    requires IsGuid(id.guid) && WriteFits(b)
    ensures NextMessage(crc, acts, NO_CHECKS, HandshakePacket(crc, id, first, b) + rest) ==
            Ok((NO_HEADERS.(id := id, actor := 35), b, rest))
  {
    hide Packet, NextMessage, HeadersFit, CustomFits, Sendable, ReceiveAll, ValidHeaders;
    var m := HandshakeMessage(id, first, b);
    HandshakeValid(id, first, b);
    HandshakeSendable(id, first, b);
    MessageRoundTrip(crc, acts, m, HandshakeOrder(first), SSL, NO_CHECKS, rest);
    NothingArrives(acts, id, first, b);
  }

  // ---- the negotiation header, seen on the wire ----

  /** The records a header block consists of. */
  function RecordsIn(s: seq<byte>): seq<Record>
    decreases |s|
  {
    match NextRecord(s)
    case Err(_) => []
    case Ok((r, rest)) => [r] + RecordsIn(rest)
  }

  lemma {:induction false} RecordsInBlock(rs: seq<Record>)
    requires AllFit(rs)
    ensures RecordsIn(Block(rs)) == rs
    decreases |rs|
  {
    hide NextRecord, RecordBytes;
    if rs == [] {
      NextOfNothing();
    } else {
      NextOfBlock(rs[0], Block(rs[1..]));
      RecordsInBlock(rs[1..]);
    }
  }

  /** The bodies of the records with id `k`. */
  function BodiesOf(rs: seq<Record>, k: int): seq<seq<byte>> {
    if rs == [] then []
    else (if rs[0].id == k then [rs[0].body] else []) + BodiesOf(rs[1..], k)
  }

  /** Whoever reads the body as a struct of two bools finds both set. */
  predicate OffersFraming(body: seq<byte>) {
    Unmarshal(Struct([Plain(Bool), Plain(Bool)]), body, Zero(Struct([Plain(Bool), Plain(Bool)])))
    == Ok(VStruct([VBool(true), VBool(true)]))
  }

  /** The bytes start with a frame of the SSL provider whose header block holds a record with id 0x8048, which
      offers framing, if `first`, and none if not. */
  predicate Negotiates(crc: Checksums, s: seq<byte>, first: bool) {
    match NextFrame(crc, ReadConfig(false, false), s)
    case Err(_) => false
    case Ok((f, frame, _)) =>
      && f.headerLength <= |frame| && f.mask == 1
      && var found := BodiesOf(RecordsIn(frame[..f.headerLength]), 0x8048);
         if first then |found| == 1 && OffersFraming(found[0]) else found == []
  }

  /** Its fields are the types and values listed. */
  lemma NegotiationPlain()
    ensures AllHave(NegotiationTypes(), NegotiationVals())
    ensures AllFields(PlainAll(NegotiationTypes())) == NegotiationTypes()
    ensures FieldsHave(PlainAll(NegotiationTypes()), NegotiationVals())
    ensures AllVals(PlainAll(NegotiationTypes()), NegotiationVals()) == NegotiationVals()
  {
    hide HasType, ListenType, ListenVals;
    var ts, vs := NegotiationTypes(), NegotiationVals();
    ListenSmall();
    NegotiationLeaves();
    AllHaveAll(ts, vs);
    PlainFields(ts);
    PlainVals(ts, vs);
  }

  lemma FlagsCompat()
    ensures Compat(NegotiationType(), Struct([Plain(Bool), Plain(Bool)]))
    ensures CompatAll(NegotiationTypes(), [Bool, Bool])
  {
    hide ListenType;
    var ts, us := NegotiationTypes(), [Bool, Bool];
    PlainFields(ts);
    EntryFields(Bool, Bool);
    assert us[1..] == [Bool] && us[1..][1..] == [] && ts[1..][0] == Bool;
    assert CompatAll(ts[1..], us[1..]);
  }

  lemma BoolSame(v: Value, t: Value)
    requires HasType(Bool, v) && HasType(Bool, t)
    ensures Compat(Bool, Bool) && Convert(Bool, Bool, v, t) == v
  {
  }

  lemma FlagsConverted(us: seq<Value>)
    requires AllHave([Bool, Bool], us)
    ensures CompatAll(NegotiationTypes(), [Bool, Bool]) && AllHave(NegotiationTypes(), NegotiationVals())
    ensures ConvertAll(NegotiationTypes(), [Bool, Bool], NegotiationVals(), us) == [VBool(true), VBool(true)]
  {
    hide HasType, ListenType, ListenVals, Compat, Convert, PlainAll;
    var ts, vs := NegotiationTypes(), NegotiationVals();
    NegotiationPlain();
    FlagsCompat();
    SharedFields(ts, [Bool, Bool], vs, us, 0);
    SharedFields(ts, [Bool, Bool], vs, us, 1);
    BoolSame(vs[0], us[0]);
    BoolSame(vs[1], us[1]);
  }

  lemma TwoFlags(c: Value)
    requires c.VStruct? && FieldsHave([Plain(Bool), Plain(Bool)], c.vals)
    ensures |c.vals| == 2 && AllVals([Plain(Bool), Plain(Bool)], c.vals) == c.vals
  {
    TwoFields(Bool, Bool, c.vals);
    TwoReached(Bool, Bool, c.vals);
  }

  /** A reader of two bools gets the first two fields. */
  lemma FlagsRead()
    ensures var w, r := NegotiationType(), Struct([Plain(Bool), Plain(Bool)]);
            && HasType(w, VStruct(NegotiationVals())) && Compat(w, r)
            && Convert(w, r, VStruct(NegotiationVals()), Zero(r)) == VStruct([VBool(true), VBool(true)])
  {
    hide HasType, NegotiationTypes, NegotiationVals, Compat, CompatAll, Convert, ConvertAll, PlainAll, PutVals,
         AllFields, AllVals, AllHave, FieldsHave;
    var gs := [Plain(Bool), Plain(Bool)];
    NegotiationSmall();
    NegotiationPlain();
    FlagsCompat();
    var t := Zero(Struct(gs));
    StructFields(PlainAll(NegotiationTypes()), gs, VStruct(NegotiationVals()), t);
    EntryFields(Bool, Bool);
    FlagsConverted(AllVals(gs, t.vals));
    TwoFlags(Convert(NegotiationType(), Struct(gs), VStruct(NegotiationVals()), t));
  }

  lemma NegotiationOffers()
    ensures OffersFraming(NegotiationRecord().body)
  {
    hide Encode, Decode, Unmarshal, Convert, HasType, ListenType, ListenVals;
    var ts, vs := NegotiationTypes(), NegotiationVals();
    var fs, gs := PlainAll(ts), [Plain(Bool), Plain(Bool)];
    NegotiationSmall();
    NegotiationPlain();
    FlagsRead();
    var e := NegotiationRecord().body;
    SchemaEvolution(Struct(fs), Struct(gs), VStruct(vs), Zero(Struct(gs)), e, []);
    assert e + [] == e;
  }

  lemma BodiesFirst(r: Record, rest: seq<Record>, k: int)
    ensures BodiesOf([r] + rest, k) == (if r.id == k then [r.body] else []) + BodiesOf(rest, k)
  {
    assert ([r] + rest)[1..] == rest;
  }

  lemma NoBodies(k: int)
    ensures BodiesOf([], k) == []
  {
  }

  lemma NegotiationId()
    ensures NegotiationRecord().id == 0x8048
  {
    hide Encode;
  }

  lemma BlockBodies(id: MessageId, first: bool)
    requires IsGuid(id.guid)
    ensures BodiesOf(BlockOf(id, first), 0x8048) == if first then [NegotiationRecord().body] else []
  {
    hide IdBody, ActorBody, NegotiationRecord, BodiesOf;
    var i, a := Record(MESSAGE_ID, IdBody(id)), Record(ACTOR, ActorBody(SECURITY_CONTEXT));
    var n := if first then [NegotiationRecord()] else [];
    assert BlockOf(id, first) == [i] + ([a] + n);
    BodiesFirst(i, [a] + n, 0x8048);
    BodiesFirst(a, n, 0x8048);
    assert n == (if first then [NegotiationRecord()] + [] else []) && BodiesOf([], 0x8048) == [] by {
      NoBodies(0x8048);
    }
    if first {
      NegotiationId();
      BodiesFirst(NegotiationRecord(), [], 0x8048);
    }
  }

  /** On the wire the first handshake message, and no other, carries the negotiation header. */
  lemma HandshakeNegotiates(crc: Checksums, id: MessageId, first: bool, b: seq<byte>, rest: seq<byte>)
    requires IsGuid(id.guid) && WriteFits(b)
    ensures Negotiates(crc, HandshakePacket(crc, id, first, b) + rest, first)
  {
    hide HeadersFit, CustomFits, WriteTo, ValidHeaders, Block, FrameOf, NextFrame, BlockOf, NextRecord, BodiesOf,
         OffersFraming, RecordsIn, HandshakeOrder, NegotiationRecord;
    var rs := BlockOf(id, first);
    var block := Block(rs);
    HandshakeBlock(id, first, b);
    BlockSmall(id, first);
    HandshakeValid(id, first, b);
    FrameRoundTrip(crc, |block|, block + b, SSL, ReadConfig(false, false), rest);
    assert (block + b)[..|block|] == block;
    RecordsInBlock(rs);
    BlockBodies(id, first);
    NegotiationOffers();
  }

  // ---- one connection ----

  function TakeBuffered(rbuf: seq<byte>, wire: seq<byte>, n: nat): (seq<byte>, seq<byte>, seq<byte>) {
    var m := if n <= |rbuf| then n else |rbuf|;
    (rbuf[..m], rbuf[m..], wire)
  }

  /** What a read of at most `n` bytes returns, what stays buffered, and what is left on the wire. `k` is how much
      the raw connection chooses to deliver. An empty handshake message reads as the end of the stream. */
  function ReadStep(crc: Checksums, acts: Activators, done: bool, rbuf: seq<byte>, wire: seq<byte>, n: nat, k: nat)
    : Result<(seq<byte>, seq<byte>, seq<byte>)>
    requires k <= n && k <= |wire|
  {
    if rbuf != [] then Ok(TakeBuffered(rbuf, wire, n))
    else if !done then
      var (_, b, rest) :- NextMessage(crc, acts, NO_CHECKS, wire);
      if b == [] && n > 0 then Err(Eof) else Ok(TakeBuffered(b, rest, n))
    else Ok((wire[..k], [], wire[k..]))
  }

  /** What a write puts on the wire. */
  function WriteStep(crc: Checksums, done: bool, negoSend: bool, id: MessageId, b: seq<byte>): seq<byte>
    requires IsGuid(id.guid)
  {
    if done then b else HandshakePacket(crc, id, !negoSend, b)
  }

  /** One end of the connection; `input` and `output` are the two directions of the raw connection. */
  class SecureConn {
    const input: Stream
    const output: Stream
    var handshakeCompleted: bool
    var negoSend: bool
    var rbuf: seq<byte>
    const mf: MessageFactory

    constructor (input: Stream, output: Stream, mf: MessageFactory, initbuf: seq<byte>)
      ensures this.input == input && this.output == output && this.mf == mf
      ensures rbuf == initbuf && !handshakeCompleted && !negoSend
    {
      this.input, this.output, this.mf := input, output, mf;
      rbuf, handshakeCompleted, negoSend := initbuf, false, false;
    }

    method MarkHandshakeComplete()
      modifies this
      ensures handshakeCompleted && rbuf == old(rbuf) && negoSend == old(negoSend)
    {
      handshakeCompleted := true;
    }

    method TakeFromBuffer(n: nat) returns (r: Result<seq<byte>>)
      modifies this
      ensures r == if old(rbuf) == [] && n > 0 then Err(Eof) else Ok(TakeBuffered(old(rbuf), [], n).0)
      ensures rbuf == TakeBuffered(old(rbuf), [], n).1
      ensures handshakeCompleted == old(handshakeCompleted) && negoSend == old(negoSend)
    {
      if rbuf == [] && n > 0 {
        return Err(Eof);
      }
      var m := if n <= |rbuf| then n else |rbuf|;
      r := Ok(rbuf[..m]);
      rbuf := rbuf[m..];
    }

    /** The next handshake message, buffered and then read from. */
    method ReadFramed(crc: Checksums, acts: Activators, n: nat) returns (r: Result<seq<byte>>)
      requires rbuf == []
      modifies this, input
      ensures match NextMessage(crc, acts, NO_CHECKS, old(input.data))
              case Ok((_, b, rest)) =>
                && r == (if b == [] && n > 0 then Err(Eof) else Ok(TakeBuffered(b, rest, n).0))
                && rbuf == TakeBuffered(b, rest, n).1 && input.data == rest
              case Err(e) => r == Err(e)
      ensures handshakeCompleted == old(handshakeCompleted) && negoSend == old(negoSend)
    {
      hide NextMessage;
      var m := ReadMessage(input, crc, acts, NO_CHECKS);
      if m.Err? {
        return Err(m.error);
      }
      rbuf := rbuf + m.value.1;
      assert rbuf == m.value.1;
      r := TakeFromBuffer(n);
    }

    /** The raw connection delivers some of what it has, at least a byte if it can. */
    method ReadRaw(n: nat) returns (b: seq<byte>)
      modifies input
      ensures |b| <= n && old(input.data) == b + input.data
      ensures n > 0 && old(input.data) != [] ==> b != []
    {
      var most := if n <= |input.data| then n else |input.data|;
      var k :| 0 <= k <= most && (most > 0 ==> k > 0);
      b := input.data[..k];
      input.data := input.data[k..];
    }

    /** Buffered bytes first; then the next handshake message, or whatever the raw connection delivers. */
    method Read(crc: Checksums, acts: Activators, n: nat) returns (r: Result<seq<byte>>, k: nat)
      modifies this, input
      ensures k <= n && k <= |old(input.data)|
      ensures old(handshakeCompleted && rbuf == [] && input.data != []) && n > 0 ==> k > 0
      ensures match ReadStep(crc, acts, old(handshakeCompleted), old(rbuf), old(input.data), n, k)
              case Ok((b, buffered, wire)) => r == Ok(b) && rbuf == buffered && input.data == wire
              case Err(e) => r == Err(e)
      ensures handshakeCompleted == old(handshakeCompleted) && negoSend == old(negoSend)
    {
      hide NextMessage;
      k := 0;
      if rbuf != [] {
        r := TakeFromBuffer(n);
      } else if !handshakeCompleted {
        r := ReadFramed(crc, acts, n);
      } else {
        var b := ReadRaw(n);
        r, k := Ok(b), |b|;
      }
    }

    /** Framed while the handshake lasts; the error of the framed write is not looked at. */
    method Write(crc: Checksums, b: seq<byte>) returns (n: nat)
      requires IsGuid(mf.prefix)
      modifies this, output, mf
      ensures n == |b|
      ensures handshakeCompleted == old(handshakeCompleted) && rbuf == old(rbuf)
      ensures negoSend == (old(negoSend) || !handshakeCompleted)
      ensures var id := IdAt(mf.prefix, old(mf.index), 1);
              output.data == old(output.data) + WriteStep(crc, handshakeCompleted, old(negoSend), id, b)
      ensures !handshakeCompleted && WriteFits(b) ==>
                Negotiates(crc, output.data[|old(output.data)|..], !old(negoSend))
      ensures mf.index == if handshakeCompleted then old(mf.index) else IdAt(mf.prefix, old(mf.index), 1).index
    {
      hide Packet, ValidMessage, Enumerates, NegotiationType, NegotiationVals, Negotiates;
      n := |b|;
      if !handshakeCompleted {
        var msg := mf.NewMessage();
        var custom: map<HeaderId, seq<Payload>> := map[];
        if !negoSend {
          custom := map[SECURITY_NEGOTIATION := [Negotiation()]];
        }
        var m := Message(msg.headers.(actor := SECURITY_CONTEXT, custom := custom), Some(Raw(b)));
        ghost var id := IdAt(mf.prefix, old(mf.index), 1);
        assert m == HandshakeMessage(id, !negoSend, b);
        HandshakeValid(id, !negoSend, b);
        var ok, order := WriteMessageWithFrame(output, crc, m, SSL);
        OnlyOrder(id, !negoSend, b, order);
        assert output.data == old(output.data) + HandshakePacket(crc, id, !negoSend, b);
        if WriteFits(b) {
          HandshakeNegotiates(crc, id, !negoSend, b, []);
          assert HandshakePacket(crc, id, !negoSend, b) + [] == HandshakePacket(crc, id, !negoSend, b);
        }
        negoSend := true;
      } else {
        output.Write(b);
      }
    }
  }
}
