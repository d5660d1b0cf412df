/** Reading and writing messages on streams, step by step. */
module Transport {
  import opened Bytes
  import Encoder
  import opened Codec
  import opened Headers
  import opened HeaderTheorems
  import opened Frames
  import opened Proxy

  /** A byte stream: a buffer in memory, or what a connection has yet to deliver. */
  class Stream {
    var data: seq<byte>

    constructor (data: seq<byte>)
      ensures this.data == data
    {
      this.data := data;
    }

    method Write(s: seq<byte>)
      modifies this
      ensures data == old(data) + s
    {
      data := data + s;
    }

    /** Reads exactly `n` bytes, or consumes what there is and fails. */
    method ReadFull(n: nat) returns (r: Result<seq<byte>>)
      modifies this
      ensures r == Take(old(data), 0, n)
      ensures data == if r.Ok? then old(data)[n..] else []
    {
      r := Take(data, 0, n);
      data := if r.Ok? then data[n..] else [];
    }
  }

  // ---- headers, one round of each loop ----

  lemma ActorBlock(h: Headers)
    ensures Block(FromActor(h)) == Block(Opt(true, Record(ACTOR, ActorBody(h.actor))))
              + (Block(Opt(h.action != [], Record(ACTION, ActionBody(h.action)))) + Block(FromFlags(h)))
  {
    hide ActorBody, ActionBody, FromFlags, Block;
    var a := Opt(h.action != [], Record(ACTION, ActionBody(h.action)));
    BlockAppend(Opt(true, Record(ACTOR, ActorBody(h.actor))), a + FromFlags(h));
    BlockAppend(a, FromFlags(h));
  }

  lemma FlagsBlock(h: Headers)
    ensures Block(FromFlags(h)) == Block(Opt(h.expectsReply, Record(EXPECTS_REPLY, FlagBody(h.expectsReply))))
              + (Block(Opt(h.highPriority, Record(HIGH_PRIORITY, FlagBody(h.highPriority))))
              + (Block(Opt(h.idempotent, Record(IDEMPOTENT, FlagBody(h.idempotent)))) + Block(FromFault(h))))
  {
    hide FlagBody, FromFault, Block, Opt;
    var high := Opt(h.highPriority, Record(HIGH_PRIORITY, FlagBody(h.highPriority)));
    var idem := Opt(h.idempotent, Record(IDEMPOTENT, FlagBody(h.idempotent)));
    BlockAppend(Opt(h.expectsReply, Record(EXPECTS_REPLY, FlagBody(h.expectsReply))), high + (idem + FromFault(h)));
    BlockAppend(high, idem + FromFault(h));
    BlockAppend(idem, FromFault(h));
  }

  lemma FaultBlock(h: Headers)
    ensures Block(FromFault(h))
            == Block(Opt(h.errorCode != 0 || h.hasFaultBody, Record(FAULT, FaultBody(h.errorCode, h.hasFaultBody))))
            + Block(Opt(h.retryCount > 0, Record(RETRY, RetryBody(h.retryCount))))
  {
    hide FaultBody, RetryBody, Block, Opt;
    BlockAppend(Opt(h.errorCode != 0 || h.hasFaultBody, Record(FAULT, FaultBody(h.errorCode, h.hasFaultBody))),
                Opt(h.retryCount > 0, Record(RETRY, RetryBody(h.retryCount))));
  }

  /** Nine writes in a row are the block of the fixed headers. */
  lemma FixedBlock(h: Headers, base: seq<byte>)
    requires ValidHeaders(h)
    ensures base + Block(Opt(true, Record(MESSAGE_ID, IdBody(h.id))))
            + Block(Opt(h.relatesTo != EMPTY_ID, Record(RELATES_TO, IdBody(h.relatesTo))))
            + Block(Opt(true, Record(ACTOR, ActorBody(h.actor))))
            + Block(Opt(h.action != [], Record(ACTION, ActionBody(h.action))))
            + Block(Opt(h.expectsReply, Record(EXPECTS_REPLY, FlagBody(h.expectsReply))))
            + Block(Opt(h.highPriority, Record(HIGH_PRIORITY, FlagBody(h.highPriority))))
            + Block(Opt(h.idempotent, Record(IDEMPOTENT, FlagBody(h.idempotent))))
            + Block(Opt(h.errorCode != 0 || h.hasFaultBody, Record(FAULT, FaultBody(h.errorCode, h.hasFaultBody))))
            + Block(Opt(h.retryCount > 0, Record(RETRY, RetryBody(h.retryCount))))
            == base + Block(FixedRecords(h))
  {
    hide IdBody, ActorBody, ActionBody, FlagBody, FaultBody, RetryBody, Block, FixedRecords, FromActor, FromFlags,
         FromFault, Opt;
    var r1 := Opt(true, Record(MESSAGE_ID, IdBody(h.id)));
    var r2 := Opt(h.relatesTo != EMPTY_ID, Record(RELATES_TO, IdBody(h.relatesTo)));
    FixedShape(h);
    BlockAppend(r1, r2 + FromActor(h));
    BlockAppend(r2, FromActor(h));
    ActorBlock(h);
    FlagsBlock(h);
    FaultBlock(h);
  }

  function JoinRecords(a: seq<Record>, r: Result<seq<Record>>): Result<seq<Record>> {
    if r.Ok? then Ok(a + r.value) else r
  }

  lemma JoinNone(r: Result<seq<Record>>)
    ensures JoinRecords([], r) == r
  {
    assert r.Ok? ==> [] + r.value == r.value;
  }

  lemma JoinMore(a: seq<Record>, b: seq<Record>, r: Result<seq<Record>>)
    ensures JoinRecords(a, JoinRecords(b, r)) == JoinRecords(a + b, r)
  {
    assert r.Ok? ==> a + (b + r.value) == a + b + r.value;
  }

  lemma NextKey(m: map<HeaderId, seq<Payload>>, order: seq<HeaderId>, i: nat, done: seq<Record>)
    requires i < |order| && ValidCustom(m) && forall k :: k in order ==> k in m
    ensures var l := ListRecords(order[i], m[order[i]]);
            if l.Err? then CustomRecords(m, order[i..]).Err?
            else JoinRecords(done, CustomRecords(m, order[i..])) ==
                 JoinRecords(done + l.value, CustomRecords(m, order[i + 1..]))
  {
    hide ListRecords;
    assert order[i..][0] == order[i] && order[i..][1..] == order[i + 1..];
    if ListRecords(order[i], m[order[i]]).Ok? {
      JoinMore(done, ListRecords(order[i], m[order[i]]).value, CustomRecords(m, order[i + 1..]));
    }
  }

  lemma NoKeys(m: map<HeaderId, seq<Payload>>, order: seq<HeaderId>)
    requires ValidCustom(m)
    ensures order[|order|..] == [] && CustomRecords(m, []) == Ok([])
  {
  }

  lemma TakeLater(s: seq<byte>, p: nat, n: nat)
    ensures p <= |s| ==> Take(s[p..], 0, n) == Take(s, p, n)
    ensures p <= |s| && p + n <= |s| ==> s[p..][n..] == s[p + n..]
  {
    assert p + n <= |s| ==> s[p..][0..n] == s[p..p + n];
  }

  // ---- headers ----

  method WriteMessageHeader(w: Stream, id: HeaderId, p: Payload) returns (ok: bool)
    requires ValidPayload(p)
    modifies w
    ensures ok == MarshalPayload(p).Ok?
    ensures ok ==> w.data == old(w.data) + RecordBytes(Record(id, MarshalPayload(p).value))
  {
    hide LE, MarshalPayload;
    ghost var base := w.data;
    w.Write(LE(id, 2));
    var b := Encoder.Marshal(p);
    if b.Err? {
      return false;
    }
    w.Write(LE(|b.value|, 2));
    w.Write(b.value);
    Assoc(base + LE(id, 2), LE(|b.value|, 2), b.value);
    Assoc(base, LE(id, 2), LE(|b.value|, 2) + b.value);
    Assoc(LE(id, 2), LE(|b.value|, 2), b.value);
    return true;
  }

  /** The keys of a map, in an order of the run time's choosing. */
  method Enumerate<T>(m: map<HeaderId, T>) returns (order: seq<HeaderId>)
    ensures Enumerates(order, m)
  {
    order := [];
    var left := m.Keys;
    while left != {}
      invariant left <= m.Keys
      invariant forall k :: k in m.Keys <==> k in left || k in order
      invariant forall k :: k in left ==> k !in order
      invariant Distinct(order)
      decreases left
    {
      var k :| k in left;
      order := order + [k];
      left := left - {k};
    }
  }

  /** Writes one optional fixed header, its body already marshalled. */
  method WriteFixed(w: Stream, c: bool, r: Record)
    modifies w
    ensures w.data == old(w.data) + Block(Opt(c, r))
  {
    BlockOne(r);
    if c {
      var ok := WriteMessageHeader(w, r.id, Raw(r.body));
    } else {
      assert w.data == w.data + [];
    }
  }

  method WriteFixedHeaders(h: Headers, w: Stream)
    requires ValidHeaders(h)
    modifies w
    ensures w.data == old(w.data) + Block(FixedRecords(h))
  {
    hide IdBody, ActorBody, ActionBody, FlagBody, FaultBody, RetryBody, Block, FixedRecords, Opt;
    ghost var base := w.data;
    WriteFixed(w, true, Record(MESSAGE_ID, IdBody(h.id)));
    WriteFixed(w, h.relatesTo != EMPTY_ID, Record(RELATES_TO, IdBody(h.relatesTo)));
    WriteFixed(w, true, Record(ACTOR, ActorBody(h.actor)));
    WriteFixed(w, h.action != [], Record(ACTION, ActionBody(h.action)));
    WriteFixed(w, h.expectsReply, Record(EXPECTS_REPLY, FlagBody(h.expectsReply)));
    WriteFixed(w, h.highPriority, Record(HIGH_PRIORITY, FlagBody(h.highPriority)));
    WriteFixed(w, h.idempotent, Record(IDEMPOTENT, FlagBody(h.idempotent)));
    WriteFixed(w, h.errorCode != 0 || h.hasFaultBody, Record(FAULT, FaultBody(h.errorCode, h.hasFaultBody)));
    WriteFixed(w, h.retryCount > 0, Record(RETRY, RetryBody(h.retryCount)));
    FixedBlock(h, base);
  }

  /** The custom headers of one id, in order. */
  method WriteList(w: Stream, k: HeaderId, ps: seq<Payload>) returns (ok: bool)
    requires forall i :: 0 <= i < |ps| ==> ValidPayload(ps[i])
    modifies w
    ensures ok == ListRecords(k, ps).Ok?
    ensures ok ==> w.data == old(w.data) + Block(ListRecords(k, ps).value)
  {
    hide MarshalPayload, Block;
    ghost var done: seq<Record> := [];
    assert ps[0..] == ps && Block([]) == [] by { BlockOne(Record(0, [])); }
    JoinNone(ListRecords(k, ps));
    for i := 0 to |ps|
      invariant w.data == old(w.data) + Block(done)
      invariant ListRecords(k, ps) == JoinRecords(done, ListRecords(k, ps[i..]))
    {
      assert ps[i..][0] == ps[i] && ps[i..][1..] == ps[i + 1..];
      var wrote := WriteMessageHeader(w, k, ps[i]);
      if !wrote {
        return false;
      }
      ghost var r := Record(k, MarshalPayload(ps[i]).value);
      JoinMore(done, [r], ListRecords(k, ps[i + 1..]));
      BlockAppend(done, [r]);
      BlockOne(r);
      done := done + [r];
    }
    assert done + [] == done;
    return true;
  }

  method WriteCustomHeaders(m: map<HeaderId, seq<Payload>>, order: seq<HeaderId>, w: Stream) returns (ok: bool)
    requires ValidCustom(m) && forall k :: k in order ==> k in m
    modifies w
    ensures ok == CustomRecords(m, order).Ok?
    ensures ok ==> w.data == old(w.data) + Block(CustomRecords(m, order).value)
  {
    hide Block, CustomRecords, ListRecords;
    ghost var start := w.data;
    ghost var done: seq<Record> := [];
    BlockOne(Record(0, []));
    assert order[0..] == order;
    JoinNone(CustomRecords(m, order));
    for i := 0 to |order|
      invariant w.data == start + Block(done)
      invariant CustomRecords(m, order) == JoinRecords(done, CustomRecords(m, order[i..]))
    {
      NextKey(m, order, i, done);
      var wrote := WriteList(w, order[i], m[order[i]]);
      if !wrote {
        return false;
      }
      BlockAppend(done, ListRecords(order[i], m[order[i]]).value);
      done := done + ListRecords(order[i], m[order[i]]).value;
    }
    NoKeys(m, order);
    assert done + [] == done;
    return true;
  }

  /** Writes all headers; `order` is the order the custom headers were enumerated in. */
  method WriteHeaders(h: Headers, w: Stream) returns (ok: bool, order: seq<HeaderId>)
    requires ValidHeaders(h)
    modifies w
    ensures Enumerates(order, h.custom)
    ensures ok == WriteTo(h, order).Ok?
    ensures ok ==> w.data == old(w.data) + WriteTo(h, order).value
  {
    hide Block, CustomRecords, FixedRecords;
    ghost var base := w.data;
    order := Enumerate(h.custom);
    WriteFixedHeaders(h, w);
    FixedValid(h);
    ok := WriteCustomHeaders(h.custom, order, w);
    if ok {
      BlockAppend(FixedRecords(h), CustomRecords(h.custom, order).value);
    }
  }

  method NextMessageHeader(r: Stream) returns (x: Result<Record>)
    modifies r
    ensures match NextRecord(old(r.data))
            case Ok((rec, rest)) => x == Ok(rec) && r.data == rest
            case Err(e) => x == Err(e)
  {
    ghost var s := r.data;
    var id := r.ReadFull(2);
    if id.Err? {
      return Err(id.error);
    }
    var size := r.ReadFull(2);
    TakeLater(s, 2, 2);
    if size.Err? {
      return Err(size.error);
    }
    WordBound(id.value);
    var body := r.ReadFull(FromLE(size.value));
    TakeLater(s, 4, FromLE(size.value));
    if body.Err? {
      return Err(body.error);
    }
    return Ok(Record(FromLE(id.value), body.value));
  }

  /** Reads records until the stream ends, filling in the headers one after another. */
  method ParseHeaders(acts: Activators, r: Stream) returns (x: Result<Headers>)
    modifies r
    ensures x == Parse(acts, old(r.data))
  {
    hide Apply, NextRecord, ValidHeaders;
    var headers := NO_HEADERS;
    FixedValid(headers);
    while true
      invariant ValidHeaders(headers)
      invariant ParseFrom(acts, NO_HEADERS, old(r.data)) == ParseFrom(acts, headers, r.data)
      decreases |r.data|
    {
      var rec := NextMessageHeader(r);
      if rec.Err? {
        return if rec.error == Eof then Ok(headers) else Err(rec.error);
      }
      var applied := Apply(acts, headers, rec.value);
      if applied.Err? {
        return applied;
      }
      headers := applied.value;
    }
  }

  // ---- frames ----

  method WriteFrame(w: Stream, crc: Checksums, headerLen: nat, msg: seq<byte>, cfg: WriteConfig)
    modifies w
    ensures w.data == old(w.data) + FrameOf(crc, headerLen, msg, cfg)
  {
    ghost var base := w.data;
    var header := PlainHeader(headerLen, msg, cfg);
    var b := HeaderBytes(header);
    if cfg.headerCrc {
      header := header.(headerCrc := crc.crc8(b));
    }
    if cfg.bodyCrc {
      header := header.(bodyCrc := crc.crc32(msg));
    }
    w.Write(HeaderBytes(header));
    w.Write(msg);
    assert base + HeaderBytes(header) + msg == base + (HeaderBytes(header) + msg);
  }

  method ReadFrame(r: Stream, crc: Checksums, cfg: ReadConfig) returns (x: Result<(FrameHeader, seq<byte>)>)
    modifies r
    ensures match NextFrame(crc, cfg, old(r.data))
            case Ok((f, body, rest)) => x == Ok((f, body)) && r.data == rest
            case Err(e) => x == Err(e)
  {
    hide BodyLength, HeaderBytes, HeaderFrom;
    ghost var s := r.data;
    var h := r.ReadFull(12);
    if h.Err? {
      return Err(h.error);
    }
    var f := HeaderFrom(h.value);
    if cfg.checkHeaderCrc && f.headerCrc != crc.crc8(HeaderBytes(f.(headerCrc := 0, bodyCrc := 0))) {
      return Err(Malformed);
    }
    var body := r.ReadFull(BodyLength(f));
    TakeLater(s, 12, BodyLength(f));
    if body.Err? {
      return Err(body.error);
    }
    if cfg.checkBodyCrc && f.bodyCrc != crc.crc32(body.value) {
      return Err(Malformed);
    }
    return Ok((f, body.value));
  }

  // ---- messages ----

  /** Marshals headers and body into one buffer and frames it. */
  method WriteMessageWithFrame(w: Stream, crc: Checksums, m: Message, cfg: WriteConfig)
    returns (ok: bool, order: seq<HeaderId>)
    requires ValidMessage(m)
    modifies w
    ensures Enumerates(order, m.headers.custom)
    ensures ok == Packet(crc, m, order, cfg).Ok?
    ensures w.data == if ok then old(w.data) + Packet(crc, m, order, cfg).value else old(w.data)
  {
    hide FrameOf, WriteTo, MarshalPayload;
    var buf := new Stream([]);
    ok, order := WriteHeaders(m.headers, buf);
    if !ok {
      return;
    }
    assert buf.data == WriteTo(m.headers, order).value;
    var headerLen := |buf.data|;
    var body := BodyBytes(m);
    if body.Err? {
      return false, order;
    }
    buf.Write(body.value);
    WriteFrame(w, crc, headerLen, buf.data, cfg);
    return true, order;
  }

  method ReadMessage(r: Stream, crc: Checksums, acts: Activators, cfg: ReadConfig)
    returns (x: Result<(Headers, seq<byte>)>)
    modifies r
    ensures match NextMessage(crc, acts, cfg, old(r.data))
            case Ok((h, b, rest)) => x == Ok((h, b)) && r.data == rest
            case Err(e) => x == Err(e)
  {
    hide NextFrame, Parse;
    var fr := ReadFrame(r, crc, cfg);
    if fr.Err? {
      return Err(fr.error);
    }
    var (f, frame) := fr.value;
    if f.headerLength > |frame| {
      return Err(Panic);
    }
    var s := new Stream(frame[..f.headerLength]);
    var h := ParseHeaders(acts, s);
    if h.Err? {
      return Err(h.error);
    }
    return Ok((h.value, frame[f.headerLength..]));
  }

  // ---- one round of the forwarding loop ----

  /** Having sent `sent` with `orders`, whatever the loop does from `s` on continues what it did from `start`. */
  ghost predicate SoFar(crc: Checksums, acts: Activators, hop: Hop, filter: Option<Filter>, start: seq<byte>,
                        orders: seq<seq<HeaderId>>, sent: seq<byte>, s: seq<byte>)
    requires FilterOk(filter)
  {
    forall tail, more {:trigger Copies(crc, acts, hop, filter, s, more, tail)} ::
      Copies(crc, acts, hop, filter, s, more, tail) ==>
      Copies(crc, acts, hop, filter, start, orders + more, sent + tail)
  }

  lemma NoneSoFar(crc: Checksums, acts: Activators, hop: Hop, filter: Option<Filter>, start: seq<byte>)
    requires FilterOk(filter)
    ensures SoFar(crc, acts, hop, filter, start, [], [], start)
  {
    hide Copies, FilterOk;
    forall tail, more | Copies(crc, acts, hop, filter, start, more, tail)
      ensures Copies(crc, acts, hop, filter, start, [] + more, [] + tail)
    {
      assert [] + more == more && [] + tail == tail;
    }
  }

  lemma CopyStops(crc: Checksums, acts: Activators, hop: Hop, filter: Option<Filter>, start: seq<byte>,
                  orders: seq<seq<HeaderId>>, sent: seq<byte>, s: seq<byte>)
    requires FilterOk(filter) && SoFar(crc, acts, hop, filter, start, orders, sent, s)
    requires NextMessage(crc, acts, hop.source, s).Err?
    ensures Copies(crc, acts, hop, filter, start, orders, sent)
  {
    hide NextMessage, FilterOk;
    assert Copies(crc, acts, hop, filter, s, [], []);
    assert orders + [] == orders && sent + [] == sent;
  }

  lemma CopyDrops(crc: Checksums, acts: Activators, hop: Hop, filter: Option<Filter>, start: seq<byte>,
                  orders: seq<seq<HeaderId>>, sent: seq<byte>, s: seq<byte>)
    requires FilterOk(filter) && SoFar(crc, acts, hop, filter, start, orders, sent, s)
    requires NextMessage(crc, acts, hop.source, s).Ok?
    requires var (h, b, _) := NextMessage(crc, acts, hop.source, s).value; Filtered(filter, h, b).None?
    ensures SoFar(crc, acts, hop, filter, start, orders, sent, NextMessage(crc, acts, hop.source, s).value.2)
  {
    hide NextMessage, FilterOk, Filtered;
    var rest := NextMessage(crc, acts, hop.source, s).value.2;
    forall tail, more | Copies(crc, acts, hop, filter, rest, more, tail)
      ensures Copies(crc, acts, hop, filter, start, orders + more, sent + tail)
    {
      assert Copies(crc, acts, hop, filter, s, more, tail);
    }
  }

  lemma CopyFails(crc: Checksums, acts: Activators, hop: Hop, filter: Option<Filter>, start: seq<byte>,
                  orders: seq<seq<HeaderId>>, sent: seq<byte>, s: seq<byte>, order: seq<HeaderId>)
    requires FilterOk(filter) && SoFar(crc, acts, hop, filter, start, orders, sent, s)
    requires NextMessage(crc, acts, hop.source, s).Ok?
    requires var (h, b, _) := NextMessage(crc, acts, hop.source, s).value;
             var m := Filtered(filter, h, b);
             && m.Some? && ValidMessage(m.value) && Enumerates(order, m.value.headers.custom)
             && Packet(crc, m.value, order, hop.dest).Err?
    ensures Copies(crc, acts, hop, filter, start, orders + [order], sent)
  {
    hide NextMessage, FilterOk, Filtered, Packet, ValidMessage;
    assert Copies(crc, acts, hop, filter, s, [order], []);
    assert sent + [] == sent;
  }

  lemma CopySends(crc: Checksums, acts: Activators, hop: Hop, filter: Option<Filter>, start: seq<byte>,
                  orders: seq<seq<HeaderId>>, sent: seq<byte>, s: seq<byte>, order: seq<HeaderId>)
    requires FilterOk(filter) && SoFar(crc, acts, hop, filter, start, orders, sent, s)
    requires NextMessage(crc, acts, hop.source, s).Ok?
    requires var (h, b, _) := NextMessage(crc, acts, hop.source, s).value;
             var m := Filtered(filter, h, b);
             && m.Some? && ValidMessage(m.value) && Enumerates(order, m.value.headers.custom)
             && Packet(crc, m.value, order, hop.dest).Ok?
    ensures var (h, b, rest) := NextMessage(crc, acts, hop.source, s).value;
            SoFar(crc, acts, hop, filter, start, orders + [order],
                  sent + Packet(crc, Filtered(filter, h, b).value, order, hop.dest).value, rest)
  {
    hide NextMessage, FilterOk, Filtered, Packet, ValidMessage;
    var (h, b, rest) := NextMessage(crc, acts, hop.source, s).value;
    var p := Packet(crc, Filtered(filter, h, b).value, order, hop.dest).value;
    forall tail, more | Copies(crc, acts, hop, filter, rest, more, tail)
      ensures Copies(crc, acts, hop, filter, start, orders + [order] + more, sent + p + tail)
    {
      assert (p + tail)[|p|..] == tail && ([order] + more)[1..] == more && p <= p + tail;
      assert Copies(crc, acts, hop, filter, s, [order] + more, p + tail);
      assert orders + ([order] + more) == orders + [order] + more && sent + (p + tail) == sent + p + tail;
    }
  }

  lemma MessageOk(filter: Option<Filter>, h: Headers, b: seq<byte>)
    requires FilterOk(filter) && ValidHeaders(h) && Filtered(filter, h, b).Some?
    ensures ValidMessage(Filtered(filter, h, b).value)
  {
  }

  lemma CopiesLaw(crc: Checksums, acts: Activators, hop: Hop, filter: Option<Filter>, s: seq<byte>,
                  orders: seq<seq<HeaderId>>, out: seq<byte>)
    requires FilterOk(filter) && Copies(crc, acts, hop, filter, s, orders, out)
    ensures match filter
            case None => Forwards(crc, acts, hop, s, out)
            case Some(f) => Filters(crc, acts, hop, f, s, out)
  {
    hide Copies, FilterOk, Forwards, Filters;
    match filter
    case None => CopiesForward(crc, acts, hop, s, orders, out);
    case Some(f) => CopiesFilter(crc, acts, hop, f, s, orders, out);
  }

  // ---- the forwarding loop ----

  /** The forwarding loop of one direction, up to its first error. */
  method CopyLoop(src: Stream, dst: Stream, crc: Checksums, acts: Activators, hop: Hop, filter: Option<Filter>)
    returns (orders: seq<seq<HeaderId>>)
    requires src != dst && FilterOk(filter)
    modifies src, dst
    ensures old(dst.data) <= dst.data
    ensures Copies(crc, acts, hop, filter, old(src.data), orders, dst.data[|old(dst.data)|..])
    ensures match filter
            case None => Forwards(crc, acts, hop, old(src.data), dst.data[|old(dst.data)|..])
            case Some(f) => Filters(crc, acts, hop, f, old(src.data), dst.data[|old(dst.data)|..])
  {
    hide NextMessage, Packet, ValidMessage, ValidHeaders, Filtered, FilterOk, Copies, Enumerates, SoFar, Filters,
         Forwards;
    orders := [];
    ghost var start, base := src.data, dst.data;
    ghost var sent: seq<byte> := [];
    NoneSoFar(crc, acts, hop, filter, start);
    while true
      invariant dst.data == base + sent
      invariant SoFar(crc, acts, hop, filter, start, orders, sent, src.data)
      decreases |src.data|
    {
      ghost var s := src.data;
      var next := ReadMessage(src, crc, acts, hop.source);
      if next.Err? {
        CopyStops(crc, acts, hop, filter, start, orders, sent, s);
        CopiesLaw(crc, acts, hop, filter, start, orders, sent);
        return;
      }
      var (h, b) := next.value;
      var m := Filtered(filter, h, b);
      if m.None? {
        CopyDrops(crc, acts, hop, filter, start, orders, sent, s);
        continue;
      }
      MessageOk(filter, h, b);
      var ok, order := WriteMessageWithFrame(dst, crc, m.value, hop.dest);
      if ok {
        CopySends(crc, acts, hop, filter, start, orders, sent, s, order);
        sent := sent + Packet(crc, m.value, order, hop.dest).value;
        orders := orders + [order];
      } else {
        CopyFails(crc, acts, hop, filter, start, orders, sent, s, order);
        orders := orders + [order];
        CopiesLaw(crc, acts, hop, filter, start, orders, sent);
        return;
      }
    }
  }
}
