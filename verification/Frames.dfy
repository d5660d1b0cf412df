/** Frames and messages on a stream: what is written, and what reading any bytes gives, as functions. */
module Frames {
  import opened Bytes
  import opened Codec
  import opened Headers
  import opened HeaderTheorems

  /** The two checksums, whatever they compute. */
  datatype Checksums = Checksums(crc8: seq<byte> -> byte, crc32: seq<byte> -> u32)

  datatype ReadConfig = ReadConfig(checkHeaderCrc: bool, checkBodyCrc: bool)
  datatype WriteConfig = WriteConfig(mask: byte, headerCrc: bool, bodyCrc: bool)

  datatype FrameHeader = FrameHeader(frameLength: u32, mask: byte, headerCrc: byte, headerLength: u16, bodyCrc: u32)

  function HeaderBytes(f: FrameHeader): (s: seq<byte>)
    ensures |s| == 12
  {
    LE(f.frameLength, 4) + [f.mask, f.headerCrc] + LE(f.headerLength, 2) + LE(f.bodyCrc, 4)
  }

  function HeaderFrom(s: seq<byte>): FrameHeader
    requires |s| == 12
  {
    WordBound(s[0..4]); WordBound(s[6..8]); WordBound(s[8..12]);
    FrameHeader(FromLE(s[0..4]), s[4], s[5], FromLE(s[6..8]), FromLE(s[8..12]))
  }

  lemma HeaderBack(f: FrameHeader)
    ensures HeaderFrom(HeaderBytes(f)) == f
  {
    hide LE, FromLE;
    var s := HeaderBytes(f);
    assert s[0..4] == LE(f.frameLength, 4) && s[6..8] == LE(f.headerLength, 2) && s[8..12] == LE(f.bodyCrc, 4);
    assert s[4] == f.mask && s[5] == f.headerCrc;
    WordRoundTrip(f.frameLength, 4);
    WordRoundTrip(f.headerLength, 2);
    WordRoundTrip(f.bodyCrc, 4);
  }

  /** The header both checksums are computed without. Lengths are cast to their fields. */
  function PlainHeader(headerLen: nat, msg: seq<byte>, cfg: WriteConfig): FrameHeader {
    FrameHeader((12 + |msg|) % 0x1_0000_0000, cfg.mask, 0, headerLen % 0x1_0000, 0)
  }

  function FrameOf(crc: Checksums, headerLen: nat, msg: seq<byte>, cfg: WriteConfig): seq<byte> {
    var plain := PlainHeader(headerLen, msg, cfg);
    HeaderBytes(plain.(headerCrc := if cfg.headerCrc then crc.crc8(HeaderBytes(plain)) else 0,
                       bodyCrc := if cfg.bodyCrc then crc.crc32(msg) else 0)) + msg
  }

  /** A length below that of the header wraps around. */
  function BodyLength(f: FrameHeader): nat {
    (f.frameLength as int - 12) % 0x1_0000_0000
  }

  /** The next frame and what follows it. */
  function NextFrame(crc: Checksums, cfg: ReadConfig, s: seq<byte>): (r: Result<(FrameHeader, seq<byte>, seq<byte>)>)
    ensures r.Ok? ==> |r.value.2| < |s|
  {
    var h :- Take(s, 0, 12);
    var f := HeaderFrom(h);
    if cfg.checkHeaderCrc && f.headerCrc != crc.crc8(HeaderBytes(f.(headerCrc := 0, bodyCrc := 0))) then Err(Malformed)
    else
      var body :- Take(s, 12, BodyLength(f));
      if cfg.checkBodyCrc && f.bodyCrc != crc.crc32(body) then Err(Malformed)
      else Ok((f, body, s[12 + |body|..]))
  }

  /** Whether a reader accepts the checksums of a frame: each one it checks was generated, or is zero anyway. */
  predicate Accepted(crc: Checksums, headerLen: nat, msg: seq<byte>, wc: WriteConfig, rc: ReadConfig) {
    && (rc.checkHeaderCrc && !wc.headerCrc ==> crc.crc8(HeaderBytes(PlainHeader(headerLen, msg, wc))) == 0)
    && (rc.checkBodyCrc && !wc.bodyCrc ==> crc.crc32(msg) == 0)
  }

  predicate FrameFits(headerLen: nat, msg: seq<byte>) {
    headerLen < 0x1_0000 && 12 + |msg| < 0x1_0000_0000
  }

  /** A frame is read back as written, or refused: exactly when the checksums are accepted. */
  lemma FrameRoundTrip(crc: Checksums, headerLen: nat, msg: seq<byte>, wc: WriteConfig, rc: ReadConfig, rest: seq<byte>)
    requires FrameFits(headerLen, msg)
    ensures var r := NextFrame(crc, rc, FrameOf(crc, headerLen, msg, wc) + rest);
            if Accepted(crc, headerLen, msg, wc, rc) then
              r.Ok? && r.value.0.headerLength == headerLen && r.value.0.mask == wc.mask
              && r.value.1 == msg && r.value.2 == rest
            else r == Err(Malformed)
  {
    hide HeaderBytes, HeaderFrom;
    var plain := PlainHeader(headerLen, msg, wc);
    var f := plain.(headerCrc := if wc.headerCrc then crc.crc8(HeaderBytes(plain)) else 0,
                    bodyCrc := if wc.bodyCrc then crc.crc32(msg) else 0);
    var s := HeaderBytes(f) + msg + rest;
    assert s == FrameOf(crc, headerLen, msg, wc) + rest;
    assert s[0..12] == HeaderBytes(f);
    HeaderBack(f);
    assert f.(headerCrc := 0, bodyCrc := 0) == plain;
    assert s[12..12 + |msg|] == msg && s[12 + |msg|..] == rest;
  }

  // ---- messages ----

  datatype Option<T> = None | Some(value: T)

  /** No body, bytes, or a value to be marshalled. */
  datatype Message = Message(headers: Headers, body: Option<Payload>)

  predicate ValidMessage(m: Message) {
    ValidHeaders(m.headers) && (m.body.Some? ==> ValidPayload(m.body.value))
  }

  function BodyBytes(m: Message): Result<seq<byte>>
    requires ValidMessage(m)
  {
    if m.body.None? then Ok([]) else MarshalPayload(m.body.value)
  }

  /** The frame of a message, its custom headers in the given order. */
  function Packet(crc: Checksums, m: Message, order: seq<HeaderId>, wc: WriteConfig): Result<seq<byte>>
    requires ValidMessage(m) && Enumerates(order, m.headers.custom)
  {
    var block :- WriteTo(m.headers, order);
    var body :- BodyBytes(m);
    Ok(FrameOf(crc, |block|, block + body, wc))
  }

  /** The headers and the body of the next message, and what follows it. A header length beyond the frame is a
      slice out of range. */
  function NextMessage(crc: Checksums, acts: Activators, rc: ReadConfig, s: seq<byte>)
    : (r: Result<(Headers, seq<byte>, seq<byte>)>)
    ensures r.Ok? ==> ValidHeaders(r.value.0) && |r.value.2| < |s|
  {
    var (f, frame, rest) :- NextFrame(crc, rc, s);
    if f.headerLength > |frame| then Err(Panic)
    else
      var h :- Parse(acts, frame[..f.headerLength]);
      Ok((h, frame[f.headerLength..], rest))
  }

  /** A message whose parts fit their size fields, whatever order its custom headers are written in. */
  ghost predicate Sendable(m: Message)
    requires ValidMessage(m)
  {
    && HeadersFit(m.headers) && CustomFits(m.headers.custom) && BodyBytes(m).Ok?
    && forall order {:trigger WriteTo(m.headers, order)} ::
         Enumerates(order, m.headers.custom) && WriteTo(m.headers, order).Ok? ==>
         |WriteTo(m.headers, order).value| < 0x1_0000
         && 12 + |WriteTo(m.headers, order).value| + |BodyBytes(m).value| < 0x1_0000_0000
  }

  /** A reader checks no checksum the writer does not generate. */
  predicate Agree(wc: WriteConfig, rc: ReadConfig) {
    (rc.checkHeaderCrc ==> wc.headerCrc) && (rc.checkBodyCrc ==> wc.bodyCrc)
  }

  /** A message is read back from the front of a stream with its headers as they arrive, its body, and nothing
      of what follows. */
  lemma MessageRoundTrip(crc: Checksums, acts: Activators, m: Message, order: seq<HeaderId>, wc: WriteConfig,
                         rc: ReadConfig, rest: seq<byte>)
    requires ValidMessage(m) && Sendable(m) && Enumerates(order, m.headers.custom) && Agree(wc, rc)
    ensures Packet(crc, m, order, wc).Ok?
    ensures Arrives(acts, m.headers.custom) ==>
              NextMessage(crc, acts, rc, Packet(crc, m, order, wc).value + rest) ==
              Ok((Fixed(m.headers).(custom := Arrived(acts, m.headers.custom)), BodyBytes(m).value, rest))
    ensures !Arrives(acts, m.headers.custom) ==>
              NextMessage(crc, acts, rc, Packet(crc, m, order, wc).value + rest).Err?
  {
    hide WriteTo, Parse, HeadersFit, CustomFits, Arrives, Arrived, FrameOf, NextFrame, Fixed, MarshalPayload,
         ValidHeaders;
    HeadersRoundTrip(acts, m.headers, order);
    var block, body := WriteTo(m.headers, order).value, BodyBytes(m).value;
    FrameRoundTrip(crc, |block|, block + body, wc, rc, rest);
    assert (block + body)[..|block|] == block && (block + body)[|block|..] == body;
  }

  // ---- streams ----

  /** All the messages a reader gets from a stream before its first error. */
  function Messages(crc: Checksums, acts: Activators, rc: ReadConfig, s: seq<byte>): seq<(Headers, seq<byte>)>
    decreases |s|
  {
    match NextMessage(crc, acts, rc, s)
    case Err(_) => []
    case Ok((h, b, rest)) => [(h, b)] + Messages(crc, acts, rc, rest)
  }

  /** The error reading stops at. */
  function StopsWith(crc: Checksums, acts: Activators, rc: ReadConfig, s: seq<byte>): Error
    decreases |s|
  {
    match NextMessage(crc, acts, rc, s)
    case Err(e) => e
    case Ok((_, _, rest)) => StopsWith(crc, acts, rc, rest)
  }

  /** Messages written back to back. */
  function Written(crc: Checksums, wc: WriteConfig, ms: seq<Message>, orders: seq<seq<HeaderId>>): Result<seq<byte>>
    requires |ms| == |orders|
    requires forall i :: 0 <= i < |ms| ==> ValidMessage(ms[i]) && Enumerates(orders[i], ms[i].headers.custom)
  {
    if ms == [] then Ok([])
    else
      var p :- Packet(crc, ms[0], orders[0], wc);
      var rest :- Written(crc, wc, ms[1..], orders[1..]);
      Ok(p + rest)
  }

  ghost predicate Receivable(acts: Activators, m: Message) {
    ValidMessage(m) && Sendable(m) && Arrives(acts, m.headers.custom)
  }

  ghost function Received(acts: Activators, m: Message): (Headers, seq<byte>)
    requires Receivable(acts, m)
  {
    (Fixed(m.headers).(custom := Arrived(acts, m.headers.custom)), BodyBytes(m).value)
  }

  lemma NothingNext(crc: Checksums, acts: Activators, rc: ReadConfig)
    ensures NextMessage(crc, acts, rc, []) == Err(Eof)
  {
  }

  /** A stream of messages is read back in order, each with its own headers and body, and then ends cleanly. */
  lemma {:induction false} StreamRoundTrip(crc: Checksums, acts: Activators, wc: WriteConfig, rc: ReadConfig,
                                           ms: seq<Message>, orders: seq<seq<HeaderId>>)
    requires Agree(wc, rc) && |ms| == |orders|
    requires forall i {:trigger ms[i]} :: 0 <= i < |ms| ==> Receivable(acts, ms[i])
    requires forall i :: 0 <= i < |ms| ==> ValidMessage(ms[i]) && Enumerates(orders[i], ms[i].headers.custom)
    ensures Written(crc, wc, ms, orders).Ok?
    ensures var s := Written(crc, wc, ms, orders).value;
            && StopsWith(crc, acts, rc, s) == Eof
            && |Messages(crc, acts, rc, s)| == |ms|
            && forall i {:trigger ms[i]} :: 0 <= i < |ms| ==> Messages(crc, acts, rc, s)[i] == Received(acts, ms[i])
    decreases |ms|
  {
    hide Packet, NextMessage, Sendable, Arrives, Arrived, Fixed, ValidMessage, BodyBytes;
    if ms == [] {
      NothingNext(crc, acts, rc);
    } else {
      StreamRoundTrip(crc, acts, wc, rc, ms[1..], orders[1..]);
      assert Receivable(acts, ms[0]);
      MessageRoundTrip(crc, acts, ms[0], orders[0], wc, rc, Written(crc, wc, ms[1..], orders[1..]).value);
    }
  }
}
