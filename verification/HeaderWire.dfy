/** Header blocks and frames on the wire, written down in numbers: which id stands for which header, and where the
    parts of a frame lie. */
module HeaderWire {
  import opened Bytes
  import opened Schema
  import opened Codec
  import opened Headers
  import opened HeaderTheorems
  import opened Frames
  import opened Factory

  // ---- records ----

  lemma ReadsAt(s: seq<byte>, p: nat, n: nat)
    requires p <= |s|
    ensures Take(s, p, n) == if p + n <= |s| then Ok(s[p..p + n]) else Err(if p == |s| then Eof else Truncated)
  {
    assert s[p..p] == [];
  }

  lemma PairBytes(s: seq<byte>)
    requires |s| == 2
    ensures FromLE(s) == s[0] as int + 0x100 * s[1] as int
  {
    assert FromLE(s[1..]) == s[1] by { assert s[1..][1..] == []; }
  }

  /** Reading a record from any bytes. What is missing decides whether it looks like the end of the block. */
  lemma RecordReads(s: seq<byte>)
    ensures var size := if |s| >= 4 then s[2] as int + 0x100 * s[3] as int else 0;
            match NextRecord(s)
            case Ok((r, rest)) =>
              && |s| >= 4 + size && r.id == s[0] as int + 0x100 * s[1] as int && r.body == s[4..4 + size]
              && rest == s[4 + size..]
            case Err(e) =>
              && (|s| < 4 || |s| < 4 + size)
              && e == if |s| == 0 || |s| == 2 || |s| == 4 then Eof else Truncated
  {
    hide FromLE, Take;
    ReadsAt(s, 0, 2);
    if |s| >= 2 {
      ReadsAt(s, 2, 2);
    }
    if |s| >= 4 {
      var id, size := s[0..2], s[2..4];
      PairBytes(id);
      PairBytes(size);
      assert id[0] == s[0] && id[1] == s[1] && size[0] == s[2] && size[1] == s[3];
      WordBound(id);
      ReadsAt(s, 4, FromLE(size));
    }
  }

  lemma TwoBytes(n: u16)
    ensures LE(n, 2) == [n % 256, n / 256]
  {
    assert LE(n, 2) == [n % 256] + LE(n / 256, 1);
    assert LE(n / 256, 1) == [(n / 256) % 256] + LE(n / 256 / 256, 0);
  }

  /** Id, size, body. */
  lemma RecordWire(r: Record)
    requires Fits(r)
    ensures RecordBytes(r) == [r.id % 256, r.id / 256, |r.body| % 256, |r.body| / 256] + r.body
  {
    TwoBytes(r.id);
    TwoBytes(|r.body|);
  }

  function Ids(rs: seq<Record>): (ids: seq<int>)
    ensures |ids| == |rs|
  {
    seq(|rs|, i requires 0 <= i < |rs| => rs[i].id as int)
  }

  lemma IdsConcat(a: seq<Record>, b: seq<Record>)
    ensures Ids(a + b) == Ids(a) + Ids(b)
  {
  }

  lemma IdOpt(c: bool, r: Record, rest: seq<Record>)
    ensures Ids(Opt(c, r) + rest) == (if c then [r.id as int] else []) + Ids(rest)
    ensures Ids([r] + rest) == [r.id as int] + Ids(rest)
  {
    IdsConcat(Opt(c, r), rest);
    IdsConcat([r], rest);
  }

  lemma LastId(c: bool, r: Record)
    ensures Ids(Opt(c, r)) == if c then [r.id as int] else []
  {
  }

  lemma FaultIds(h: Headers)
    ensures Ids(FromFault(h)) == (if h.errorCode == 0 && !h.hasFaultBody then [] else [0x8007])
                                 + (if h.retryCount > 0 then [0x8006] else [])
  {
    hide FaultBody, RetryBody, Opt, Ids;
    var fault, retry := Record(FAULT, FaultBody(h.errorCode, h.hasFaultBody)), Record(RETRY, RetryBody(h.retryCount));
    IdOpt(h.errorCode != 0 || h.hasFaultBody, fault, Opt(h.retryCount > 0, retry));
    LastId(h.retryCount > 0, retry);
  }

  lemma FlagIds(h: Headers)
    ensures Ids(FromFlags(h)) == (if h.expectsReply then [0x8005] else [])
                                 + ((if h.highPriority then [0x8009] else [])
                                 + ((if h.idempotent then [0x8008] else []) + Ids(FromFault(h))))
  {
    hide FlagBody, FromFault, Opt, Ids;
    var expects := Record(EXPECTS_REPLY, FlagBody(h.expectsReply));
    var high := Record(HIGH_PRIORITY, FlagBody(h.highPriority));
    var idempotent := Record(IDEMPOTENT, FlagBody(h.idempotent));
    var r7 := Opt(h.idempotent, idempotent) + FromFault(h);
    var r6 := Opt(h.highPriority, high) + r7;
    IdOpt(h.expectsReply, expects, r6);
    IdOpt(h.highPriority, high, r7);
    IdOpt(h.idempotent, idempotent, FromFault(h));
  }

  /** The ids written before the custom headers, in this order. */
  lemma FixedIds(h: Headers)
    requires ValidHeaders(h)
    ensures Ids(FixedRecords(h)) ==
            [0x8003]
            + ((if h.relatesTo == MessageId(GuidValue(0, 0, 0, [0, 0, 0, 0, 0, 0, 0, 0]), 0) then [] else [0x8004])
            + ([0x8001]
            + ((if h.action == [] then [] else [0x8002])
            + ((if h.expectsReply then [0x8005] else [])
            + ((if h.highPriority then [0x8009] else [])
            + ((if h.idempotent then [0x8008] else [])
            + ((if h.errorCode == 0 && !h.hasFaultBody then [] else [0x8007])
            + (if h.retryCount > 0 then [0x8006] else []))))))))
  {
    hide IdBody, ActorBody, ActionBody, Opt, Ids, FromFlags, FromFault, FixedRecords;
    var action := Record(ACTION, ActionBody(h.action));
    var r4 := Opt(h.action != [], action) + FromFlags(h);
    var actor := Record(ACTOR, ActorBody(h.actor));
    var relates := Record(RELATES_TO, IdBody(h.relatesTo));
    var id := Record(MESSAGE_ID, IdBody(h.id));
    FixedShape(h);
    IdOpt(true, id, Opt(h.relatesTo != EMPTY_ID, relates) + FromActor(h));
    IdOpt(h.relatesTo != EMPTY_ID, relates, FromActor(h));
    IdOpt(true, actor, r4);
    IdOpt(h.action != [], action, FromFlags(h));
    FlagIds(h);
    FaultIds(h);
  }

  /** The custom headers of one id are one record each, in order. */
  lemma {:induction false} ListWire(k: HeaderId, ps: seq<Payload>, i: nat)
    requires ListFits(ps) && i < |ps|
    ensures ListRecords(k, ps).Ok? && |ListRecords(k, ps).value| == |ps|
    ensures ListRecords(k, ps).value[i] == Record(k, MarshalPayload(ps[i]).value)
  {
    hide MarshalPayload;
    ListWrites(k, ps);
    if i > 0 {
      ListWire(k, ps[1..], i - 1);
    }
  }

  // ---- what a record of an id sets ----

  lemma ZeroOne(a: Schema)
    ensures Zero(Struct([Plain(a)])) == VStruct([Zero(a)])
  {
    var fs := [Plain(a)];
    assert fs[1..] == [];
    assert ZeroFields(fs) == [Zero(a)] + ZeroFields([]);
  }

  /** 8005, 8009 and 8008: a bool. */
  lemma SetsFlag(acts: Activators, h: Headers, b: seq<byte>)
    requires ValidHeaders(h)
    ensures var x := Unmarshal(Struct([Plain(Bool)]), b, VStruct([VBool(false)]));
            match x
            case Err(e) =>
              && Apply(acts, h, Record(0x8005, b)) == Err(e) && Apply(acts, h, Record(0x8009, b)) == Err(e)
              && Apply(acts, h, Record(0x8008, b)) == Err(e)
            case Ok(v) =>
              && v.VStruct? && |v.vals| == 1 && v.vals[0].VBool?
              && Apply(acts, h, Record(0x8005, b)) == Ok(h.(expectsReply := v.vals[0].b))
              && Apply(acts, h, Record(0x8009, b)) == Ok(h.(highPriority := v.vals[0].b))
              && Apply(acts, h, Record(0x8008, b)) == Ok(h.(idempotent := v.vals[0].b))
  {
    hide Unmarshal, ParseId, ParseActor, ParseAction, ParseFault, ParseRetry, Receive, ValidHeaders;
    var v0 := VStruct([VBool(false)]);
    ZeroOne(Bool);
    OneHasType(Bool, v0);
    var x := Unmarshal(FlagType(), b, v0);
    if x.Ok? {
      OneHasType(Bool, x.value);
    }
  }

  lemma ZeroTwo(a: Schema, b: Schema)
    ensures Zero(Struct([Plain(a), Plain(b)])) == VStruct([Zero(a), Zero(b)])
  {
    var fs := [Plain(a), Plain(b)];
    assert fs[1..] == [Plain(b)] && fs[1..][1..] == [];
    assert ZeroFields(fs[1..]) == [Zero(b)] + ZeroFields([]);
    assert ZeroFields(fs) == [Zero(a)] + [Zero(b)];
  }

  /** 8001: a number of 64 bits. */
  lemma SetsActor(acts: Activators, h: Headers, b: seq<byte>)
    requires ValidHeaders(h)
    ensures match Unmarshal(Struct([Plain(Num(true, 8))]), b, VStruct([VInt(0)]))
            case Err(e) => Apply(acts, h, Record(0x8001, b)) == Err(e)
            case Ok(v) =>
              && v.VStruct? && |v.vals| == 1 && v.vals[0].VInt?
              && -0x8000_0000_0000_0000 <= v.vals[0].n < 0x8000_0000_0000_0000
              && Apply(acts, h, Record(0x8001, b)) == Ok(h.(actor := v.vals[0].n))
  {
    hide Unmarshal, ParseId, ParseAction, ParseFault, ParseFlag, ParseRetry, Receive, ValidHeaders;
    ZeroOne(Num(true, 8));
    OneHasType(Num(true, 8), VStruct([VInt(0)]));
    var x := Unmarshal(ActorType(), b, VStruct([VInt(0)]));
    if x.Ok? {
      OneHasType(Num(true, 8), x.value);
    }
  }

  /** 8006: a number of 32 bits. */
  lemma SetsRetry(acts: Activators, h: Headers, b: seq<byte>)
    requires ValidHeaders(h)
    ensures match Unmarshal(Struct([Plain(Num(true, 4))]), b, VStruct([VInt(0)]))
            case Err(e) => Apply(acts, h, Record(0x8006, b)) == Err(e)
            case Ok(v) =>
              && v.VStruct? && |v.vals| == 1 && v.vals[0].VInt? && -0x8000_0000 <= v.vals[0].n < 0x8000_0000
              && Apply(acts, h, Record(0x8006, b)) == Ok(h.(retryCount := v.vals[0].n))
  {
    hide Unmarshal, ParseId, ParseActor, ParseAction, ParseFault, ParseFlag, Receive, ValidHeaders;
    ZeroOne(Num(true, 4));
    OneHasType(Num(true, 4), VStruct([VInt(0)]));
    var x := Unmarshal(RetryType(), b, VStruct([VInt(0)]));
    if x.Ok? {
      OneHasType(Num(true, 4), x.value);
    }
  }

  /** 8002: a string. */
  lemma SetsAction(acts: Activators, h: Headers, b: seq<byte>)
    requires ValidHeaders(h)
    ensures match Unmarshal(Struct([Plain(Str)]), b, VStruct([VStr([])]))
            case Err(e) => Apply(acts, h, Record(0x8002, b)) == Err(e)
            case Ok(v) =>
              && v.VStruct? && |v.vals| == 1 && v.vals[0].VStr?
              && Apply(acts, h, Record(0x8002, b)) == Ok(h.(action := v.vals[0].runes))
  {
    hide Unmarshal, ParseId, ParseActor, ParseRetry, ParseFault, ParseFlag, Receive, ValidHeaders;
    ZeroOne(Str);
    OneHasType(Str, VStruct([VStr([])]));
    var x := Unmarshal(ActionType(), b, VStruct([VStr([])]));
    if x.Ok? {
      OneHasType(Str, x.value);
    }
  }

  /** 8007: an error code and whether a fault body follows. */
  lemma SetsFault(acts: Activators, h: Headers, b: seq<byte>)
    requires ValidHeaders(h)
    ensures match Unmarshal(Struct([Plain(Num(true, 8)), Plain(Bool)]), b, VStruct([VInt(0), VBool(false)]))
            case Err(e) => Apply(acts, h, Record(0x8007, b)) == Err(e)
            case Ok(v) =>
              && v.VStruct? && |v.vals| == 2 && v.vals[0].VInt? && v.vals[1].VBool?
              && -0x8000_0000_0000_0000 <= v.vals[0].n < 0x8000_0000_0000_0000
              && Apply(acts, h, Record(0x8007, b)) == Ok(h.(errorCode := v.vals[0].n, hasFaultBody := v.vals[1].b))
  {
    hide Unmarshal, ParseId, ParseActor, ParseAction, ParseRetry, ParseFlag, Receive, ValidHeaders;
    ZeroTwo(Num(true, 8), Bool);
    TwoHaveType(Num(true, 8), Bool, VStruct([VInt(0), VBool(false)]));
    var x := Unmarshal(FaultType(), b, VStruct([VInt(0), VBool(false)]));
    if x.Ok? {
      TwoHaveType(Num(true, 8), Bool, x.value);
    }
  }

  lemma IdHeld(g: GuidValue, n: u32)
    requires IsGuid(g)
    ensures HasType(Struct([Plain(Guid), Plain(Num(false, 4))]), VStruct([VGuid(g), VInt(n)]))
  {
    TwoHaveType(Guid, Num(false, 4), VStruct([VGuid(g), VInt(n)]));
  }

  lemma IdShape(v: Value)
    requires HasType(IdType(), v)
    ensures v.VStruct? && |v.vals| == 2 && v.vals[0].VGuid? && IsGuid(v.vals[0].guid)
    ensures v.vals[1].VInt? && 0 <= v.vals[1].n < 0x1_0000_0000
  {
    TwoHaveType(Guid, Num(false, 4), v);
  }

  /** 8003 and 8004: message ids, decoded over what the headers already hold. */
  lemma SetsId(acts: Activators, h: Headers, b: seq<byte>, prior: MessageId)
    requires ValidHeaders(h) && IsGuid(prior.guid)
    ensures var held := VStruct([VGuid(prior.guid), VInt(prior.index)]);
            match Unmarshal(Struct([Plain(Guid), Plain(Num(false, 4))]), b, held)
            case Err(e) =>
              && (h.id == prior ==> Apply(acts, h, Record(0x8003, b)) == Err(e))
              && (h.relatesTo == prior ==> Apply(acts, h, Record(0x8004, b)) == Err(e))
            case Ok(v) =>
              && v.VStruct? && |v.vals| == 2 && v.vals[0].VGuid? && v.vals[1].VInt? && 0 <= v.vals[1].n < 0x1_0000_0000
              && (h.id == prior ==>
                    Apply(acts, h, Record(0x8003, b)) == Ok(h.(id := MessageId(v.vals[0].guid, v.vals[1].n))))
              && (h.relatesTo == prior ==>
                    Apply(acts, h, Record(0x8004, b)) == Ok(h.(relatesTo := MessageId(v.vals[0].guid, v.vals[1].n))))
  {
    hide Unmarshal, ParseFault, ParseActor, ParseAction, ParseRetry, ParseFlag, Receive, HasType;
    IdHeld(prior.guid, prior.index);
    var x := Unmarshal(IdType(), b, IdValue(prior));
    if x.Ok? {
      IdShape(x.value);
    }
  }

  /** 8000 and 8048 are skipped; any other id is a custom header, one more of its id. */
  lemma OtherIds(acts: Activators, h: Headers, k: HeaderId, b: seq<byte>)
    requires ValidHeaders(h) && !(0x8001 <= k <= 0x8009)
    ensures k == 0x8000 || k == 0x8048 ==> Apply(acts, h, Record(k, b)) == Ok(h)
    ensures k != 0x8000 && k != 0x8048 && k !in acts ==>
              Apply(acts, h, Record(k, b)) ==
              Ok(h.(custom := h.custom[k := (if k in h.custom then h.custom[k] else []) + [Raw(b)]]))
  {
    hide ParseId, ParseFault, ParseActor, ParseAction, ParseRetry, ParseFlag, ValidHeaders;
  }

  // ---- frames ----

  lemma HeaderIs(f: FrameHeader)
    ensures HeaderBytes(f) == LE(f.frameLength, 4) + [f.mask, f.headerCrc] + LE(f.headerLength, 2) + LE(f.bodyCrc, 4)
  {
    hide LE;
  }

  lemma NoChecksum()
    ensures LE(0, 4) == [0, 0, 0, 0]
  {
    assert LE(0, 4) == [0] + LE(0, 3) && LE(0, 3) == [0] + LE(0, 2) && LE(0, 2) == [0] + LE(0, 1);
    assert LE(0, 1) == [0] + LE(0, 0);
  }

  lemma PlainIs(headerLen: nat, msg: seq<byte>, cfg: WriteConfig)
    requires FrameFits(headerLen, msg)
    ensures PlainHeader(headerLen, msg, cfg) == FrameHeader(12 + |msg|, cfg.mask, 0, headerLen, 0)
  {
  }

  /** Length, provider, header checksum, header length, body checksum, message. The header checksum is that of the
      header with both checksums zero. */
  lemma FrameWire(crc: Checksums, headerLen: nat, msg: seq<byte>, cfg: WriteConfig)
    requires FrameFits(headerLen, msg)
    ensures var length, split := LE(12 + |msg|, 4), LE(headerLen, 2);
            var c8 := if cfg.headerCrc then crc.crc8(length + [cfg.mask, 0] + split + [0, 0, 0, 0]) else 0;
            var c32 := if cfg.bodyCrc then crc.crc32(msg) else 0;
            FrameOf(crc, headerLen, msg, cfg) == length + [cfg.mask, c8] + split + LE(c32, 4) + msg
  {
    hide LE, HeaderBytes, PlainHeader;
    PlainIs(headerLen, msg, cfg);
    var plain := PlainHeader(headerLen, msg, cfg);
    HeaderIs(plain);
    NoChecksum();
    var c8: byte := if cfg.headerCrc then crc.crc8(HeaderBytes(plain)) else 0;
    var c32: u32 := if cfg.bodyCrc then crc.crc32(msg) else 0;
    var f := plain.(headerCrc := c8, bodyCrc := c32);
    assert FrameOf(crc, headerLen, msg, cfg) == HeaderBytes(f) + msg;
    HeaderIs(f);
  }

  lemma LengthIs(f: FrameHeader)
    ensures BodyLength(f) == if f.frameLength >= 12 then f.frameLength - 12 else f.frameLength - 12 + 0x1_0000_0000
  {
  }

  lemma HeaderReads(s: seq<byte>)
    requires |s| == 12
    ensures var f := HeaderFrom(s);
            && f.frameLength == s[0] as int + 0x100 * s[1] as int + 0x1_0000 * s[2] as int + 0x100_0000 * s[3] as int
            && f.bodyCrc == s[8] as int + 0x100 * s[9] as int + 0x1_0000 * s[10] as int + 0x100_0000 * s[11] as int
            && f.headerLength == s[6] as int + 0x100 * s[7] as int && f.mask == s[4] && f.headerCrc == s[5]
            && HeaderBytes(f.(headerCrc := 0, bodyCrc := 0)) == s[0..5] + [0] + s[6..8] + [0, 0, 0, 0]
  {
    hide FromLE, LE;
    FourBytes(s[0..4]);
    FourBytes(s[8..12]);
    PairBytes(s[6..8]);
    LEofFromLE(s[0..4]);
    LEofFromLE(s[6..8]);
    NoChecksum();
    assert s[0..5] == s[0..4] + [s[4]];
  }

  /** Reading a frame from any bytes: it fails exactly when the header or the message is not there or a checksum that
      is checked is wrong. */
  lemma FrameReads(crc: Checksums, rc: ReadConfig, s: seq<byte>)
    requires |s| >= 12
    ensures var length := s[0] as int + 0x100 * s[1] as int + 0x1_0000 * s[2] as int + 0x100_0000 * s[3] as int;
            var n := if length >= 12 then length - 12 else length - 12 + 0x1_0000_0000;
            var ok := (rc.checkHeaderCrc ==> s[5] == crc.crc8(s[0..5] + [0] + s[6..8] + [0, 0, 0, 0]))
                      && 12 + n <= |s|
                      && (rc.checkBodyCrc ==>
                            s[8] as int + 0x100 * s[9] as int + 0x1_0000 * s[10] as int + 0x100_0000 * s[11] as int
                            == crc.crc32(s[12..12 + n]));
            var x := NextFrame(crc, rc, s);
            && (x.Ok? <==> ok)
            && (ok ==> x.value.0.headerLength == s[6] as int + 0x100 * s[7] as int && x.value.0.mask == s[4]
                       && x.value.1 == s[12..12 + n] && x.value.2 == s[12 + n..])
  {
    hide FromLE, LE, HeaderFrom, HeaderBytes, BodyLength, Take;
    var h := s[0..12];
    HeaderReads(h);
    ReadsAt(s, 0, 12);
    var f := HeaderFrom(h);
    LengthIs(f);
    ReadsAt(s, 12, BodyLength(f));
    assert h[0..5] == s[0..5] && h[6..8] == s[6..8];
    assert forall i :: 0 <= i < 12 ==> h[i] == s[i];
  }

  // ---- ids ----

  /** The first id drawn from a new factory has index 1, every further one the next, wrapping around after 2^32. */
  lemma Draws(prefix: GuidValue, k: nat)
    ensures IdAt(prefix, 0, 1) == MessageId(prefix, 1)
    ensures IdAt(prefix, 0, k + 1).guid == prefix
    ensures IdAt(prefix, 0, k + 1).index ==
            if IdAt(prefix, 0, k).index == 0xFFFF_FFFF then 0 else IdAt(prefix, 0, k).index + 1
  {
  }

  lemma VersionBits(low: byte, high: byte)
    ensures var n := (low as int + 0x100 * high as int) % 0x1000 + 0x4000;
            n % 256 == low && n / 256 == high % 16 + 0x40
  {
    assert (low as int + 0x100 * high as int) % 0x1000 == low as int + 0x100 * (high % 16);
  }

  /** The bytes of the prefix are the random ones, but for the four bits of the version and the two of the variant. */
  lemma PrefixBytes(b: seq<byte>)
    requires |b| == 16
    ensures GuidBytes(NewGuidV4(b)) == b[0..7] + [b[7] % 16 + 0x40, b[8] % 64 + 0x80] + b[9..16]
  {
    hide FromLE, LE;
    LEofFromLE(b[0..4]);
    LEofFromLE(b[4..6]);
    PairBytes(b[6..8]);
    var high: byte := b[7] % 16 + 0x40;
    var g := NewGuidV4(b);
    VersionBits(b[6], b[7]);
    TwoBytes(g.data3);
    var tail := seq(8, i requires 0 <= i < 8 => g.data4[i]);
    assert tail == [b[8] % 64 + 0x80] + b[9..16];
    assert b[0..4] + b[4..6] + [b[6], high] == b[0..7] + [high];
  }
}
