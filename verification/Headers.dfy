/** Message headers: the records they are written as and what parsing any bytes gives, as functions. */
module Headers {
  import opened Bytes
  import opened Utf16
  import opened Schema
  import opened Codec
  import opened Versioning

  type HeaderId = u16

  const INVALID: HeaderId := 0x8000
  const ACTOR: HeaderId := 0x8001
  const ACTION: HeaderId := 0x8002
  const MESSAGE_ID: HeaderId := 0x8003
  const RELATES_TO: HeaderId := 0x8004
  const EXPECTS_REPLY: HeaderId := 0x8005
  const RETRY: HeaderId := 0x8006
  const FAULT: HeaderId := 0x8007
  const IDEMPOTENT: HeaderId := 0x8008
  const HIGH_PRIORITY: HeaderId := 0x8009
  const SECURITY_NEGOTIATION: HeaderId := 0x8048

  datatype MessageId = MessageId(guid: GuidValue, index: u32)

  const EMPTY_ID := MessageId(EMPTY_GUID, 0)

  datatype Headers = Headers(
    id: MessageId, relatesTo: MessageId, actor: i64, action: seq<Rune>,
    expectsReply: bool, highPriority: bool, idempotent: bool,
    errorCode: i64, hasFaultBody: bool, retryCount: i32,
    custom: map<HeaderId, seq<Payload>>)

  const NO_HEADERS := Headers(EMPTY_ID, EMPTY_ID, 0, [], false, false, false, 0, false, 0, map[])

  predicate ValidCustom(m: map<HeaderId, seq<Payload>>) {
    forall k, i :: k in m && 0 <= i < |m[k]| ==> ValidPayload(m[k][i])
  }

  predicate ValidHeaders(h: Headers) {
    && IsGuid(h.id.guid) && IsGuid(h.relatesTo.guid)
    && ValidCustom(h.custom)
  }

  // ---- records ----

  datatype Record = Record(id: HeaderId, body: seq<byte>)

  predicate Fits(r: Record) { |r.body| < 0x1_0000 }

  predicate AllFit(rs: seq<Record>) {
    forall i {:trigger rs[i]} :: 0 <= i < |rs| ==> Fits(rs[i])
  }

  /** The size is cast to 16 bits. */
  function RecordBytes(r: Record): (s: seq<byte>)
    ensures |s| == 4 + |r.body|
  {
    LE(r.id, 2) + LE(|r.body|, 2) + r.body
  }

  function Block(rs: seq<Record>): seq<byte> {
    if rs == [] then [] else RecordBytes(rs[0]) + Block(rs[1..])
  }

  /** The next record and what follows it. Running out exactly before the size or before a non-empty body reads
      as the end of the block. */
  function NextRecord(s: seq<byte>): (r: Result<(Record, seq<byte>)>)
    ensures r.Ok? ==> |r.value.1| < |s|
  {
    var id :- Take(s, 0, 2);
    var size :- Take(s, 2, 2);
    WordBound(id);
    var body :- Take(s, 4, FromLE(size));
    Ok((Record(FromLE(id), body), s[4 + FromLE(size)..]))
  }

  lemma NextOfBlock(r: Record, rest: seq<byte>)
    requires Fits(r)
    ensures NextRecord(RecordBytes(r) + rest) == Ok((r, rest))
  {
    var s := RecordBytes(r) + rest;
    assert s[0..2] == LE(r.id, 2) && s[2..4] == LE(|r.body|, 2) && s[4..4 + |r.body|] == r.body;
    WordRoundTrip(r.id, 2);
    WordRoundTrip(|r.body|, 2);
    assert s[4 + |r.body|..] == rest;
  }

  // ---- the types of the header bodies ----

  function IdType(): Schema { Struct([Plain(Guid), Plain(Num(false, 4))]) }
  function ActorType(): Schema { Struct([Plain(Num(true, 8))]) }
  function ActionType(): Schema { Struct([Plain(Str)]) }
  function FlagType(): Schema { Struct([Plain(Bool)]) }
  function FaultType(): Schema { Struct([Plain(Num(true, 8)), Plain(Bool)]) }
  function RetryType(): Schema { Struct([Plain(Num(true, 4))]) }

  function IdValue(id: MessageId): Value { VStruct([VGuid(id.guid), VInt(id.index)]) }
  function One(v: Value): Value { VStruct([v]) }

  lemma OneHasType(a: Schema, v: Value)
    ensures HasType(Struct([Plain(a)]), v) <==> v.VStruct? && |v.vals| == 1 && HasType(a, v.vals[0])
  {
    var fs := [Plain(a)];
    assert fs[1..] == [];
    if v.VStruct? && |v.vals| == 1 {
      assert v.vals[1..] == [] && FieldsHave(fs[1..], v.vals[1..]);
      assert FieldsHave(fs, v.vals) <==> HasType(a, v.vals[0]);
    }
  }

  lemma TwoHaveType(a: Schema, b: Schema, v: Value)
    ensures HasType(Struct([Plain(a), Plain(b)]), v) <==> IsEntry(v) && HasType(a, v.vals[0]) && HasType(b, v.vals[1])
  {
    EntryHasType(a, b, v);
  }

  lemma OneSupported(a: Schema)
    requires Supported(a)
    ensures Supported(Struct([Plain(a)]))
  {
    var fs := [Plain(a)];
    assert fs[1..] == [] && AllFields(fs) == [a] + AllFields([]) == [a];
    assert [a][1..] == [] && AllSupported([a]);
  }

  lemma TwoSupported(a: Schema, b: Schema)
    requires Supported(a) && Supported(b)
    ensures Supported(Struct([Plain(a), Plain(b)]))
  {
    EntrySupported(a, b);
  }

  /** The encoding of a value of a supported type. */
  function Marshalled(sc: Schema, v: Value): seq<byte>
    requires Supported(sc) && HasType(sc, v)
  {
    SupportedEncodes(sc, v);
    Encode(sc, v).value
  }

  function IdBody(id: MessageId): seq<byte>
    requires IsGuid(id.guid)
  {
    TwoHaveType(Guid, Num(false, 4), IdValue(id));
    TwoSupported(Guid, Num(false, 4));
    Marshalled(IdType(), IdValue(id))
  }

  function ActorBody(n: i64): seq<byte> {
    OneHasType(Num(true, 8), One(VInt(n)));
    OneSupported(Num(true, 8));
    Marshalled(ActorType(), One(VInt(n)))
  }

  function ActionBody(s: seq<Rune>): seq<byte> {
    OneHasType(Str, One(VStr(s)));
    OneSupported(Str);
    Marshalled(ActionType(), One(VStr(s)))
  }

  function FlagBody(b: bool): seq<byte> {
    OneHasType(Bool, One(VBool(b)));
    OneSupported(Bool);
    Marshalled(FlagType(), One(VBool(b)))
  }

  function FaultBody(n: i64, b: bool): seq<byte> {
    TwoHaveType(Num(true, 8), Bool, VStruct([VInt(n), VBool(b)]));
    TwoSupported(Num(true, 8), Bool);
    Marshalled(FaultType(), VStruct([VInt(n), VBool(b)]))
  }

  function RetryBody(n: i32): seq<byte> {
    OneHasType(Num(true, 4), One(VInt(n)));
    OneSupported(Num(true, 4));
    Marshalled(RetryType(), One(VInt(n)))
  }

  // ---- writing ----

  function Opt(c: bool, r: Record): seq<Record> {
    if c then [r] else []
  }

  /** Every fixed header but the message id and the actor is written only when it is not the default. */
  function FixedRecords(h: Headers): seq<Record>
    requires ValidHeaders(h)
  {
    [Record(MESSAGE_ID, IdBody(h.id))]
    + (Opt(h.relatesTo != EMPTY_ID, Record(RELATES_TO, IdBody(h.relatesTo)))
    + ([Record(ACTOR, ActorBody(h.actor))]
    + (Opt(h.action != [], Record(ACTION, ActionBody(h.action)))
    + (Opt(h.expectsReply, Record(EXPECTS_REPLY, FlagBody(h.expectsReply)))
    + (Opt(h.highPriority, Record(HIGH_PRIORITY, FlagBody(h.highPriority)))
    + (Opt(h.idempotent, Record(IDEMPOTENT, FlagBody(h.idempotent)))
    + (Opt(h.errorCode != 0 || h.hasFaultBody, Record(FAULT, FaultBody(h.errorCode, h.hasFaultBody)))
    + Opt(h.retryCount > 0, Record(RETRY, RetryBody(h.retryCount))))))))))
  }

  /** The records of one list of custom headers. */
  function ListRecords(k: HeaderId, ps: seq<Payload>): Result<seq<Record>>
    requires forall i :: 0 <= i < |ps| ==> ValidPayload(ps[i])
  {
    if ps == [] then Ok([])
    else
      var b :- MarshalPayload(ps[0]);
      var rest :- ListRecords(k, ps[1..]);
      Ok([Record(k, b)] + rest)
  }

  predicate Distinct(order: seq<HeaderId>) {
    forall i, j :: 0 <= i < j < |order| ==> order[i] != order[j]
  }

  /** The keys of a map in some order of enumeration. */
  predicate Enumerates<T>(order: seq<HeaderId>, m: map<HeaderId, T>) {
    && Distinct(order)
    && (forall k :: k in order ==> k in m) && (forall k :: k in m ==> k in order)
  }

  function CustomRecords(m: map<HeaderId, seq<Payload>>, order: seq<HeaderId>): Result<seq<Record>>
    requires ValidCustom(m) && forall k :: k in order ==> k in m
  {
    if order == [] then Ok([])
    else
      var first :- ListRecords(order[0], m[order[0]]);
      var rest :- CustomRecords(m, order[1..]);
      Ok(first + rest)
  }

  /** All records of `h`, its custom headers in the given order. */
  function Records(h: Headers, order: seq<HeaderId>): Result<seq<Record>>
    requires ValidHeaders(h) && Enumerates(order, h.custom)
  {
    var custom :- CustomRecords(h.custom, order);
    Ok(FixedRecords(h) + custom)
  }

  function WriteTo(h: Headers, order: seq<HeaderId>): Result<seq<byte>>
    requires ValidHeaders(h) && Enumerates(order, h.custom)
  {
    var rs :- Records(h, order);
    Ok(Block(rs))
  }

  // ---- parsing ----

  /** The registered activators: for a header id, the struct its body is unmarshalled into. */
  type Activators = map<HeaderId, Schema>

  function Append(m: map<HeaderId, seq<Payload>>, k: HeaderId, p: Payload): map<HeaderId, seq<Payload>> {
    m[k := (if k in m then m[k] else []) + [p]]
  }

  /** A received custom header: typed where an activator is registered, its bytes otherwise. */
  function Receive(acts: Activators, k: HeaderId, b: seq<byte>): (r: Result<Payload>)
    ensures r.Ok? ==> ValidPayload(r.value)
  {
    if k in acts then
      if StructKind(acts[k]) then var v :- Unmarshal(acts[k], b, Zero(acts[k])); Ok(Typed(acts[k], v))
      else Err(Malformed)
    else Ok(Raw(b))
  }

  function ParseActor(b: seq<byte>): Result<i64> {
    var v :- Unmarshal(ActorType(), b, Zero(ActorType()));
    OneHasType(Num(true, 8), v);
    Ok(v.vals[0].n)
  }

  function ParseAction(b: seq<byte>): Result<seq<Rune>> {
    var v :- Unmarshal(ActionType(), b, Zero(ActionType()));
    OneHasType(Str, v);
    Ok(v.vals[0].runes)
  }

  function ParseFault(b: seq<byte>): Result<(i64, bool)> {
    var v :- Unmarshal(FaultType(), b, Zero(FaultType()));
    TwoHaveType(Num(true, 8), Bool, v);
    Ok((v.vals[0].n, v.vals[1].b))
  }

  function ParseRetry(b: seq<byte>): Result<i32> {
    var v :- Unmarshal(RetryType(), b, Zero(RetryType()));
    OneHasType(Num(true, 4), v);
    Ok(v.vals[0].n)
  }

  function ParseId(b: seq<byte>, prior: MessageId): (r: Result<MessageId>)
    requires IsGuid(prior.guid)
    ensures r.Ok? ==> IsGuid(r.value.guid)
  {
    TwoHaveType(Guid, Num(false, 4), IdValue(prior));
    var v :- Unmarshal(IdType(), b, IdValue(prior));
    TwoHaveType(Guid, Num(false, 4), v);
    Ok(MessageId(v.vals[0].guid, v.vals[1].n))
  }

  function ParseFlag(b: seq<byte>): Result<bool> {
    var v :- Unmarshal(FlagType(), b, Zero(FlagType()));
    OneHasType(Bool, v);
    Ok(v.vals[0].b)
  }

  /** Ids the parser takes for fixed headers. */
  predicate Reserved(k: HeaderId) { ACTOR <= k <= HIGH_PRIORITY }

  /** Ids the parser skips. */
  predicate Dropped(k: HeaderId) { k == INVALID || k == SECURITY_NEGOTIATION }

  function ApplyFixed(h: Headers, r: Record): (x: Result<Headers>)
    requires ValidHeaders(h)
    ensures x.Ok? ==> ValidHeaders(x.value) && x.value.custom == h.custom
  {
    if r.id == MESSAGE_ID then var id :- ParseId(r.body, h.id); Ok(h.(id := id))
    else if r.id == RELATES_TO then var id :- ParseId(r.body, h.relatesTo); Ok(h.(relatesTo := id))
    else if r.id == ACTOR then var n :- ParseActor(r.body); Ok(h.(actor := n))
    else if r.id == ACTION then var s :- ParseAction(r.body); Ok(h.(action := s))
    else if r.id == EXPECTS_REPLY then var b :- ParseFlag(r.body); Ok(h.(expectsReply := b))
    else if r.id == HIGH_PRIORITY then var b :- ParseFlag(r.body); Ok(h.(highPriority := b))
    else if r.id == IDEMPOTENT then var b :- ParseFlag(r.body); Ok(h.(idempotent := b))
    else if r.id == FAULT then var (n, b) :- ParseFault(r.body); Ok(h.(errorCode := n, hasFaultBody := b))
    else if r.id == RETRY then var n :- ParseRetry(r.body); Ok(h.(retryCount := n))
    else Ok(h)
  }

  /** One record: skipped, a fixed header, or one more custom header of its id. */
  function Apply(acts: Activators, h: Headers, r: Record): (x: Result<Headers>)
    requires ValidHeaders(h)
    ensures x.Ok? ==> ValidHeaders(x.value)
  {
    if Dropped(r.id) then Ok(h)
    else if Reserved(r.id) then ApplyFixed(h, r)
    else var p :- Receive(acts, r.id, r.body); Ok(h.(custom := Append(h.custom, r.id, p)))
  }

  function ApplyAll(acts: Activators, h: Headers, rs: seq<Record>): (x: Result<Headers>)
    requires ValidHeaders(h)
    ensures x.Ok? ==> ValidHeaders(x.value)
    decreases |rs|
  {
    if rs == [] then Ok(h)
    else var g :- Apply(acts, h, rs[0]); ApplyAll(acts, g, rs[1..])
  }

  function ParseFrom(acts: Activators, h: Headers, s: seq<byte>): (x: Result<Headers>)
    requires ValidHeaders(h)
    ensures x.Ok? ==> ValidHeaders(x.value)
    decreases |s|
  {
    match NextRecord(s)
    case Err(e) => if e == Eof then Ok(h) else Err(e)
    case Ok((r, rest)) => var g :- Apply(acts, h, r); ParseFrom(acts, g, rest)
  }

  function Parse(acts: Activators, s: seq<byte>): (x: Result<Headers>)
    ensures x.Ok? ==> ValidHeaders(x.value)
  {
    ParseFrom(acts, NO_HEADERS, s)
  }
}
