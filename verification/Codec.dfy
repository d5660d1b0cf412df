/** What the encoder writes and what the decoder makes of any bytes, as functions of types, values and positions.
    The classes in Encoder.dfy and Decoder.dfy compute these functions. */
module Codec {
  import opened Bytes
  import opened Compress
  import opened Utf16
  import opened Schema

  const EMPTY_BIT: byte := 0x40
  const ARRAY_BIT: byte := 0x80
  const SCOPE_BEGIN: byte := 0x1F
  const SCOPE_END: byte := 0x2F
  const OBJECT_END: byte := 0x3F
  const EMPTY_TRUE: byte := 0x42
  const EMPTY_FALSE: byte := 0x72
  const NODE_ID_TAG: byte := 0x84
  const WSTRING_TAG: byte := 0x8D

  predicate IsEmptyMeta(meta: byte) { (meta / 64) % 2 == 1 }

  /** The tag of a type the codec counts as basic. */
  function BaseTag(sc: Schema): Result<byte> {
    match sc
    case Bool => Ok(0x02)
    case Char(signed) => Ok(if signed then 0x03 else 0x04)
    case Num(signed, w) => Ok((if w == 2 then 0x05 else if w == 4 then 0x07 else 0x09) + if signed then 0 else 1)
    case Float => Ok(0x0B)
    case Str => Ok(0x0D)
    case Ptr(_) => Ok(0x01)
    case Struct(_) => Ok(0x00)
    case Guid => Ok(0x00)
    case NodeId => Ok(0x00)
    case NodeIdRange => Ok(0x00)
    case _ => Err(Unsupported)
  }

  function WithBit(tag: Result<byte>, bit: byte): Result<byte> {
    if tag.Ok? then Ok((tag.value + bit) % 256) else tag
  }

  /** Slices of strings and pointers are announced by a count, all others by an array of the base type. */
  function SliceTag(elem: Schema): Result<byte> {
    if elem.Str? || elem.Ptr? then Ok(0x08)
    else WithBit(BaseTag(elem), ARRAY_BIT)
  }

  predicate IsZero(v: Value) {
    match v
    case VBool(b) => !b
    case VInt(n) => n == 0
    case VFloat(bits) => bits == 0
    case VStr(runes) => runes == []
    case VNil => true
    case VSeq(elems) => elems == []
    case VMap(entries) => entries == []
    case _ => false
  }

  /** The single tag a zero value is written as. */
  function EmptyTag(sc: Schema, v: Value): Result<byte> {
    match sc
    case Bool => Ok(if v == VBool(true) then EMPTY_TRUE else EMPTY_FALSE)
    case Str => Ok(0xCD)
    case Slice(e) => WithBit(SliceTag(e), EMPTY_BIT)
    case Map(_, _) => Ok(0xC0)
    case _ => WithBit(BaseTag(sc), EMPTY_BIT)
  }

  function GuidBytes(g: GuidValue): (s: seq<byte>)
    requires IsGuid(g)
    ensures |s| == 16
  {
    LE(g.data1, 4) + LE(g.data2, 2) + LE(g.data3, 2) + (seq(8, i requires 0 <= i < 8 => g.data4[i]))
  }

  function NodeBytes(n: Node): (s: seq<byte>)
    ensures |s| == 16
  {
    LE(n.hi, 8) + LE(n.lo, 8)
  }

  /** A node id is a sixteen-byte array; sixteen is the compressed count. */
  function NodeItem(n: Node): (s: seq<byte>)
    ensures |s| == 18
  {
    [NODE_ID_TAG, 16] + NodeBytes(n)
  }

  /** A count cast to 32 bits and compressed. */
  function Count(n: nat): seq<byte> {
    Compressed(n % 0x1_0000_0000)
  }

  /** Size, flags and padding. */
  function ObjectHeader(bodySize: nat): (s: seq<byte>)
    ensures |s| == 8
  {
    LE(bodySize + 11, 4) + [0, 0, 0, 0]
  }

  /** The object scope around the bytes of its fields. Size counts from the header through ObjectEnd. */
  function Object(body: seq<byte>): (s: seq<byte>)
    ensures |s| == |body| + 12
  {
    [0x00] + (ObjectHeader(|body|) + ([SCOPE_BEGIN] + (body + [SCOPE_END, OBJECT_END])))
  }

  function Join(a: seq<byte>, r: Result<seq<byte>>): Result<seq<byte>> {
    if r.Ok? then Ok(a + r.value) else r
  }

  // ---- encoding ----

  predicate ElemsHave(sc: Schema, vs: seq<Value>) {
    forall i {:trigger vs[i]} :: 0 <= i < |vs| ==> HasType(sc, vs[i])
  }

  lemma EntriesHaveType(k: Schema, x: Schema, es: seq<Value>)
    requires AllEntries(es)
    ensures ElemsHave(Entry(k, x), es) <==> Entries(k, x, es)
  {
    if ElemsHave(Entry(k, x), es) {
      forall i | 0 <= i < |es| ensures HasType(k, es[i].vals[0]) && HasType(x, es[i].vals[1]) {
        EntryHasType(k, x, es[i]);
      }
    }
    if Entries(k, x, es) {
      forall i | 0 <= i < |es| ensures HasType(Entry(k, x), es[i]) {
        EntryHasType(k, x, es[i]);
      }
    }
  }

  function Encode(sc: Schema, v: Value): Result<seq<byte>>
    requires HasType(sc, v)
    decreases Size(sc), 0
  {
    if !StructKind(sc) && (sc.Bool? || IsZero(v)) then
      var tag :- EmptyTag(sc, v); Ok([tag])
    else match sc
      case Char(signed) => Ok([if signed then 0x03 else 0x04, v.n % 256])
      case Num(signed, w) => Ok([BaseTag(sc).value] + Compressed(v.n))
      case Float => Ok([0x0B] + LE(v.bits, 8))
      case Str =>
        var units := Units(v.runes);
        Ok([WSTRING_TAG] + (Count(|units|) + Pairs(units)))
      case Ptr(e) => Join([0x01], Encode(e, v.target))
      case Slice(e) =>
        var tag :- SliceTag(e);
        Join([tag] + Count(|v.elems|), EncodeElems(e, v.elems))
      case Map(k, x) =>
        EntrySize(k, x);
        EntriesHaveType(k, x, v.entries);
        Join([0x80] + Count(|v.entries|), EncodeElems(Entry(k, x), v.entries))
      case Struct(fs) =>
        var body :- EncodeAll(AllFields(fs), AllVals(fs, v.vals));
        Ok(Object(body))
      case Guid =>
        if v.guid == EMPTY_GUID then Ok([0x4C]) else Ok([0x0C] + GuidBytes(v.guid))
      case NodeId => Ok(NodeItem(v.node))
      case NodeIdRange => Ok(NodeItem(v.begin) + NodeItem(v.end))
      case _ => Err(Unsupported)
  }

  lemma EntriesOf(k: Schema, x: Schema, es: seq<Value>)
    requires ElemsHave(Entry(k, x), es)
    ensures AllEntries(es) && HasType(Map(k, x), VMap(SetAll([], es)))
  {
    forall i | 0 <= i < |es| ensures IsEntry(es[i]) {
      EntryHasType(k, x, es[i]);
    }
    EntriesHaveType(k, x, es);
    SetAllTyped(k, x, es);
  }

  function EncodeElems(sc: Schema, vs: seq<Value>): Result<seq<byte>>
    requires ElemsHave(sc, vs)
    decreases Size(sc), 1, |vs|
  {
    if vs == [] then Ok([])
    else var first :- Encode(sc, vs[0]); Join(first, EncodeElems(sc, vs[1..]))
  }

  function EncodeAll(ts: seq<Schema>, vs: seq<Value>): Result<seq<byte>>
    requires AllHave(ts, vs)
    decreases SumSize(ts), 1
  {
    if ts == [] then Ok([])
    else var first :- Encode(ts[0], vs[0]); Join(first, EncodeAll(ts[1..], vs[1..]))
  }

  // ---- decoding ----

  /** Reading `n` bytes at `p`. */
  function Take(d: seq<byte>, p: nat, n: nat): (r: Result<seq<byte>>)
    ensures r.Ok? ==> |r.value| == n && (p <= |d| ==> p + n <= |d|)
  {
    if n == 0 then Ok([])
    else if p >= |d| then Err(Eof)
    else if p + n > |d| then Err(Truncated)
    else Ok(d[p..p + n])
  }

  function ByteAt(d: seq<byte>, p: nat): Result<byte> {
    if p < |d| then Ok(d[p]) else Err(Eof)
  }

  function ReadCount(d: seq<byte>, p: nat): (r: Result<(u32, nat)>) {
    var (n, q) :- ReadAt(false, 4, d, p);
    Ok((Truncate(false, 4, n), q))
  }

  function GuidFrom(s: seq<byte>): (g: GuidValue)
    requires |s| == 16
    ensures IsGuid(g)
  {
    WordBound(s[0..4]); WordBound(s[4..6]); WordBound(s[6..8]);
    GuidValue(FromLE(s[0..4]), FromLE(s[4..6]), FromLE(s[6..8]), s[8..16])
  }

  function ReadGuid(d: seq<byte>, p: nat): (r: Result<GuidValue>)
    ensures r.Ok? ==> IsGuid(r.value)
  {
    var s :- Take(d, p, 16);
    Ok(GuidFrom(s))
  }

  function ReadNode(meta: byte, d: seq<byte>, p: nat): Result<(Node, nat)> {
    if meta != NODE_ID_TAG then Err(Malformed)
    else
      var (c, q) :- ReadCount(d, p);
      if c != 16 then Err(Malformed)
      else
        var s :- Take(d, q, 16);
        WordBound(s[0..8]); WordBound(s[8..16]);
        Ok((Node(FromLE(s[0..8]), FromLE(s[8..16])), q + 16))
  }

  function SkipTypeInformation(d: seq<byte>, p: nat): Result<nat> {
    var (n, q) :- ReadCount(d, p);
    if n == 0 then Err(Malformed)
    else if q + n > |d| then Err(Eof)
    else Ok(q + n)
  }

  /** After an object tag: where its ScopeEnd should be, and the position of its first field. Any other tag
      opens no scope. */
  function ObjectBegin(meta: byte, d: seq<byte>, p: nat): Result<(int, nat)> {
    if meta != 0x00 then Ok((-1, p))
    else
      // a header cut short is not noticed as such: the scope's first tag is then missing
      var h :- (if Take(d, p, 8).Ok? then Take(d, p, 8) else Err(Eof));
      var end := p + FromLE(h[0..4]) - 2;
      var q :- (if h[4] % 2 == 1 then SkipTypeInformation(d, p + 8) else Ok(p + 8));
      var b :- ByteAt(d, q);
      if b == SCOPE_BEGIN then Ok((end, q + 1)) else Err(Malformed)
  }

  function ObjectEnd(meta: byte, d: seq<byte>, end: int, p: nat): Result<nat> {
    if meta != 0x00 then Ok(p)
    else if end < 0 then Err(Malformed)
    else
      var a :- ByteAt(d, end);
      if a != SCOPE_END then Err(Malformed)
      else
        var b :- ByteAt(d, end + 1);
        if b == OBJECT_END then Ok(end + 2) else Err(Malformed)
  }

  predicate SliceMetaOk(elem: Schema, meta: byte) {
    if elem.Str? || elem.Ptr? then meta == 0x08
    else if StructKind(elem) then meta == 0x80
    else true
  }

  predicate NumMeta(signed: bool, meta: byte) {
    if signed then meta == 0x05 || meta == 0x07 || meta == 0x09
    else meta == 0x06 || meta == 0x08 || meta == 0x0A
  }

  function DecodeChar(signed: bool, meta: byte, d: seq<byte>, p: nat): (r: Result<(Value, nat)>)
    ensures r.Ok? ==> HasType(Char(signed), r.value.0)
  {
    var b :- ByteAt(d, p);
    if meta != 0x03 && meta != 0x04 then Err(Malformed)
    else if signed != (meta == 0x03) then Err(Panic)
    else Ok((VInt(if signed && b >= 128 then b - 256 else b), p + 1))
  }

  function DecodeNum(signed: bool, w: Width, meta: byte, d: seq<byte>, p: nat): (r: Result<(Value, nat)>)
    ensures r.Ok? ==> HasType(Num(signed, w), r.value.0)
  {
    if !NumMeta(signed, meta) then Err(Malformed)
    else
      var (n, q) :- ReadAt(signed, w, d, p);
      Ok((VInt(Truncate(signed, w, n)), q))
  }

  function DecodeFloat(meta: byte, d: seq<byte>, p: nat): (r: Result<(Value, nat)>)
    ensures r.Ok? ==> r.value.0.VFloat?
  {
    if meta != 0x0B then Err(Malformed)
    else
      var s :- Take(d, p, 8);
      WordBound(s);
      Ok((VFloat(FromLE(s)), p + 8))
  }

  function DecodeStr(meta: byte, d: seq<byte>, p: nat): (r: Result<(Value, nat)>)
    ensures r.Ok? ==> r.value.0.VStr?
  {
    if meta != WSTRING_TAG then Err(Malformed)
    else
      var (n, q) :- ReadCount(d, p);
      var s :- Take(d, q, 2 * n);
      Ok((VStr(Runes(UnPairs(s))), q + 2 * n))
  }

  function DecodeGuid(meta: byte, d: seq<byte>, p: nat): (r: Result<(Value, nat)>)
    ensures r.Ok? ==> HasType(Guid, r.value.0)
  {
    if meta % 16 != 0x0C then Err(Malformed)
    else var g :- ReadGuid(d, p); Ok((VGuid(g), p + 16))
  }

  function DecodeRange(meta: byte, d: seq<byte>, p: nat): (r: Result<(Value, nat)>)
    ensures r.Ok? ==> r.value.0.VRange?
  {
    var (b, q) :- ReadNode(meta, d, p);
    var m :- ByteAt(d, q);
    var (e, r) :- ReadNode(m, d, q + 1);
    Ok((VRange(b, e), r))
  }

  /** Decoding a non-empty item of a type without components. */
  function DecodeLeaf(sc: Schema, meta: byte, d: seq<byte>, p: nat): (r: Result<(Value, nat)>)
    ensures r.Ok? ==> HasType(sc, r.value.0)
  {
    match sc
    case Char(signed) => DecodeChar(signed, meta, d, p)
    case Num(signed, w) => DecodeNum(signed, w, meta, d, p)
    case Float => DecodeFloat(meta, d, p)
    case Str => DecodeStr(meta, d, p)
    case Guid => DecodeGuid(meta, d, p)
    case NodeId => var (n, q) :- ReadNode(meta, d, p); Ok((VNode(n), q))
    case NodeIdRange => DecodeRange(meta, d, p)
    case _ => Err(Unsupported)
  }

  function DecodeEmpty(sc: Schema, meta: byte): (r: Result<Value>)
    ensures r.Ok? ==> HasType(sc, r.value)
  {
    if !sc.Bool? then Ok(Zero(sc))
    else if meta == EMPTY_TRUE then Ok(VBool(true))
    else if meta == EMPTY_FALSE then Ok(VBool(false))
    else Err(Malformed)
  }

  /** What decoding into a target of type `sc` holding `t` gives, the tag `meta` already read and the cursor at
      `p`: the new value of the target and the new cursor. */
  function Decode(sc: Schema, meta: byte, d: seq<byte>, p: nat, t: Value): (r: Result<(Value, nat)>)
    requires HasType(sc, t)
    ensures r.Ok? ==> HasType(sc, r.value.0)
    decreases Size(sc), 0, 0
  {
    if IsEmptyMeta(meta) then
      var v :- DecodeEmpty(sc, meta); Ok((v, p))
    else match sc
      case Ptr(e) =>
        var m :- ByteAt(d, p);
        var (x, q) :- Decode(e, m, d, p + 1, Zero(e));
        Ok((VRef(x), q))
      case Slice(e) =>
        if !SliceMetaOk(e, meta) then Err(Malformed)
        else
          var (n, q) :- ReadCount(d, p);
          var (xs, r) :- DecodeElems(e, n, d, q);
          Ok((VSeq(xs), r))
      case Map(k, x) =>
        if meta != 0x80 then Err(Malformed)
        else
          EntrySize(k, x);
          var (n, q) :- ReadCount(d, p);
          var (es, r) :- DecodeElems(Entry(k, x), n, d, q);
          EntriesOf(k, x, es);
          Ok((VMap(SetAll([], es)), r))
      case Struct(fs) =>
        var (end, q) :- ObjectBegin(meta, d, p);
        var (flat, r) :- DecodeAll(AllFields(fs), d, q, AllVals(fs, t.vals));
        var z :- ObjectEnd(meta, d, end, r);
        PutGet(fs, t.vals, flat);
        Ok((VStruct(PutVals(fs, t.vals, flat)), z))
      case _ => DecodeLeaf(sc, meta, d, p)
  }

  /** `n` elements, each decoded into a fresh zero value. */
  function DecodeElems(sc: Schema, n: nat, d: seq<byte>, p: nat): (r: Result<(seq<Value>, nat)>)
    ensures r.Ok? ==> |r.value.0| == n && ElemsHave(sc, r.value.0)
    decreases Size(sc), 1, n
  {
    if n == 0 then Ok(([], p))
    else
      var m :- ByteAt(d, p);
      var (x, q) :- Decode(sc, m, d, p + 1, Zero(sc));
      var (xs, r) :- DecodeElems(sc, n - 1, d, q);
      Ok(([x] + xs, r))
  }

  /** The fields of a struct, up to a ScopeEnd; the targets after it keep what they hold. */
  function DecodeAll(ts: seq<Schema>, d: seq<byte>, p: nat, us: seq<Value>): (r: Result<(seq<Value>, nat)>)
    requires AllHave(ts, us)
    ensures r.Ok? ==> AllHave(ts, r.value.0)
    decreases SumSize(ts), 1, 0
  {
    if ts == [] then Ok(([], p))
    else
      var m :- ByteAt(d, p);
      if m == SCOPE_END then Ok((us, p + 1))
      else
        var (x, q) :- Decode(ts[0], m, d, p + 1, us[0]);
        var (xs, r) :- DecodeAll(ts[1..], d, q, us[1..]);
        Ok(([x] + xs, r))
  }

  function Unmarshal(sc: Schema, d: seq<byte>, t: Value): (r: Result<Value>)
    requires HasType(sc, t)
    ensures r.Ok? ==> HasType(sc, r.value)
  {
    var m :- ByteAt(d, 0);
    var (v, _) :- Decode(sc, m, d, 1, t);
    Ok(v)
  }

  // ---- what Marshal is given ----

  /** Bytes as they are, or a value to be marshalled. */
  datatype Payload = Raw(bytes: seq<byte>) | Typed(ty: Schema, val: Value)

  predicate ValidPayload(p: Payload) {
    p.Typed? ==> HasType(p.ty, p.val)
  }

  /** Byte slices pass through, anything but a struct is refused. */
  function MarshalPayload(p: Payload): Result<seq<byte>>
    requires ValidPayload(p)
  {
    match p
    case Raw(b) => Ok(b)
    case Typed(ty, v) => if StructKind(ty) then Encode(ty, v) else Err(Unsupported)
  }
}
