/** Schema evolution: a reader whose type differs from the writer's gets exactly the converted value. */
module Evolution {
  import opened Bytes
  import opened Compress
  import opened Utf16
  import opened Schema
  import opened Codec

  /** A reader of type `r` understands a writer of type `w`: at every level one struct's fields are a prefix of
      the other's, and integers are as wide or wider in the reader. */
  predicate Compat(w: Schema, r: Schema)
    decreases Size(w), 0
  {
    match w
    case Num(signed, width) => r.Num? && signed == r.signed && width <= r.width
    case Ptr(e) => r.Ptr? && Compat(e, r.elem)
    case Slice(e) => r.Slice? && Compat(e, r.elem)
    case Map(k, x) => r.Map? && Compat(k, r.key) && Compat(x, r.val)
    case Struct(fs) => r.Struct? && CompatAll(AllFields(fs), AllFields(r.fields))
    case Other => false
    case _ => r == w
  }

  predicate CompatAll(ws: seq<Schema>, rs: seq<Schema>)
    decreases SumSize(ws), 1
  {
    ws == [] || rs == [] || (Compat(ws[0], rs[0]) && CompatAll(ws[1..], rs[1..]))
  }

  lemma LeafConverts(w: Schema, r: Schema, v: Value)
    requires Compat(w, r) && HasType(w, v) && !w.Ptr? && !w.Slice? && !w.Map? && !w.Struct?
    ensures HasType(r, v)
  {
    hide Size, DistinctKeys, FieldsHave;
  }

  lemma EntryFields(k: Schema, x: Schema)
    ensures AllFields([Plain(k), Plain(x)]) == [k, x]
  {
    var fs := [Plain(k), Plain(x)];
    assert fs[1..] == [Plain(x)] && fs[1..][1..] == [];
    assert AllFields(fs[1..]) == [x] + AllFields([]);
  }

  lemma EntryCompat(k: Schema, x: Schema, k': Schema, x': Schema)
    requires Compat(k, k') && Compat(x, x')
    ensures Compat(Entry(k, x), Entry(k', x'))
  {
    EntryFields(k, x);
    EntryFields(k', x');
    var ws, rs := [k, x], [k', x'];
    assert ws[1..][0] == x && rs[1..][0] == x' && ws[1..][1..] == [];
    assert CompatAll(ws[1..], rs[1..]);
  }

  /** What the reader ends up with: shared fields from the writer's value `v`, the others from the target `t`. */
  function Convert(w: Schema, r: Schema, v: Value, t: Value): (c: Value)
    requires Compat(w, r) && HasType(w, v) && HasType(r, t)
    ensures HasType(r, c)
    decreases Size(w), 3, 0
  {
    match w
    case Ptr(e) => if v.VNil? then VNil else VRef(Convert(e, r.elem, v.target, Zero(r.elem)))
    case Slice(e) => VSeq(ConvertElems(e, r.elem, v.elems))
    case Map(k, x) => ConvertMap(k, x, r.key, r.val, v.entries)
    case Struct(fs) => ConvertStruct(fs, r.fields, v.vals, t.vals)
    case _ => LeafConverts(w, r, v); v
  }

  /** Keys that become equal by conversion leave one entry, as storing them one after another does. */
  function ConvertMap(k: Schema, x: Schema, k': Schema, x': Schema, es: seq<Value>): (c: Value)
    requires Compat(k, k') && Compat(x, x') && Entries(k, x, es)
    ensures HasType(Map(k', x'), c)
    decreases 1 + Size(k) + Size(x), 5, 0
  {
    EntrySize(k, x);
    EntriesHaveType(k, x, es);
    EntryCompat(k, x, k', x');
    var cs := ConvertElems(Entry(k, x), Entry(k', x'), es);
    EntriesOf(k', x', cs);
    VMap(SetAll([], cs))
  }

  function ConvertStruct(fs: seq<Field>, gs: seq<Field>, vs: seq<Value>, us: seq<Value>): (c: Value)
    requires CompatAll(AllFields(fs), AllFields(gs)) && FieldsHave(fs, vs) && FieldsHave(gs, us)
    ensures HasType(Struct(gs), c)
    decreases FieldsSize(fs), 5, 0
  {
    var cs := ConvertAll(AllFields(fs), AllFields(gs), AllVals(fs, vs), AllVals(gs, us));
    PutGet(gs, us, cs);
    VStruct(PutVals(gs, us, cs))
  }

  function ConvertElems(w: Schema, r: Schema, vs: seq<Value>): (cs: seq<Value>)
    requires Compat(w, r) && ElemsHave(w, vs)
    ensures |cs| == |vs| && ElemsHave(r, cs)
    decreases Size(w), 4, |vs|
  {
    if vs == [] then [] else [Convert(w, r, vs[0], Zero(r))] + ConvertElems(w, r, vs[1..])
  }

  function ConvertAll(ws: seq<Schema>, rs: seq<Schema>, vs: seq<Value>, ts: seq<Value>): (cs: seq<Value>)
    requires CompatAll(ws, rs) && AllHave(ws, vs) && AllHave(rs, ts)
    ensures |cs| == |rs| && AllHave(rs, cs)
    decreases SumSize(ws), 4, 0
  {
    if ws == [] || rs == [] then ts
    else [Convert(ws[0], rs[0], vs[0], ts[0])] + ConvertAll(ws[1..], rs[1..], vs[1..], ts[1..])
  }

  // ---- pieces of one item, read back ----

  lemma TakeAt(d: seq<byte>, p: nat, e: seq<byte>)
    requires At(d, p, e)
    ensures Take(d, p, |e|) == Ok(e)
  {
  }

  lemma CountAt(n: nat, d: seq<byte>, p: nat)
    requires 0 < n < 0x1_0000_0000 && At(d, p, Count(n))
    ensures ReadCount(d, p) == Ok((n, p + |Count(n)|))
  {
    RoundTrip(false, 4, 4, n, d, p);
  }

  /** A node id is a tag, the count sixteen, and two words. */
  lemma NodePieces(n: Node, d: seq<byte>, p: nat)
    requires At(d, p, NodeItem(n))
    ensures p + 18 <= |d| && d[p] == NODE_ID_TAG && ReadCount(d, p + 1) == Ok((16, p + 2))
    ensures Take(d, p + 2, 16) == Ok(NodeBytes(n))
  {
    hide NodeBytes, ReadCount;
    assert Groups(16, 0) == [16] && Count(16) == [16];
    assert NodeItem(n) == [NODE_ID_TAG] + ([16] + NodeBytes(n));
    AtSplit(d, p, [NODE_ID_TAG], [16] + NodeBytes(n));
    AtByte(d, p, [NODE_ID_TAG], 0);
    AtSplit(d, p + 1, [16], NodeBytes(n));
    CountAt(16, d, p + 1);
    TakeAt(d, p + 2, NodeBytes(n));
  }

  lemma NodeWords(n: Node)
    ensures FromLE(NodeBytes(n)[0..8]) == n.hi && FromLE(NodeBytes(n)[8..16]) == n.lo
  {
    hide LE, FromLE;
    var s := NodeBytes(n);
    assert s[0..8] == LE(n.hi, 8) && s[8..16] == LE(n.lo, 8);
    WordRoundTrip(n.hi, 8);
    WordRoundTrip(n.lo, 8);
  }

  lemma NodeAt(n: Node, d: seq<byte>, p: nat)
    requires At(d, p, NodeItem(n))
    ensures p + 18 <= |d| && d[p] == NODE_ID_TAG && ReadNode(NODE_ID_TAG, d, p + 1) == Ok((n, p + 18))
  {
    hide At, NodeItem, NodeBytes, ReadCount, Take, FromLE;
    NodePieces(n, d, p);
    NodeWords(n);
  }

  lemma GuidAt(g: GuidValue, d: seq<byte>, p: nat)
    requires IsGuid(g) && At(d, p, GuidBytes(g))
    ensures ReadGuid(d, p) == Ok(g)
  {
    var s := GuidBytes(g);
    TakeAt(d, p, s);
    assert s[0..4] == LE(g.data1, 4) && s[4..6] == LE(g.data2, 2) && s[6..8] == LE(g.data3, 2);
    assert s[8..16] == g.data4;
    WordRoundTrip(g.data1, 4);
    WordRoundTrip(g.data2, 2);
    WordRoundTrip(g.data3, 2);
  }

  lemma StrAt(u: seq<u16>, n: nat, d: seq<byte>, p: nat, q: nat)
    requires ReadCount(d, p) == Ok((n, q)) && n == |u|
    requires At(d, q, Pairs(u))
    ensures DecodeStr(WSTRING_TAG, d, p) == Ok((VStr(Runes(u)), q + |Pairs(u)|))
  {
    hide Pairs, UnPairs, Runes, ReadCount, Take;
    TakeAt(d, q, Pairs(u));
    UnPairsOfPairs(u);
  }

  lemma NumAt(signed: bool, w: Width, meta: byte, n: int, d: seq<byte>, p: nat, q: nat)
    requires NumMeta(signed, meta) && ReadAt(signed, w, d, p) == Ok((n, q)) && InRange(signed, w, n)
    ensures DecodeNum(signed, w, meta, d, p) == Ok((VInt(n), q))
  {
  }

  lemma ObjectParts(body: seq<byte>, d: seq<byte>, p: nat)
    requires At(d, p, Object(body))
    ensures d[p] == 0x00 && At(d, p + 1, ObjectHeader(|body|)) && d[p + 9] == SCOPE_BEGIN
    ensures At(d, p + 10, body) && d[p + 10 + |body|] == SCOPE_END && d[p + 11 + |body|] == OBJECT_END
  {
    hide At, ObjectHeader;
    var h := ObjectHeader(|body|);
    var tail := [SCOPE_END, OBJECT_END];
    AtSplit(d, p, [0x00], h + ([SCOPE_BEGIN] + (body + tail)));
    AtByte(d, p, [0x00], 0);
    AtSplit(d, p + 1, h, [SCOPE_BEGIN] + (body + tail));
    AtSplit(d, p + 9, [SCOPE_BEGIN], body + tail);
    AtByte(d, p + 9, [SCOPE_BEGIN], 0);
    AtSplit(d, p + 10, body, tail);
    AtByte(d, p + 10 + |body|, tail, 0);
    AtByte(d, p + 10 + |body|, tail, 1);
  }

  lemma HeaderWords(n: nat)
    requires n + 12 < 0x1_0000_0000
    ensures FromLE(ObjectHeader(n)[0..4]) == n + 11 && ObjectHeader(n)[4] == 0
  {
    hide LE, FromLE;
    assert ObjectHeader(n)[0..4] == LE(n + 11, 4);
    WordRoundTrip(n + 11, 4);
  }

  /** The end the header announces is where ScopeEnd is. */
  lemma ScopeAt(body: seq<byte>, d: seq<byte>, p: nat)
    requires At(d, p, Object(body)) && |body| + 12 < 0x1_0000_0000
    ensures p + |Object(body)| <= |d| && d[p] == 0x00
    ensures At(d, p + 10, body) && d[p + 10 + |body|] == SCOPE_END
    ensures ObjectBegin(0x00, d, p + 1) == Ok((p + 10 + |body|, p + 10))
    ensures forall q: nat {:trigger ObjectEnd(0x00, d, p + 10 + |body|, q)} ::
              ObjectEnd(0x00, d, p + 10 + |body|, q) == Ok(p + |Object(body)|)
  {
    hide Object, ObjectHeader, FromLE, Take;
    var h := ObjectHeader(|body|);
    ObjectParts(body, d, p);
    TakeAt(d, p + 1, h);
    HeaderWords(|body|);
  }

  // ---- the main theorem ----

  /** The encoding of `v`, less than 2^32 bytes long, lies at `p`. */
  predicate Sits(w: Schema, v: Value, d: seq<byte>, p: nat) {
    HasType(w, v) && Encode(w, v).Ok? && |Encode(w, v).value| < 0x1_0000_0000 && At(d, p, Encode(w, v).value)
  }

  /** The item at `p` starts with no ScopeEnd, decodes to the converted value, and is consumed exactly. */
  predicate Lands(w: Schema, r: Schema, v: Value, t: Value, d: seq<byte>, p: nat)
    requires Compat(w, r) && HasType(w, v) && HasType(r, t) && Encode(w, v).Ok?
  {
    && p < |d| && d[p] != SCOPE_END
    && Decode(r, d[p], d, p + 1, t) == Ok((Convert(w, r, v, t), p + |Encode(w, v).value|))
  }

  /** The tags the empty bit is added to. */
  predicate PlainTag(tag: byte) {
    tag < 0x10 || 0x80 <= tag < 0x90
  }

  lemma PlainTags(sc: Schema)
    ensures BaseTag(sc).Ok? ==> BaseTag(sc).value < 0x10
    ensures SliceTag(sc).Ok? ==> PlainTag(SliceTag(sc).value)
  {
  }

  lemma EmptyBitSet(tag: byte)
    requires PlainTag(tag)
    ensures WithBit(Ok(tag), EMPTY_BIT).Ok?
    ensures var b := WithBit(Ok(tag), EMPTY_BIT).value; IsEmptyMeta(b) && b != SCOPE_END
  {
  }

  lemma EmptyTagged(w: Schema, v: Value)
    requires HasType(w, v) && EmptyTag(w, v).Ok? && !StructKind(w)
    ensures var tag := EmptyTag(w, v).value; IsEmptyMeta(tag) && tag != SCOPE_END
  {
    hide HasType, BaseTag, SliceTag;
    PlainTags(w);
    if w.Slice? && SliceTag(w.elem).Ok? {
      PlainTags(w.elem);
      EmptyBitSet(SliceTag(w.elem).value);
    } else if BaseTag(w).Ok? {
      EmptyBitSet(BaseTag(w).value);
    }
  }

  lemma BoolConverts(v: Value, t: Value)
    requires HasType(Bool, v) && HasType(Bool, t)
    ensures Compat(Bool, Bool) && EmptyTag(Bool, v).Ok?
    ensures DecodeEmpty(Bool, EmptyTag(Bool, v).value) == Ok(Convert(Bool, Bool, v, t))
  {
  }

  lemma NoneConverted(w: Schema, r: Schema)
    requires Compat(w, r)
    ensures ConvertElems(w, r, []) == []
  {
    hide Compat, HasType, Convert;
  }

  lemma NoEntries(k: Schema, x: Schema, k': Schema, x': Schema, es: seq<Value>)
    requires Compat(k, k') && Compat(x, x') && Entries(k, x, es) && es == []
    ensures ConvertMap(k, x, k', x', es) == VMap([])
  {
    hide Compat, HasType, Convert;
    EntryCompat(k, x, k', x');
  }

  lemma ZeroConverts(w: Schema, r: Schema, v: Value, t: Value)
    requires Compat(w, r) && HasType(w, v) && HasType(r, t)
    requires !StructKind(w) && !w.Bool? && !w.Other? && IsZero(v)
    ensures !r.Bool? && Convert(w, r, v, t) == Zero(r)
  {
    hide FieldsHave, DistinctKeys, AllEntries, InRange, Size, PutVals, ConvertElems, ConvertMap;
    if w.Map? {
      NoEntries(w.key, w.val, r.key, r.val, v.entries);
    } else if w.Slice? {
      assert ConvertElems(w.elem, r.elem, []) == [] by { NoneConverted(w.elem, r.elem); }
    }
  }

  lemma EmptyConverts(w: Schema, r: Schema, v: Value, t: Value)
    requires Compat(w, r) && HasType(w, v) && HasType(r, t) && EmptyTag(w, v).Ok?
    requires !StructKind(w) && (w.Bool? || IsZero(v))
    ensures DecodeEmpty(r, EmptyTag(w, v).value) == Ok(Convert(w, r, v, t))
  {
    hide HasType, Convert, Zero, Size;
    if w.Bool? {
      BoolConverts(v, t);
    } else {
      ZeroConverts(w, r, v, t);
    }
  }

  lemma EmptyEncodes(w: Schema, v: Value)
    requires HasType(w, v) && !StructKind(w) && (w.Bool? || IsZero(v)) && Encode(w, v).Ok?
    ensures EmptyTag(w, v).Ok? && Encode(w, v) == Ok([EmptyTag(w, v).value])
  {
    hide HasType, EmptyTag, IsZero;
  }

  lemma EmptyDecodes(r: Schema, tag: byte, d: seq<byte>, p: nat, t: Value)
    requires HasType(r, t) && IsEmptyMeta(tag) && DecodeEmpty(r, tag).Ok?
    ensures Decode(r, tag, d, p, t) == Ok((DecodeEmpty(r, tag).value, p))
  {
    hide HasType, DecodeEmpty;
  }

  lemma EmptyLands(w: Schema, r: Schema, v: Value, t: Value, d: seq<byte>, p: nat)
    requires Compat(w, r) && Sits(w, v, d, p) && HasType(r, t)
    requires !StructKind(w) && (w.Bool? || IsZero(v))
    ensures Lands(w, r, v, t, d, p)
  {
    hide Encode, Decode, Convert, Compat, HasType, IsZero, EmptyTag, DecodeEmpty, IsEmptyMeta;
    EmptyEncodes(w, v);
    EmptyTagged(w, v);
    EmptyConverts(w, r, v, t);
    var tag := EmptyTag(w, v).value;
    AtByte(d, p, [tag], 0);
    EmptyDecodes(r, tag, d, p + 1, t);
  }

  lemma NumEncodes(signed: bool, w: Width, n: int)
    requires InRange(signed, w, n) && n != 0
    ensures Encode(Num(signed, w), VInt(n)) == Ok([BaseTag(Num(signed, w)).value] + Compressed(n))
    ensures var tag := BaseTag(Num(signed, w)).value;
            NumMeta(signed, tag) && !IsEmptyMeta(tag) && tag != SCOPE_END
  {
  }

  lemma NumLands(w: Schema, r: Schema, v: Value, t: Value, d: seq<byte>, p: nat)
    requires w.Num? && !IsZero(v)
    requires Compat(w, r) && Sits(w, v, d, p) && HasType(r, t)
    ensures Lands(w, r, v, t, d, p)
  {
    hide Encode, Compressed, DecodeNum, NumMeta, ReadAt, Units, Size, Zero, FieldsHave, PutVals;
    var tag, c := BaseTag(w).value, Compressed(v.n);
    NumEncodes(w.signed, w.width, v.n);
    AtSplit(d, p, [tag], c);
    AtByte(d, p, [tag], 0);
    RoundTrip(w.signed, w.width, r.width, v.n, d, p + 1);
    NumAt(w.signed, r.width, tag, v.n, d, p + 1, p + 1 + |c|);
  }

  lemma StrLands(w: Schema, r: Schema, v: Value, t: Value, d: seq<byte>, p: nat)
    requires w.Str? && !IsZero(v)
    requires Compat(w, r) && Sits(w, v, d, p) && HasType(r, t)
    ensures Lands(w, r, v, t, d, p)
  {
    hide Units, Runes, Pairs, Count, DecodeStr, ReadCount;
    var u := Units(v.runes);
    var c := Count(|u|);
    AtSplit(d, p, [WSTRING_TAG], c + Pairs(u));
    AtByte(d, p, [WSTRING_TAG], 0);
    AtSplit(d, p + 1, c, Pairs(u));
    CountAt(|u|, d, p + 1);
    StrAt(u, |u|, d, p + 1, p + 1 + |c|);
    RunesOfUnits(v.runes);
  }

  lemma CharLands(w: Schema, v: Value, t: Value, d: seq<byte>, p: nat)
    requires w.Char? && Sits(w, v, d, p) && HasType(w, t) && !IsZero(v)
    ensures Lands(w, w, v, t, d, p)
  {
    AtByte(d, p, Encode(w, v).value, 0);
    AtByte(d, p, Encode(w, v).value, 1);
  }

  lemma FloatLands(w: Schema, v: Value, t: Value, d: seq<byte>, p: nat)
    requires w.Float? && Sits(w, v, d, p) && HasType(w, t) && !IsZero(v)
    ensures Lands(w, w, v, t, d, p)
  {
    AtSplit(d, p, [0x0B], LE(v.bits, 8));
    AtByte(d, p, [0x0B], 0);
    TakeAt(d, p + 1, LE(v.bits, 8));
    WordRoundTrip(v.bits, 8);
  }

  lemma GuidShape(v: Value, t: Value)
    requires HasType(Guid, v) && HasType(Guid, t)
    ensures v.VGuid? && IsGuid(v.guid)
    ensures Encode(Guid, v) == Ok(if v.guid == EMPTY_GUID then [0x4C] else [0x0C] + GuidBytes(v.guid))
    ensures Compat(Guid, Guid) && Convert(Guid, Guid, v, t) == v
  {
    hide GuidBytes, Size;
  }

  lemma GuidDecodes(g: GuidValue, meta: byte, d: seq<byte>, p: nat, t: Value)
    requires IsGuid(g) && HasType(Guid, t)
    requires (meta == 0x4C && g == EMPTY_GUID) || (meta == 0x0C && ReadGuid(d, p) == Ok(g))
    ensures Decode(Guid, meta, d, p, t) == Ok((VGuid(g), if meta == 0x4C then p else p + 16))
  {
    hide ReadGuid, Size;
  }

  lemma GuidLands(w: Schema, v: Value, t: Value, d: seq<byte>, p: nat)
    requires w.Guid? && Sits(w, v, d, p) && HasType(w, t)
    ensures Lands(w, w, v, t, d, p)
  {
    hide Encode, Decode, Convert, Compat, HasType, GuidBytes, ReadGuid;
    GuidShape(v, t);
    if v.guid == EMPTY_GUID {
      AtByte(d, p, [0x4C], 0);
    } else {
      AtSplit(d, p, [0x0C], GuidBytes(v.guid));
      AtByte(d, p, [0x0C], 0);
      GuidAt(v.guid, d, p + 1);
    }
    GuidDecodes(v.guid, d[p], d, p + 1, t);
  }

  lemma NodeShape(w: Schema, v: Value, t: Value)
    requires (w.NodeId? || w.NodeIdRange?) && HasType(w, v) && HasType(w, t)
    ensures if w.NodeId? then v.VNode? else v.VRange?
    ensures Encode(w, v) == Ok(if w.NodeId? then NodeItem(v.node) else NodeItem(v.begin) + NodeItem(v.end))
    ensures Compat(w, w) && Convert(w, w, v, t) == v
  {
    hide NodeItem, Size;
  }

  lemma NodeDecodes(w: Schema, v: Value, t: Value, d: seq<byte>, p: nat)
    requires (w.NodeId? || w.NodeIdRange?) && HasType(w, v) && HasType(w, t) && p < |d| && d[p] == NODE_ID_TAG
    requires w.NodeId? ==> ReadNode(NODE_ID_TAG, d, p + 1) == Ok((v.node, p + 18))
    requires w.NodeIdRange? ==>
               && ReadNode(NODE_ID_TAG, d, p + 1) == Ok((v.begin, p + 18))
               && p + 18 < |d| && d[p + 18] == NODE_ID_TAG
               && ReadNode(NODE_ID_TAG, d, p + 19) == Ok((v.end, p + 36))
    ensures Decode(w, d[p], d, p + 1, t) == Ok((v, p + if w.NodeId? then 18 else 36))
  {
    hide ReadNode, Size, Zero;
  }

  lemma NodeLands(w: Schema, v: Value, t: Value, d: seq<byte>, p: nat)
    requires (w.NodeId? || w.NodeIdRange?) && Sits(w, v, d, p) && HasType(w, t)
    ensures Lands(w, w, v, t, d, p)
  {
    hide Encode, Decode, Convert, Compat, HasType, NodeItem, ReadNode, At;
    NodeShape(w, v, t);
    if w.NodeId? {
      NodeAt(v.node, d, p);
    } else {
      AtSplit(d, p, NodeItem(v.begin), NodeItem(v.end));
      NodeAt(v.begin, d, p);
      NodeAt(v.end, d, p + 18);
    }
    NodeDecodes(w, v, t, d, p);
  }

  lemma SameType(w: Schema, r: Schema)
    requires Compat(w, r) && (w.Char? || w.Float? || w.Guid? || w.NodeId? || w.NodeIdRange?)
    ensures r == w
  {
  }

  lemma OtherFails(w: Schema, v: Value)
    requires w.Other?
    ensures HasType(w, v) ==> Encode(w, v).Err?
  {
  }

  lemma PtrParts(w: Schema, r: Schema, v: Value, t: Value)
    requires w.Ptr? && !IsZero(v) && Compat(w, r) && HasType(w, v) && HasType(r, t)
    ensures v.VRef? && r.Ptr? && Compat(w.elem, r.elem) && HasType(w.elem, v.target)
    ensures Encode(w, v) == Join([0x01], Encode(w.elem, v.target))
    ensures Convert(w, r, v, t) == VRef(Convert(w.elem, r.elem, v.target, Zero(r.elem)))
  {
  }

  lemma PtrDecodes(e: Schema, d: seq<byte>, p: nat, t: Value)
    requires HasType(Ptr(e), t) && p < |d|
    ensures var x := Decode(e, d[p], d, p + 1, Zero(e));
            x.Ok? ==> Decode(Ptr(e), 0x01, d, p, t) == Ok((VRef(x.value.0), x.value.1))
  {
  }

  lemma StructTyped(fs: seq<Field>, v: Value)
    requires HasType(Struct(fs), v)
    ensures v.VStruct? && FieldsHave(fs, v.vals) && AllHave(AllFields(fs), AllVals(fs, v.vals))
    ensures SumSize(AllFields(fs)) < Size(Struct(fs))
  {
    hide AllFields, AllVals, FieldsHave, AllHave;
  }

  lemma StructCompat(fs: seq<Field>, gs: seq<Field>)
    requires Compat(Struct(fs), Struct(gs))
    ensures CompatAll(AllFields(fs), AllFields(gs))
  {
    hide AllFields, CompatAll;
  }

  lemma StructConverts(fs: seq<Field>, gs: seq<Field>, v: Value, t: Value)
    requires Compat(Struct(fs), Struct(gs)) && HasType(Struct(fs), v) && HasType(Struct(gs), t)
    ensures CompatAll(AllFields(fs), AllFields(gs)) && FieldsHave(fs, v.vals) && FieldsHave(gs, t.vals)
    ensures var cs := ConvertAll(AllFields(fs), AllFields(gs), AllVals(fs, v.vals), AllVals(gs, t.vals));
            Convert(Struct(fs), Struct(gs), v, t) == VStruct(PutVals(gs, t.vals, cs))
  {
    hide AllFields, AllVals, PutVals, Compat, CompatAll, ConvertAll, HasType, FieldsHave, AllHave, Size;
    StructTyped(fs, v);
    StructTyped(gs, t);
    StructCompat(fs, gs);
  }

  lemma ElemsTail(w: Schema, vs: seq<Value>)
    requires ElemsHave(w, vs) && vs != [] && EncodeElems(w, vs).Ok?
    ensures HasType(w, vs[0]) && ElemsHave(w, vs[1..])
    ensures Encode(w, vs[0]).Ok? && EncodeElems(w, vs[1..]).Ok?
    ensures EncodeElems(w, vs).value == Encode(w, vs[0]).value + EncodeElems(w, vs[1..]).value
  {
    hide Encode, HasType, Size;
  }

  lemma DecodeElemsStep(r: Schema, n: nat, d: seq<byte>, p: nat, x: Value, q: nat)
    requires n > 0 && p < |d| && Decode(r, d[p], d, p + 1, Zero(r)) == Ok((x, q))
    requires DecodeElems(r, n - 1, d, q).Ok?
    ensures var (xs, z) := DecodeElems(r, n - 1, d, q).value;
            DecodeElems(r, n, d, p) == Ok(([x] + xs, z))
  {
    hide Decode, HasType, Size, Zero;
  }

  lemma ElemsNone(w: Schema, r: Schema, d: seq<byte>, p: nat)
    requires Compat(w, r)
    ensures EncodeElems(w, []) == Ok([]) && ConvertElems(w, r, []) == [] && DecodeElems(r, 0, d, p) == Ok(([], p))
  {
  }

  lemma EncodeNonEmpty(w: Schema, v: Value)
    requires HasType(w, v) && Encode(w, v).Ok?
    ensures Encode(w, v).value != []
  {
  }

  /** Every element takes at least one byte, so a count always fits when the bytes do. */
  lemma {:induction false} ElemsLength(w: Schema, vs: seq<Value>)
    requires ElemsHave(w, vs) && EncodeElems(w, vs).Ok?
    ensures |EncodeElems(w, vs).value| >= |vs|
  {
    if vs != [] {
      EncodeNonEmpty(w, vs[0]);
      ElemsLength(w, vs[1..]);
    }
  }

  lemma SliceTagged(w: Schema, r: Schema)
    requires Compat(w, r) && SliceTag(w).Ok?
    ensures var tag := SliceTag(w).value;
            !IsEmptyMeta(tag) && tag != SCOPE_END && SliceMetaOk(r, tag)
  {
  }

  lemma MapParts(w: Schema, r: Schema, v: Value, t: Value)
    requires w.Map? && !IsZero(v) && Compat(w, r) && HasType(w, v) && HasType(r, t)
    ensures r.Map? && v.VMap? && v.entries != []
    ensures ElemsHave(Entry(w.key, w.val), v.entries) && Compat(Entry(w.key, w.val), Entry(r.key, r.val))
    ensures Encode(w, v) == Join([0x80] + Count(|v.entries|), EncodeElems(Entry(w.key, w.val), v.entries))
    ensures Size(Entry(w.key, w.val)) < Size(w)
    ensures var es := ConvertElems(Entry(w.key, w.val), Entry(r.key, r.val), v.entries);
            AllEntries(es) && Convert(w, r, v, t) == VMap(SetAll([], es))
  {
    hide EncodeElems, ConvertElems, Count, EmptyTag, BaseTag, SliceTag, Zero, FieldsHave, SetAll, DistinctKeys, Entry;
    EntrySize(w.key, w.val);
    EntriesHaveType(w.key, w.val, v.entries);
    EntryCompat(w.key, w.val, r.key, r.val);
    EntriesOf(r.key, r.val, ConvertElems(Entry(w.key, w.val), Entry(r.key, r.val), v.entries));
  }

  lemma MapDecodes(k: Schema, x: Schema, t: Value, n: u32, es: seq<Value>, z: nat, d: seq<byte>, p: nat, q: nat)
    requires HasType(Map(k, x), t) && AllEntries(es)
    requires ReadCount(d, p) == Ok((n, q)) && DecodeElems(Entry(k, x), n, d, q) == Ok((es, z))
    ensures Decode(Map(k, x), 0x80, d, p, t) == Ok((VMap(SetAll([], es)), z))
  {
    hide ReadCount, DecodeElems, Entry, SetAll, DecodeLeaf, DecodeEmpty, Zero, HasType;
  }

  /** Schema evolution, for one item lying anywhere in the input. */
  lemma {:induction false} Evolve(w: Schema, r: Schema, v: Value, t: Value, d: seq<byte>, p: nat)
    requires Compat(w, r) && Sits(w, v, d, p) && HasType(r, t)
    ensures Lands(w, r, v, t, d, p)
    decreases Size(w), 4, 0
  {
    hide Encode, Decode, Convert, Compat, HasType, Lands, At, Size;
    if !StructKind(w) && (w.Bool? || IsZero(v)) {
      EmptyLands(w, r, v, t, d, p);
    } else {
      match w
      case Char(_) => SameType(w, r); CharLands(w, v, t, d, p);
      case Num(_, _) => NumLands(w, r, v, t, d, p);
      case Float => SameType(w, r); FloatLands(w, v, t, d, p);
      case Str => StrLands(w, r, v, t, d, p);
      case Ptr(_) => EvolvePtr(w, r, v, t, d, p);
      case Slice(_) => EvolveSlice(w, r, v, t, d, p);
      case Map(_, _) => EvolveMap(w, r, v, t, d, p);
      case Struct(_) => EvolveStruct(w, r, v, t, d, p);
      case Guid => SameType(w, r); GuidLands(w, v, t, d, p);
      case NodeId => SameType(w, r); NodeLands(w, v, t, d, p);
      case NodeIdRange => SameType(w, r); NodeLands(w, v, t, d, p);
      case Other => OtherFails(w, v);
      case Bool =>
    }
  }

  lemma {:induction false} EvolvePtr(w: Schema, r: Schema, v: Value, t: Value, d: seq<byte>, p: nat)
    requires w.Ptr? && !IsZero(v)
    requires Compat(w, r) && Sits(w, v, d, p) && HasType(r, t)
    ensures Lands(w, r, v, t, d, p)
    decreases Size(w), 3, 0
  {
    hide Encode, Decode, Convert, Compat, HasType, Zero, At;
    PtrParts(w, r, v, t);
    var x := Encode(w.elem, v.target).value;
    AtSplit(d, p, [0x01], x);
    AtByte(d, p, [0x01], 0);
    Evolve(w.elem, r.elem, v.target, Zero(r.elem), d, p + 1);
    PtrDecodes(r.elem, d, p + 1, t);
  }

  lemma {:induction false} EvolveStruct(w: Schema, r: Schema, v: Value, t: Value, d: seq<byte>, p: nat)
    requires w.Struct?
    requires Compat(w, r) && Sits(w, v, d, p) && HasType(r, t)
    ensures Lands(w, r, v, t, d, p)
    decreases Size(w), 3, 0
  {
    hide EncodeAll, DecodeAll, ConvertAll, AllFields, AllVals, PutVals, ObjectBegin, ObjectEnd, Object, DecodeLeaf,
         DecodeEmpty, EmptyTag, BaseTag, SliceTag, Zero, AllHave, CompatAll, Convert;
    var body := EncodeAll(AllFields(w.fields), AllVals(w.fields, v.vals)).value;
    ScopeAt(body, d, p);
    assert r.Struct? && w == Struct(w.fields) && r == Struct(r.fields);
    StructConverts(w.fields, r.fields, v, t);
    EvolveAll(AllFields(w.fields), AllFields(r.fields), AllVals(w.fields, v.vals), AllVals(r.fields, t.vals),
              d, p + 10);
  }

  /** Field lists: the longer side's extra fields are skipped, or stopped short of by ScopeEnd. */
  lemma {:induction false} EvolveAll(ws: seq<Schema>, rs: seq<Schema>, vs: seq<Value>, ts: seq<Value>,
                                     d: seq<byte>, p: nat)
    requires CompatAll(ws, rs) && AllHave(ws, vs) && AllHave(rs, ts)
    requires EncodeAll(ws, vs).Ok? && |EncodeAll(ws, vs).value| < 0x1_0000_0000
    requires At(d, p, EncodeAll(ws, vs).value)
    requires p + |EncodeAll(ws, vs).value| < |d| && d[p + |EncodeAll(ws, vs).value|] == SCOPE_END
    ensures DecodeAll(rs, d, p, ts).Ok? && DecodeAll(rs, d, p, ts).value.0 == ConvertAll(ws, rs, vs, ts)
    decreases SumSize(ws), 5, 0
  {
    hide Encode, Decode, Convert, Compat, HasType, Zero, Size, At;
    if rs != [] && ws != [] {
      var first, rest := Encode(ws[0], vs[0]).value, EncodeAll(ws[1..], vs[1..]).value;
      AtSplit(d, p, first, rest);
      Evolve(ws[0], rs[0], vs[0], ts[0], d, p);
      EvolveAll(ws[1..], rs[1..], vs[1..], ts[1..], d, p + |first|);
    }
  }

  lemma {:induction false} EvolveElems(w: Schema, r: Schema, vs: seq<Value>, d: seq<byte>, p: nat)
    requires Compat(w, r) && ElemsHave(w, vs)
    requires EncodeElems(w, vs).Ok? && |EncodeElems(w, vs).value| < 0x1_0000_0000
    requires At(d, p, EncodeElems(w, vs).value)
    ensures DecodeElems(r, |vs|, d, p) == Ok((ConvertElems(w, r, vs), p + |EncodeElems(w, vs).value|))
    decreases Size(w), 5, |vs|
  {
    if vs == [] {
      hide *;
      ElemsNone(w, r, d, p);
    } else {
      hide Encode, Decode, Convert, Compat, HasType, Zero, Size, ElemsHave, At, EncodeElems, DecodeElems;
      ElemsTail(w, vs);
      var first, rest := Encode(w, vs[0]).value, EncodeElems(w, vs[1..]).value;
      AtSplit(d, p, first, rest);
      Evolve(w, r, vs[0], Zero(r), d, p);
      EvolveElems(w, r, vs[1..], d, p + |first|);
      DecodeElemsStep(r, |vs|, d, p, Convert(w, r, vs[0], Zero(r)), p + |first|);
    }
  }

  /** A tag, a count and that many elements. */
  lemma {:induction false} EvolveCounted(tag: byte, w: Schema, r: Schema, vs: seq<Value>, d: seq<byte>, p: nat)
    requires Compat(w, r) && ElemsHave(w, vs) && vs != []
    requires EncodeElems(w, vs).Ok? && |EncodeElems(w, vs).value| < 0x1_0000_0000
    requires At(d, p, [tag] + Count(|vs|) + EncodeElems(w, vs).value)
    ensures p < |d| && d[p] == tag
    ensures ReadCount(d, p + 1) == Ok((|vs|, p + 1 + |Count(|vs|)|))
    ensures DecodeElems(r, |vs|, d, p + 1 + |Count(|vs|)|) ==
            Ok((ConvertElems(w, r, vs), p + |[tag] + Count(|vs|) + EncodeElems(w, vs).value|))
    decreases Size(w), 6, 0
  {
    hide Encode, Decode, Convert, Compat, HasType, EncodeElems, DecodeElems, ConvertElems, ReadCount, Count;
    var c, body := Count(|vs|), EncodeElems(w, vs).value;
    assert [tag] + c + body == [tag] + (c + body);
    AtSplit(d, p, [tag], c + body);
    AtByte(d, p, [tag], 0);
    AtSplit(d, p + 1, c, body);
    ElemsLength(w, vs);
    CountAt(|vs|, d, p + 1);
    EvolveElems(w, r, vs, d, p + 1 + |c|);
  }

  lemma {:induction false} EvolveSlice(w: Schema, r: Schema, v: Value, t: Value, d: seq<byte>, p: nat)
    requires w.Slice? && !IsZero(v)
    requires Compat(w, r) && Sits(w, v, d, p) && HasType(r, t)
    ensures Lands(w, r, v, t, d, p)
    decreases Size(w), 3, 0
  {
    hide EncodeElems, DecodeElems, ConvertElems, ReadCount, Count, DecodeLeaf, DecodeEmpty, EmptyTag, BaseTag,
         SliceTag, Zero, SliceMetaOk, FieldsHave, SetAll;
    EvolveCounted(SliceTag(w.elem).value, w.elem, r.elem, v.elems, d, p);
    SliceTagged(w.elem, r.elem);
  }

  lemma {:induction false} EvolveMap(w: Schema, r: Schema, v: Value, t: Value, d: seq<byte>, p: nat)
    requires w.Map? && !IsZero(v)
    requires Compat(w, r) && Sits(w, v, d, p) && HasType(r, t)
    ensures Lands(w, r, v, t, d, p)
    decreases Size(w), 3, 0
  {
    hide EncodeElems, DecodeElems, ConvertElems, ReadCount, Count, Encode, Decode, Convert, Compat, HasType, Zero,
      SetAll, Entry, At;
    MapParts(w, r, v, t);
    assert r == Map(r.key, r.val);
    EvolveCounted(0x80, Entry(w.key, w.val), Entry(r.key, r.val), v.entries, d, p);
    var q := p + 1 + |Count(|v.entries|)|;
    var (es, z) := DecodeElems(Entry(r.key, r.val), |v.entries|, d, q).value;
    MapDecodes(r.key, r.val, t, |v.entries|, es, z, d, p + 1, q);
  }
}
