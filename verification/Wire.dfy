/** The bytes on the wire, written down in numbers: which tag stands for which type and value, and where the parts of
    an item lie. */
module Wire {
  import opened Bytes
  import opened Compress
  import opened Utf16
  import opened Schema
  import opened Codec
  import opened Evolution

  // ---- leaves ----

  /** 42 is true and 72 is false; a bool is read from nothing else. */
  lemma BoolWire(b: bool, t: Value, meta: byte, d: seq<byte>, p: nat)
    requires HasType(Bool, t)
    ensures Encode(Bool, VBool(b)) == Ok([if b then 0x42 else 0x72])
    ensures Decode(Bool, 0x42, d, p, t) == Ok((VBool(true), p))
    ensures Decode(Bool, 0x72, d, p, t) == Ok((VBool(false), p))
    ensures meta != 0x42 && meta != 0x72 ==> Decode(Bool, meta, d, p, t).Err?
  {
  }

  lemma CharWire(n: int)
    requires -128 <= n < 256
    ensures n < 128 ==>
              HasType(Char(true), VInt(n)) &&
              Encode(Char(true), VInt(n)) == Ok(if n == 0 then [0x43] else [0x03, n % 256])
    ensures n >= 0 ==>
              HasType(Char(false), VInt(n)) &&
              Encode(Char(false), VInt(n)) == Ok(if n == 0 then [0x44] else [0x04, n])
  {
  }

  lemma NumWire(signed: bool, w: Width, n: int)
    requires InRange(signed, w, n)
    ensures var tag := match (w, signed)
                       case (2, true) => 0x05 case (2, false) => 0x06 case (4, true) => 0x07
                       case (4, false) => 0x08 case (_, true) => 0x09 case (_, false) => 0x0A;
            Encode(Num(signed, w), VInt(n)) == Ok(if n == 0 then [tag + 0x40] else [tag] + Compressed(n))
  {
    hide Compressed;
  }

  lemma FloatWire(bits: u64)
    ensures Encode(Float, VFloat(bits)) == Ok(if bits == 0 then [0x4B] else [0x0B] + LE(bits, 8))
  {
    hide LE;
  }

  /** The count is that of the UTF-16 code units. */
  lemma StrWire(s: seq<Rune>)
    ensures Encode(Str, VStr(s)) ==
            Ok(if s == [] then [0xCD] else [0x8D] + (Compressed(|Units(s)| % 0x1_0000_0000) + Pairs(Units(s))))
  {
    hide Compressed, Units, Pairs;
  }

  lemma GuidWire(g: GuidValue)
    requires IsGuid(g)
    ensures Encode(Guid, VGuid(g)) ==
            Ok(if g == GuidValue(0, 0, 0, [0, 0, 0, 0, 0, 0, 0, 0]) then [0x4C]
               else [0x0C] + (LE(g.data1, 4) + LE(g.data2, 2) + LE(g.data3, 2) + g.data4))
  {
    hide LE;
    assert seq(8, i requires 0 <= i < 8 => g.data4[i]) == g.data4;
  }

  /** An array of sixteen bytes: two words, the high one first. */
  lemma NodeWire(n: Node, m: Node)
    ensures Encode(NodeId, VNode(n)) == Ok([0x84, 0x10] + (LE(n.hi, 8) + LE(n.lo, 8)))
    ensures Encode(NodeIdRange, VRange(n, m)) ==
            Ok([0x84, 0x10] + (LE(n.hi, 8) + LE(n.lo, 8)) + ([0x84, 0x10] + (LE(m.hi, 8) + LE(m.lo, 8))))
  {
    hide LE;
  }

  // ---- pointers, slices, maps ----

  lemma PtrEncodes(e: Schema, v: Value)
    requires HasType(e, v)
    ensures HasType(Ptr(e), VNil) && HasType(Ptr(e), VRef(v))
    ensures Encode(Ptr(e), VNil) == Ok([0x41])
    ensures Encode(Ptr(e), VRef(v)) == Join([0x01], Encode(e, v))
  {
  }

  lemma PtrWire(e: Schema, v: Value)
    requires HasType(e, v)
    ensures Encode(Ptr(e), VNil) == Ok([0x41])
    ensures Encode(Ptr(e), VRef(v)) == if Encode(e, v).Ok? then Ok([0x01] + Encode(e, v).value) else Encode(e, v)
  {
    hide Encode, HasType;
    PtrEncodes(e, v);
  }

  /** The tag of a non-empty slice, by the type of its elements. */
  function TagOfSlice(e: Schema): Result<byte> {
    match e
    case Str => Ok(0x08)
    case Ptr(_) => Ok(0x08)
    case Bool => Ok(0x82)
    case Char(signed) => Ok(if signed then 0x83 else 0x84)
    case Num(signed, w) =>
      Ok(match (w, signed)
         case (2, true) => 0x85 case (2, false) => 0x86 case (4, true) => 0x87
         case (4, false) => 0x88 case (_, true) => 0x89 case (_, false) => 0x8A)
    case Float => Ok(0x8B)
    case Struct(_) => Ok(0x80)
    case Guid => Ok(0x80)
    case NodeId => Ok(0x80)
    case NodeIdRange => Ok(0x80)
    case Slice(_) => Err(Unsupported)
    case Map(_, _) => Err(Unsupported)
    case Other => Err(Unsupported)
  }

  lemma SliceTagWire(e: Schema)
    ensures SliceTag(e) == TagOfSlice(e)
    ensures WithBit(SliceTag(e), EMPTY_BIT) ==
            if TagOfSlice(e).Ok? then Ok(TagOfSlice(e).value + 0x40) else TagOfSlice(e)
  {
  }

  lemma UnsupportedSlice(e: Schema)
    ensures TagOfSlice(e).Err? ==> TagOfSlice(e) == Err(Unsupported)
  {
  }

  lemma SliceWire(e: Schema, vs: seq<Value>)
    requires ElemsHave(e, vs)
    ensures HasType(Slice(e), VSeq(vs))
    ensures Encode(Slice(e), VSeq(vs)) ==
            if TagOfSlice(e).Err? then Err(Unsupported)
            else if vs == [] then Ok([TagOfSlice(e).value + 0x40])
            else if EncodeElems(e, vs).Err? then EncodeElems(e, vs)
            else Ok([TagOfSlice(e).value] + Compressed(|vs| % 0x1_0000_0000) + EncodeElems(e, vs).value)
  {
    hide EncodeElems, Compressed, SliceTag, WithBit, TagOfSlice;
    SliceTagWire(e);
    UnsupportedSlice(e);
  }

  lemma MapEncodes(k: Schema, x: Schema, es: seq<Value>)
    requires HasType(Map(k, x), VMap(es)) && ElemsHave(Entry(k, x), es)
    ensures Encode(Map(k, x), VMap(es)) ==
            if es == [] then Ok([0xC0]) else Join([0x80] + Count(|es|), EncodeElems(Entry(k, x), es))
  {
    hide EncodeElems, Count, HasType, Entry;
  }

  lemma EntryTyped(k: Schema, x: Schema, es: seq<Value>)
    requires HasType(Map(k, x), VMap(es))
    ensures AllEntries(es) && Entries(k, x, es)
  {
    hide DistinctKeys;
  }

  /** A map is a slice of structs of a key and a value. */
  lemma MapWire(k: Schema, x: Schema, es: seq<Value>)
    requires HasType(Map(k, x), VMap(es))
    ensures ElemsHave(Struct([Plain(k), Plain(x)]), es)
    ensures var all := EncodeElems(Struct([Plain(k), Plain(x)]), es);
            Encode(Map(k, x), VMap(es)) ==
            if es == [] then Ok([0xC0])
            else if all.Err? then all
            else Ok([0x80] + Compressed(|es| % 0x1_0000_0000) + all.value)
  {
    hide Encode, EncodeElems, Compressed, HasType, ElemsHave, Entries, AllEntries;
    EntryTyped(k, x, es);
    EntriesHaveType(k, x, es);
    MapEncodes(k, x, es);
  }

  /** Elements are encoded one after another. */
  lemma ElemsWire(e: Schema, v: Value, vs: seq<Value>)
    requires HasType(e, v) && ElemsHave(e, vs) && ElemsHave(e, [v] + vs)
    ensures EncodeElems(e, []) == Ok([])
    ensures EncodeElems(e, [v] + vs) ==
            if Encode(e, v).Err? then Encode(e, v)
            else if EncodeElems(e, vs).Err? then EncodeElems(e, vs)
            else Ok(Encode(e, v).value + EncodeElems(e, vs).value)
  {
    hide Encode, HasType;
    assert ([v] + vs)[1..] == vs;
  }

  // ---- structs ----

  lemma FirstType(f: Field, fs: seq<Field>)
    ensures AllFields([f] + fs) ==
            (match f case Plain(sc) => [sc] case Embedded(gs) => AllFields(gs) case Hidden => []) + AllFields(fs)
  {
    assert ([f] + fs)[1..] == fs;
  }

  /** The fields reached are those declared, in order, an embedded struct's in its place, hidden ones left out. */
  lemma FlattenWire(sc: Schema, gs: seq<Field>, fs: seq<Field>)
    ensures AllFields([]) == []
    ensures AllFields([Plain(sc)] + fs) == [sc] + AllFields(fs)
    ensures AllFields([Embedded(gs)] + fs) == AllFields(gs) + AllFields(fs)
    ensures AllFields([Hidden] + fs) == AllFields(fs)
  {
    FirstType(Plain(sc), fs);
    FirstType(Embedded(gs), fs);
    FirstType(Hidden, fs);
  }

  /** ... and so are their values. */
  lemma FlattenValues(f: Field, v: Value, fs: seq<Field>, vs: seq<Value>)
    requires FieldHas(f, v) && FieldsHave(fs, vs)
    ensures FieldsHave([f] + fs, [v] + vs)
    ensures AllVals([f] + fs, [v] + vs) ==
            (match f case Plain(_) => [v] case Embedded(gs) => AllVals(gs, v.vals) case Hidden => []) + AllVals(fs, vs)
  {
    hide HasType;
    assert ([f] + fs)[1..] == fs && ([v] + vs)[1..] == vs;
  }

  /** 00, the size with its own header and the closing tags, no flags, 1F, the fields, 2F 3F. */
  lemma StructWire(fs: seq<Field>, v: Value)
    requires HasType(Struct(fs), v)
    ensures var all := EncodeAll(AllFields(fs), AllVals(fs, v.vals));
            Encode(Struct(fs), v) ==
            if all.Err? then all
            else Ok([0x00] + LE(|all.value| + 11, 4) + [0, 0, 0, 0, 0x1F] + all.value + [0x2F, 0x3F])
  {
    hide AllFields, AllVals, EncodeAll, FieldsHave, AllHave, LE;
    var all := EncodeAll(AllFields(fs), AllVals(fs, v.vals));
    if all.Ok? {
      var body := all.value;
      assert Object(body) == [0x00] + LE(|body| + 11, 4) + [0, 0, 0, 0, 0x1F] + body + [0x2F, 0x3F];
    }
  }

  /** Fields are encoded one after another. */
  lemma FieldsWire(sc: Schema, ts: seq<Schema>, v: Value, vs: seq<Value>)
    requires HasType(sc, v) && AllHave(ts, vs) && AllHave([sc] + ts, [v] + vs)
    ensures EncodeAll([], []) == Ok([])
    ensures EncodeAll([sc] + ts, [v] + vs) ==
            if Encode(sc, v).Err? then Encode(sc, v)
            else if EncodeAll(ts, vs).Err? then EncodeAll(ts, vs)
            else Ok(Encode(sc, v).value + EncodeAll(ts, vs).value)
  {
    hide Encode, HasType;
    assert ([sc] + ts)[1..] == ts && ([v] + vs)[1..] == vs;
  }

  // ---- what is accepted ----

  /** The tags an item of a type may carry, when the empty bit is not set. */
  predicate Accepts(sc: Schema, meta: byte) {
    match sc
    case Bool => false
    case Char(signed) => meta == if signed then 0x03 else 0x04
    case Num(signed, _) => if signed then meta in [0x05, 0x07, 0x09] else meta in [0x06, 0x08, 0x0A]
    case Float => meta == 0x0B
    case Str => meta == 0x8D
    case Slice(e) => if e.Str? || e.Ptr? then meta == 0x08 else StructKind(e) ==> meta == 0x80
    case Map(_, _) => meta == 0x80
    case Guid => meta % 16 == 0x0C
    case NodeId => meta == 0x84
    case NodeIdRange => meta == 0x84
    case Ptr(_) => true
    case Struct(_) => true
    case Other => false
  }

  lemma AcceptedCounted(sc: Schema, meta: byte, d: seq<byte>, p: nat, t: Value)
    requires HasType(sc, t) && (meta / 64) % 2 == 0
    requires sc.Slice? || sc.Map? || sc.Bool? || sc.Ptr? || sc.Struct?
    ensures Decode(sc, meta, d, p, t).Ok? ==> Accepts(sc, meta)
  {
    hide HasType, ReadCount, DecodeElems, DecodeAll, ObjectBegin, ObjectEnd, AllFields, AllVals, PutVals;
  }

  lemma LeafDecodes(sc: Schema, meta: byte, d: seq<byte>, p: nat, t: Value)
    requires HasType(sc, t) && (meta / 64) % 2 == 0
    requires !sc.Slice? && !sc.Map? && !sc.Ptr? && !sc.Struct?
    ensures Decode(sc, meta, d, p, t) == DecodeLeaf(sc, meta, d, p)
  {
    hide HasType, DecodeLeaf;
  }

  lemma AcceptedLeaf(sc: Schema, meta: byte, d: seq<byte>, p: nat)
    requires !sc.Slice? && !sc.Map? && !sc.Ptr? && !sc.Struct? && !sc.Bool?
    ensures DecodeLeaf(sc, meta, d, p).Ok? ==> Accepts(sc, meta)
  {
    hide ReadAt, ReadCount, FromLE, Runes, UnPairs, GuidFrom, Truncate;
  }

  /** Whatever the input, an item is decoded only under such a tag; with the empty bit (0x40) set, it is the zero
      value of any type but bool, and nothing is read. */
  lemma AcceptedTags(sc: Schema, meta: byte, d: seq<byte>, p: nat, t: Value)
    requires HasType(sc, t)
    ensures (meta / 64) % 2 == 0 && Decode(sc, meta, d, p, t).Ok? ==> Accepts(sc, meta)
    ensures (meta / 64) % 2 == 1 && !sc.Bool? ==> Decode(sc, meta, d, p, t) == Ok((Zero(sc), p))
  {
    hide HasType, Decode, DecodeLeaf, Zero, Accepts;
    if (meta / 64) % 2 == 1 {
      if !sc.Bool? {
        EmptyDecodes(sc, meta, d, p, t);
      }
    } else if sc.Slice? || sc.Map? || sc.Bool? || sc.Ptr? || sc.Struct? {
      AcceptedCounted(sc, meta, d, p, t);
    } else {
      LeafDecodes(sc, meta, d, p, t);
      AcceptedLeaf(sc, meta, d, p);
    }
  }

  /** A compressed integer is read exactly when a byte without the high bit comes within 3, 5 or 10 bytes. */
  lemma CodeAccepted(signed: bool, w: Width, d: seq<byte>, p: nat)
    ensures var most := if w == 2 then 3 else if w == 4 then 5 else 10;
            && (ReadAt(signed, w, d, p).Ok? <==> exists i :: p <= i < p + most && i < |d| && d[i] < 128)
            && (ReadAt(signed, w, d, p).Ok? ==>
                  var z := ReadAt(signed, w, d, p).value.1;
                  p < z <= p + most && z <= |d| && d[z - 1] < 128 && forall i :: p <= i < z - 1 ==> d[i] >= 128)
  {
    hide Val, Wrap, Truncate;
    var most := if w == 2 then 3 else if w == 4 then 5 else 10;
    if Stop(d, p, most).Ok? {
      var last := Stop(d, p, most).value;
      assert d[last] < 128;
    }
  }

  /** A number read is the one in the compressed code, fitted into the width. */
  lemma NumDecodes(signed: bool, w: Width, meta: byte, d: seq<byte>, p: nat, t: Value) returns (q: int)
    requires HasType(Num(signed, w), t) && Accepts(Num(signed, w), meta)
    ensures var x := Decode(Num(signed, w), meta, d, p, t);
            match ReadAt(signed, w, d, p)
            case Err(e) => x == Err(e)
            case Ok((n, z)) =>
              && x.Ok? && x.value.1 == z && x.value.0.VInt? && InRange(signed, w, x.value.0.n)
              && n == x.value.0.n + q * if w == 2 then 0x1_0000 else if w == 4 then 0x1_0000_0000
                                        else 0x1_0000_0000_0000_0000
  {
    hide ReadAt, HasType, Truncate;
    LeafDecodes(Num(signed, w), meta, d, p, t);
    q := 0;
    if ReadAt(signed, w, d, p).Ok? {
      q := TruncateKeeps(signed, w, ReadAt(signed, w, d, p).value.0);
    }
  }

  /** The zero values. */
  lemma ZeroWire(e: Schema, signed: bool, w: Width)
    ensures Zero(Bool) == VBool(false) && Zero(Char(signed)) == VInt(0) && Zero(Num(signed, w)) == VInt(0)
    ensures Zero(Float) == VFloat(0) && Zero(Str) == VStr([]) && Zero(Ptr(e)) == VNil && Zero(Slice(e)) == VSeq([])
    ensures Zero(Map(e, e)) == VMap([])
  {
    hide HasType;
  }

  lemma ZeroIdWire()
    ensures Zero(Guid) == VGuid(GuidValue(0, 0, 0, [0, 0, 0, 0, 0, 0, 0, 0]))
    ensures Zero(NodeId) == VNode(Node(0, 0)) && Zero(NodeIdRange) == VRange(Node(0, 0), Node(0, 0))
  {
    hide HasType;
  }

  lemma ZeroStructWire(e: Schema, fs: seq<Field>)
    ensures Zero(Struct([])) == VStruct([])
    ensures Zero(Struct([Plain(e)] + fs)) == VStruct([Zero(e)] + ZeroFields(fs))
    ensures Zero(Struct(fs)) == VStruct(ZeroFields(fs))
  {
    hide HasType, FieldsHave;
    var gs := [Plain(e)] + fs;
    assert gs[0] == Plain(e) && gs[1..] == fs;
    assert ZeroFields(gs) == [ZeroField(gs[0])] + ZeroFields(gs[1..]);
    assert ZeroFields([]) == [];
  }

  // ---- type information ----

  /** Size, flags and padding. */
  function TypedHead(flags: byte, pad: seq<byte>, size: nat): (s: seq<byte>)
    requires |pad| == 3
    ensures |s| == 8
  {
    LE(size, 4) + ([flags] + pad)
  }

  /** An object whose header announces type information, here `info`. */
  function TypedObject(flags: byte, pad: seq<byte>, info: seq<byte>, body: seq<byte>): seq<byte>
    requires |pad| == 3
  {
    [0x00] + (TypedHead(flags, pad, |body| + 11 + |Count(|info|)| + |info|)
              + (Count(|info|) + (info + ([0x1F] + (body + [0x2F, 0x3F])))))
  }

  lemma AtEnd(d: seq<byte>, p: nat, e: seq<byte>)
    ensures At(d, p, e) ==> p + |e| <= |d|
  {
  }

  /** Where its parts lie. */
  lemma TypedParts(flags: byte, pad: seq<byte>, info: seq<byte>, body: seq<byte>, d: seq<byte>, p: nat)
    requires |pad| == 3 && At(d, p, TypedObject(flags, pad, info, body))
    ensures var c := |Count(|info|)|; var q := p + 9 + c + |info|;
            && d[p] == 0x00 && At(d, p + 1, TypedHead(flags, pad, |body| + 11 + c + |info|))
            && At(d, p + 9, Count(|info|)) && q + 3 + |body| <= |d|
            && d[q] == 0x1F && At(d, q + 1, body) && d[q + 1 + |body|] == 0x2F && d[q + 2 + |body|] == 0x3F
  {
    hide At, TypedHead, Count;
    var head, c := TypedHead(flags, pad, |body| + 11 + |Count(|info|)| + |info|), Count(|info|);
    var tail: seq<byte> := [0x2F, 0x3F];
    var fields := body + tail;
    var scope := [0x1F] + fields;
    var rest := info + scope;
    var counted := c + rest;
    var q := p + 9 + |c| + |info|;
    AtSplit(d, p, [0x00], head + counted);
    AtByte(d, p, [0x00], 0);
    AtSplit(d, p + 1, head, counted);
    AtSplit(d, p + 9, c, rest);
    AtSplit(d, p + 9 + |c|, info, scope);
    AtSplit(d, q, [0x1F], fields);
    AtByte(d, q, [0x1F], 0);
    AtSplit(d, q + 1, body, tail);
    AtEnd(d, q + 1 + |body|, tail);
    AtByte(d, q + 1 + |body|, tail, 0);
    AtByte(d, q + 1 + |body|, tail, 1);
  }

  lemma TypedHeader(n: nat, flags: byte, pad: seq<byte>)
    requires |pad| == 3 && n < 0x1_0000_0000
    ensures var h := TypedHead(flags, pad, n); FromLE(h[0..4]) == n && h[4] == flags
  {
    hide LE, FromLE;
    var h := TypedHead(flags, pad, n);
    assert h[0..4] == LE(n, 4);
    WordRoundTrip(n, 4);
  }

  lemma TypedScope(flags: byte, pad: seq<byte>, info: seq<byte>, body: seq<byte>, d: seq<byte>, p: nat)
    requires |pad| == 3 && flags % 2 == 1 && info != [] && At(d, p, TypedObject(flags, pad, info, body))
    requires |TypedObject(flags, pad, info, body)| < 0x1_0000_0000
    ensures var q := p + 9 + |Count(|info|)| + |info|;
            && d[p] == 0x00 && At(d, q + 1, body) && q + 2 + |body| < |d| && d[q + 1 + |body|] == 0x2F
            && ObjectBegin(0x00, d, p + 1) == Ok((q + 1 + |body|, q + 1))
            && forall z: nat {:trigger ObjectEnd(0x00, d, q + 1 + |body|, z)} ::
                 ObjectEnd(0x00, d, q + 1 + |body|, z) == Ok(q + 3 + |body|)
  {
    hide At, TypedHead, Count, FromLE, Take, ReadCount;
    var c := |Count(|info|)|;
    var n := |body| + 11 + c + |info|;
    TypedParts(flags, pad, info, body, d, p);
    TakeAt(d, p + 1, TypedHead(flags, pad, n));
    TypedHeader(n, flags, pad);
    CountAt(|info|, d, p + 9);
  }

  /** A struct is decoded field by field between the ends of its scope. */
  lemma StructDecodes(gs: seq<Field>, t: Value, d: seq<byte>, p: nat, end: nat, q: nat)
    requires HasType(Struct(gs), t) && t.VStruct? && FieldsHave(gs, t.vals)
    requires AllHave(AllFields(gs), AllVals(gs, t.vals)) && ObjectBegin(0x00, d, p) == Ok((end, q))
    requires var all := DecodeAll(AllFields(gs), d, q, AllVals(gs, t.vals));
             all.Ok? && ObjectEnd(0x00, d, end, all.value.1).Ok?
    ensures var all := DecodeAll(AllFields(gs), d, q, AllVals(gs, t.vals)).value;
            && |all.0| == |AllFields(gs)|
            && Decode(Struct(gs), 0x00, d, p, t) ==
               Ok((VStruct(PutVals(gs, t.vals, all.0)), ObjectEnd(0x00, d, end, all.1).value))
  {
    hide DecodeAll, AllFields, AllVals, PutVals, ObjectBegin, ObjectEnd, HasType, FieldsHave, AllHave;
    var all := DecodeAll(AllFields(gs), d, q, AllVals(gs, t.vals)).value;
    HaveLength(AllFields(gs), all.0);
  }

  /** Type information is skipped: a struct whose object carries it is read as if it did not. */
  lemma TypeInformationSkipped(fs: seq<Field>, gs: seq<Field>, v: Value, t: Value, flags: byte, pad: seq<byte>,
                               info: seq<byte>, d: seq<byte>, p: nat)
    requires Compat(Struct(fs), Struct(gs)) && HasType(Struct(fs), v) && HasType(Struct(gs), t)
    requires EncodeAll(AllFields(fs), AllVals(fs, v.vals)).Ok?
    requires |pad| == 3 && flags % 2 == 1 && info != []
    requires var item := TypedObject(flags, pad, info, EncodeAll(AllFields(fs), AllVals(fs, v.vals)).value);
             |item| < 0x1_0000_0000 && At(d, p, item)
    ensures var item := TypedObject(flags, pad, info, EncodeAll(AllFields(fs), AllVals(fs, v.vals)).value);
            && d[p] == 0x00
            && Decode(Struct(gs), 0x00, d, p + 1, t) == Ok((Convert(Struct(fs), Struct(gs), v, t), p + |item|))
  {
    hide EncodeAll, DecodeAll, ConvertAll, AllFields, AllVals, PutVals, ObjectBegin, ObjectEnd, AllHave, CompatAll,
         Compat, Convert, HasType, FieldsHave, At, TypedHead, Count;
    StructConverts(fs, gs, v, t);
    StructTyped(fs, v);
    StructTyped(gs, t);
    var body := EncodeAll(AllFields(fs), AllVals(fs, v.vals)).value;
    TypedScope(flags, pad, info, body, d, p);
    var q := p + 10 + |Count(|info|)| + |info|;
    EvolveAll(AllFields(fs), AllFields(gs), AllVals(fs, v.vals), AllVals(gs, t.vals), d, q);
    StructDecodes(gs, t, d, p + 1, q + |body|, q);
  }
}
