/** Where the program panics instead of returning an error, and that it does so nowhere else. */
module Panics {
  import opened Bytes
  import opened Utf16
  import opened Compress
  import opened Schema
  import opened Codec
  import opened Evolution
  import opened Headers
  import opened HeaderTheorems
  import opened Frames
  import opened NodeIds

  // ---- types that can make the decoder panic ----

  /** A type with a one-byte integer at some depth. */
  predicate HasChar(sc: Schema)
    decreases Size(sc), 0
  {
    match sc
    case Char(_) => true
    case Ptr(e) => HasChar(e)
    case Slice(e) => HasChar(e)
    case Map(k, x) => HasChar(k) || HasChar(x)
    case Struct(fs) => AnyChar(AllFields(fs))
    case _ => false
  }

  predicate AnyChar(ts: seq<Schema>)
    decreases SumSize(ts), 1
  {
    ts != [] && (HasChar(ts[0]) || AnyChar(ts[1..]))
  }

  lemma EntryChar(k: Schema, x: Schema)
    ensures HasChar(Entry(k, x)) <==> HasChar(k) || HasChar(x)
  {
    EntryFields(k, x);
    assert [k, x][1..] == [x] && [x][1..] == [];
    assert AnyChar([x]) <==> HasChar(x);
    assert AnyChar([k, x]) <==> HasChar(k) || HasChar(x);
  }

  lemma OneChar(a: Schema)
    ensures HasChar(Struct([Plain(a)])) <==> HasChar(a)
  {
    var fs := [Plain(a)];
    assert fs[1..] == [] && [a][1..] == [];
    assert AllFields(fs) == [a] + AllFields([]) == [a];
    assert AnyChar([a]) <==> HasChar(a);
  }

  // ---- all others never do ----

  lemma ReadsNeverPanic(signed: bool, w: Width, meta: byte, d: seq<byte>, p: nat)
    ensures ReadAt(signed, w, d, p) != Err(Panic) && Codec.ReadCount(d, p) != Err(Panic)
    ensures Codec.ReadNode(meta, d, p) != Err(Panic)
  {
    hide Stop, Val, Wrap, Truncate, FromLE;
  }

  lemma ScopesNeverPanic(meta: byte, d: seq<byte>, p: nat, end: int)
    ensures ObjectBegin(meta, d, p) != Err(Panic) && ObjectEnd(meta, d, end, p) != Err(Panic)
  {
    hide ReadCount, FromLE;
    if meta == 0x00 && Take(d, p, 8).Ok? {
      ReadsNeverPanic(false, 4, meta, d, p + 8);
    }
  }

  lemma LeavesNeverPanic(sc: Schema, meta: byte, d: seq<byte>, p: nat)
    requires !sc.Char?
    ensures DecodeLeaf(sc, meta, d, p) != Err(Panic) && DecodeEmpty(sc, meta) != Err(Panic)
  {
    hide ReadAt, ReadCount, ReadNode, Runes, UnPairs, GuidFrom, FromLE, Truncate, Zero;
    ReadsNeverPanic(false, 4, meta, d, p);
    if sc.Num? {
      ReadsNeverPanic(sc.signed, sc.width, meta, d, p);
    } else if sc.NodeIdRange? && ReadNode(meta, d, p).Ok? {
      var q := ReadNode(meta, d, p).value.1;
      if q < |d| {
        ReadsNeverPanic(false, 4, d[q], d, q + 1);
      }
    }
  }

  lemma EmptyNeverPanics(sc: Schema, meta: byte, d: seq<byte>, p: nat, t: Value)
    requires HasType(sc, t) && IsEmptyMeta(meta)
    ensures Decode(sc, meta, d, p, t) != Err(Panic)
  {
    hide HasType, Zero;
  }

  lemma PtrNeverPanics(e: Schema, meta: byte, d: seq<byte>, p: nat, t: Value)
    requires HasType(Ptr(e), t) && !IsEmptyMeta(meta)
    requires p < |d| ==> Decode(e, d[p], d, p + 1, Zero(e)) != Err(Panic)
    ensures Decode(Ptr(e), meta, d, p, t) != Err(Panic)
  {
    hide HasType, Zero;
  }

  /** A count and elements, neither of which panics. */
  predicate CountedOk(e: Schema, d: seq<byte>, p: nat) {
    match ReadCount(d, p)
    case Ok((n, q)) => DecodeElems(e, n, d, q) != Err(Panic)
    case Err(x) => x != Panic
  }

  lemma SliceNeverPanics(e: Schema, meta: byte, d: seq<byte>, p: nat, t: Value)
    requires HasType(Slice(e), t) && !IsEmptyMeta(meta) && CountedOk(e, d, p)
    ensures Decode(Slice(e), meta, d, p, t) != Err(Panic)
  {
    hide HasType, DecodeElems, ReadCount;
  }

  lemma MapNeverPanics(k: Schema, x: Schema, meta: byte, d: seq<byte>, p: nat, t: Value)
    requires HasType(Map(k, x), t) && !IsEmptyMeta(meta) && CountedOk(Entry(k, x), d, p)
    ensures Decode(Map(k, x), meta, d, p, t) != Err(Panic)
  {
    hide HasType, DecodeElems, ReadCount, Entry, SetAll;
  }

  lemma LeafNeverPanics(sc: Schema, meta: byte, d: seq<byte>, p: nat, t: Value)
    requires HasType(sc, t) && !IsEmptyMeta(meta) && !HasChar(sc)
    requires !sc.Ptr? && !sc.Slice? && !sc.Map? && !sc.Struct?
    ensures Decode(sc, meta, d, p, t) != Err(Panic)
  {
    hide HasType, DecodeLeaf;
    LeavesNeverPanic(sc, meta, d, p);
  }

  /** Without one-byte integers no input makes the decoder panic. */
  lemma {:induction false} NeverPanics(sc: Schema, meta: byte, d: seq<byte>, p: nat, t: Value)
    requires HasType(sc, t) && !HasChar(sc)
    ensures Decode(sc, meta, d, p, t) != Err(Panic)
    decreases Size(sc), 2, 0
  {
    hide Decode, HasType, Zero, CountedOk, Entry, IsEmptyMeta, AnyChar, AllFields;
    if IsEmptyMeta(meta) {
      EmptyNeverPanics(sc, meta, d, p, t);
    } else {
      match sc
      case Ptr(e) =>
        if p < |d| {
          NeverPanics(e, d[p], d, p + 1, Zero(e));
        }
        PtrNeverPanics(e, meta, d, p, t);
      case Slice(e) =>
        CountedNeverPanics(e, d, p);
        SliceNeverPanics(e, meta, d, p, t);
      case Map(k, x) =>
        EntrySize(k, x);
        EntryChar(k, x);
        CountedNeverPanics(Entry(k, x), d, p);
        MapNeverPanics(k, x, meta, d, p, t);
      case Struct(fs) => StructNeverPanics(fs, meta, d, p, t);
      case _ => LeafNeverPanics(sc, meta, d, p, t);
    }
  }

  lemma {:induction false} CountedNeverPanics(e: Schema, d: seq<byte>, p: nat)
    requires !HasChar(e)
    ensures CountedOk(e, d, p)
    decreases Size(e), 4, 0
  {
    hide DecodeElems, ReadCount, HasChar;
    ReadsNeverPanic(false, 4, 0, d, p);
    if ReadCount(d, p).Ok? {
      ElemsNeverPanic(e, ReadCount(d, p).value.0, d, ReadCount(d, p).value.1);
    }
  }

  lemma {:induction false} StructNeverPanics(fs: seq<Field>, meta: byte, d: seq<byte>, p: nat, t: Value)
    requires HasType(Struct(fs), t) && !AnyChar(AllFields(fs)) && !IsEmptyMeta(meta)
    ensures Decode(Struct(fs), meta, d, p, t) != Err(Panic)
    decreases FieldsSize(fs), 4, 0
  {
    hide DecodeAll, ObjectBegin, ObjectEnd, AllFields, AllVals, PutVals, FieldsHave, AllHave, AnyChar, Zero;
    ScopesNeverPanic(meta, d, p, 0);
    if ObjectBegin(meta, d, p).Ok? {
      var (end, q) := ObjectBegin(meta, d, p).value;
      FieldsNeverPanic(AllFields(fs), d, q, AllVals(fs, t.vals));
      var all := DecodeAll(AllFields(fs), d, q, AllVals(fs, t.vals));
      if all.Ok? {
        ScopesNeverPanic(meta, d, all.value.1, end);
      }
    }
  }

  lemma {:induction false} ElemsNeverPanic(sc: Schema, n: nat, d: seq<byte>, p: nat)
    requires !HasChar(sc)
    ensures DecodeElems(sc, n, d, p) != Err(Panic)
    decreases Size(sc), 3, n
  {
    hide Decode, HasType, Zero, HasChar;
    if n > 0 && p < |d| {
      NeverPanics(sc, d[p], d, p + 1, Zero(sc));
      var x := Decode(sc, d[p], d, p + 1, Zero(sc));
      if x.Ok? {
        ElemsNeverPanic(sc, n - 1, d, x.value.1);
      }
    }
  }

  lemma {:induction false} FieldsNeverPanic(ts: seq<Schema>, d: seq<byte>, p: nat, us: seq<Value>)
    requires AllHave(ts, us) && !AnyChar(ts)
    ensures DecodeAll(ts, d, p, us) != Err(Panic)
    decreases SumSize(ts), 3, 0
  {
    hide Decode, HasType, HasChar;
    if ts != [] && p < |d| && d[p] != SCOPE_END {
      NeverPanics(ts[0], d[p], d, p + 1, us[0]);
      var x := Decode(ts[0], d[p], d, p + 1, us[0]);
      if x.Ok? {
        FieldsNeverPanic(ts[1..], d, x.value.1, us[1..]);
      }
    }
  }

  // ---- these do, on some input ----

  const SKIPPED: byte := 0x42

  /** An item that makes the decoder panic: everything before a one-byte integer is skipped, and that carries the
      tag of the other signedness. */
  function PanicItem(sc: Schema): (s: seq<byte>)
    requires HasChar(sc)
    ensures s != [] && s[0] != SCOPE_END
    decreases Size(sc), 1
  {
    match sc
    case Char(signed) => [if signed then 0x04 else 0x03, 0]
    case Ptr(e) => [0x01] + PanicItem(e)
    case Slice(e) => [if e.Ptr? then 0x08 else 0x80, 1] + PanicItem(e)
    case Map(k, x) =>
      EntrySize(k, x);
      EntryChar(k, x);
      [0x80, 1] + PanicItem(Entry(k, x))
    case Struct(fs) => [0x01] + PanicFields(AllFields(fs))
  }

  function PanicFields(ts: seq<Schema>): (s: seq<byte>)
    requires AnyChar(ts)
    ensures s != []
    decreases SumSize(ts), 2
  {
    if HasChar(ts[0]) then PanicItem(ts[0]) else [SKIPPED] + PanicFields(ts[1..])
  }

  lemma CountOne(d: seq<byte>, p: nat)
    requires p < |d| && d[p] == 1
    ensures ReadCount(d, p) == Ok((1, p + 1))
  {
    assert Count(1) == Groups(1, 0) == [1];
    assert At(d, p, Count(1));
    CountAt(1, d, p);
  }

  lemma ItemShape(sc: Schema, t: Value)
    requires HasChar(sc)
    ensures match sc
            case Char(signed) => PanicItem(sc) == [if signed then 0x04 else 0x03, 0]
            case Ptr(e) => HasChar(e) && PanicItem(sc) == [0x01] + PanicItem(e)
            case Slice(e) => HasChar(e) && PanicItem(sc) == [if e.Ptr? then 0x08 else 0x80, 1] + PanicItem(e)
            case Map(k, x) => HasChar(Entry(k, x)) && PanicItem(sc) == [0x80, 1] + PanicItem(Entry(k, x))
            case Struct(fs) => AnyChar(AllFields(fs)) && PanicItem(sc) == [0x01] + PanicFields(AllFields(fs))
            case _ => false
  {
    if sc.Map? {
      EntryChar(sc.key, sc.val);
    }
  }

  lemma PtrAt(e: Schema, d: seq<byte>, p: nat)
    requires HasChar(e) && At(d, p, [0x01] + PanicItem(e))
    ensures p < |d| && d[p] == 0x01 && At(d, p + 1, PanicItem(e))
  {
    hide PanicItem, HasChar;
    AtSplit(d, p, [0x01], PanicItem(e));
    AtByte(d, p, [0x01], 0);
  }

  lemma CountedAt(tag: byte, e: Schema, d: seq<byte>, p: nat)
    requires HasChar(e) && At(d, p, [tag, 1] + PanicItem(e))
    ensures p + 2 < |d| && d[p] == tag && d[p + 1] == 1 && At(d, p + 2, PanicItem(e))
  {
    hide PanicItem, HasChar;
    AtSplit(d, p, [tag, 1], PanicItem(e));
    AtByte(d, p, [tag, 1], 0);
    AtByte(d, p, [tag, 1], 1);
  }

  lemma CharPanics(sc: Schema, d: seq<byte>, p: nat, t: Value)
    requires sc.Char? && HasType(sc, t) && At(d, p, [if sc.signed then 0x04 else 0x03, 0])
    ensures p < |d| && Decode(sc, d[p], d, p + 1, t) == Err(Panic)
  {
    AtByte(d, p, [if sc.signed then 0x04 else 0x03, 0], 0);
  }

  lemma PtrPanics(e: Schema, d: seq<byte>, p: nat, t: Value)
    requires HasType(Ptr(e), t) && p < |d| && Decode(e, d[p], d, p + 1, Zero(e)) == Err(Panic)
    ensures Decode(Ptr(e), 0x01, d, p, t) == Err(Panic)
  {
    hide DecodeElems, DecodeAll, DecodeLeaf, DecodeEmpty, HasType, Zero;
  }

  lemma OneElemPanics(e: Schema, d: seq<byte>, p: nat)
    requires p < |d| && Decode(e, d[p], d, p + 1, Zero(e)) == Err(Panic)
    ensures DecodeElems(e, 1, d, p) == Err(Panic)
  {
    hide Decode, HasType, Zero;
  }

  lemma SlicePanics(e: Schema, d: seq<byte>, p: nat, t: Value)
    requires HasChar(e) && HasType(Slice(e), t) && p + 2 < |d|
    requires d[p] == (if e.Ptr? then 0x08 else 0x80) && d[p + 1] == 1
    requires Decode(e, d[p + 2], d, p + 3, Zero(e)) == Err(Panic)
    ensures Decode(Slice(e), d[p], d, p + 1, t) == Err(Panic)
  {
    hide DecodeElems, ReadCount, HasType, Zero;
    CountOne(d, p + 1);
    OneElemPanics(e, d, p + 2);
  }

  lemma MapPanics(k: Schema, x: Schema, d: seq<byte>, p: nat, t: Value)
    requires HasType(Map(k, x), t) && p + 2 < |d| && d[p] == 0x80 && d[p + 1] == 1
    requires Decode(Entry(k, x), d[p + 2], d, p + 3, Zero(Entry(k, x))) == Err(Panic)
    ensures Decode(Map(k, x), d[p], d, p + 1, t) == Err(Panic)
  {
    hide DecodeElems, ReadCount, HasType, Zero, Entry;
    CountOne(d, p + 1);
    OneElemPanics(Entry(k, x), d, p + 2);
  }

  lemma StructPanics(fs: seq<Field>, d: seq<byte>, p: nat, t: Value)
    requires HasType(Struct(fs), t) && p < |d| && d[p] == 0x01
    requires t.VStruct? && FieldsHave(fs, t.vals) && AllHave(AllFields(fs), AllVals(fs, t.vals))
    requires DecodeAll(AllFields(fs), d, p + 1, AllVals(fs, t.vals)) == Err(Panic)
    ensures Decode(Struct(fs), d[p], d, p + 1, t) == Err(Panic)
  {
    hide DecodeAll, AllFields, AllVals, FieldsHave, AllHave, HasType;
  }

  lemma SkippedDecodes(sc: Schema, d: seq<byte>, p: nat, u: Value)
    requires HasType(sc, u)
    ensures Decode(sc, SKIPPED, d, p, u).Ok? && Decode(sc, SKIPPED, d, p, u).value.1 == p
  {
    hide Decode, HasType, Zero;
    EmptyDecodes(sc, SKIPPED, d, p, u);
  }

  lemma {:induction false} ItemPanics(sc: Schema, d: seq<byte>, p: nat, t: Value)
    requires HasChar(sc) && HasType(sc, t) && At(d, p, PanicItem(sc))
    ensures p < |d| && Decode(sc, d[p], d, p + 1, t) == Err(Panic)
    decreases Size(sc), 1, 0
  {
    hide Decode, PanicItem, HasType, At, Zero;
    ItemShape(sc, t);
    match sc
    case Char(_) => CharPanics(sc, d, p, t);
    case Ptr(e) =>
      PtrAt(e, d, p);
      ItemPanics(e, d, p + 1, Zero(e));
      PtrPanics(e, d, p + 1, t);
    case Slice(e) =>
      CountedAt(if e.Ptr? then 0x08 else 0x80, e, d, p);
      ItemPanics(e, d, p + 2, Zero(e));
      SlicePanics(e, d, p, t);
    case Map(k, x) =>
      EntrySize(k, x);
      CountedAt(0x80, Entry(k, x), d, p);
      ItemPanics(Entry(k, x), d, p + 2, Zero(Entry(k, x)));
      MapPanics(k, x, d, p, t);
    case Struct(fs) => StructItemPanics(fs, d, p, t);
  }

  lemma {:induction false} StructItemPanics(fs: seq<Field>, d: seq<byte>, p: nat, t: Value)
    requires AnyChar(AllFields(fs)) && HasType(Struct(fs), t) && At(d, p, [0x01] + PanicFields(AllFields(fs)))
    ensures p < |d| && Decode(Struct(fs), d[p], d, p + 1, t) == Err(Panic)
    decreases FieldsSize(fs), 4, 0
  {
    hide Decode, PanicFields, AnyChar, HasType, AllFields, AllVals, AllHave, FieldsHave;
    AtSplit(d, p, [0x01], PanicFields(AllFields(fs)));
    AtByte(d, p, [0x01], 0);
    StructTyped(fs, t);
    FieldsPanic(AllFields(fs), d, p + 1, AllVals(fs, t.vals));
    StructPanics(fs, d, p, t);
  }

  lemma {:induction false} FieldsPanic(ts: seq<Schema>, d: seq<byte>, p: nat, us: seq<Value>)
    requires AnyChar(ts) && AllHave(ts, us) && At(d, p, PanicFields(ts))
    ensures DecodeAll(ts, d, p, us) == Err(Panic)
    decreases SumSize(ts), 2, 0
  {
    hide Decode, PanicItem, HasType;
    if HasChar(ts[0]) {
      AtByte(d, p, PanicItem(ts[0]), 0);
      ItemPanics(ts[0], d, p, us[0]);
    } else {
      AtSplit(d, p, [SKIPPED], PanicFields(ts[1..]));
      AtByte(d, p, [SKIPPED], 0);
      SkippedDecodes(ts[0], d, p + 1, us[0]);
      FieldsPanic(ts[1..], d, p + 1, us[1..]);
    }
  }

  lemma UnmarshalNeverPanics(sc: Schema, d: seq<byte>, t: Value)
    requires HasType(sc, t) && !HasChar(sc)
    ensures Unmarshal(sc, d, t) != Err(Panic)
  {
    hide Decode, HasType, HasChar;
    if d != [] {
      NeverPanics(sc, d[0], d, 1, t);
    }
  }

  /** The types some input makes Unmarshal panic on are those with a one-byte integer at some depth. */
  lemma UnmarshalPanicsExactly(sc: Schema)
    ensures HasChar(sc) <==>
            exists d: seq<byte>, t: Value {:trigger Unmarshal(sc, d, t)} ::
              HasType(sc, t) && Unmarshal(sc, d, t) == Err(Panic)
  {
    hide Decode, HasType, Zero, HasChar, PanicItem;
    if HasChar(sc) {
      var d := PanicItem(sc);
      ItemPanics(sc, d, 0, Zero(sc));
      assert Unmarshal(sc, d, Zero(sc)) == Err(Panic);
    } else {
      forall d: seq<byte>, t: Value | HasType(sc, t) ensures Unmarshal(sc, d, t) != Err(Panic) {
        UnmarshalNeverPanics(sc, d, t);
      }
    }
  }

  // ---- messages ----

  predicate CharFree(acts: Activators) {
    forall k {:trigger acts[k]} :: k in acts && StructKind(acts[k]) ==> !HasChar(acts[k])
  }

  lemma IdTyped(id: MessageId)
    requires IsGuid(id.guid)
    ensures HasType(IdType(), IdValue(id))
  {
    TwoHaveType(Guid, Num(false, 4), IdValue(id));
  }

  lemma TypesCharFree()
    ensures !HasChar(IdType()) && !HasChar(ActorType()) && !HasChar(ActionType())
    ensures !HasChar(FlagType()) && !HasChar(FaultType()) && !HasChar(RetryType())
  {
    EntryChar(Guid, Num(false, 4));
    OneChar(Num(true, 8));
    OneChar(Str);
    OneChar(Bool);
    EntryChar(Num(true, 8), Bool);
    OneChar(Num(true, 4));
  }

  lemma FixedNeverPanic(b: seq<byte>, prior: MessageId)
    requires IsGuid(prior.guid)
    ensures ParseId(b, prior) != Err(Panic) && ParseActor(b) != Err(Panic) && ParseAction(b) != Err(Panic)
    ensures ParseFlag(b) != Err(Panic) && ParseFault(b) != Err(Panic) && ParseRetry(b) != Err(Panic)
  {
    hide Unmarshal, Zero, HasChar, HasType;
    IdTyped(prior);
    TypesCharFree();
    UnmarshalNeverPanics(IdType(), b, IdValue(prior));
    UnmarshalNeverPanics(ActorType(), b, Zero(ActorType()));
    UnmarshalNeverPanics(ActionType(), b, Zero(ActionType()));
    UnmarshalNeverPanics(FlagType(), b, Zero(FlagType()));
    UnmarshalNeverPanics(FaultType(), b, Zero(FaultType()));
    UnmarshalNeverPanics(RetryType(), b, Zero(RetryType()));
  }

  lemma ApplyNeverPanics(acts: Activators, h: Headers, r: Record)
    requires ValidHeaders(h) && CharFree(acts)
    ensures Apply(acts, h, r) != Err(Panic)
  {
    hide ParseId, ParseActor, ParseAction, ParseFlag, ParseFault, ParseRetry, Unmarshal, HasChar, HasType, Zero;
    FixedNeverPanic(r.body, h.id);
    FixedNeverPanic(r.body, h.relatesTo);
    if r.id in acts && StructKind(acts[r.id]) {
      UnmarshalNeverPanics(acts[r.id], r.body, Zero(acts[r.id]));
    }
  }

  lemma {:induction false} ParseNeverPanics(acts: Activators, h: Headers, s: seq<byte>)
    requires ValidHeaders(h) && CharFree(acts)
    ensures ParseFrom(acts, h, s) != Err(Panic)
    decreases |s|
  {
    hide Apply, ValidHeaders, CharFree, FromLE;
    var next := NextRecord(s);
    if next.Ok? {
      ApplyNeverPanics(acts, h, next.value.0);
      if Apply(acts, h, next.value.0).Ok? {
        ParseNeverPanics(acts, Apply(acts, h, next.value.0).value, next.value.1);
      }
    }
  }

  /** Reading a message panics exactly when its header length exceeds its frame, as long as no type registered for
      custom headers has a one-byte integer. */
  lemma MessagePanicsExactly(crc: Checksums, acts: Activators, rc: ReadConfig, s: seq<byte>)
    requires CharFree(acts)
    ensures NextMessage(crc, acts, rc, s) == Err(Panic) <==>
            NextFrame(crc, rc, s).Ok? && NextFrame(crc, rc, s).value.0.headerLength > |NextFrame(crc, rc, s).value.1|
  {
    hide ParseFrom, CharFree, HeaderBytes, HeaderFrom, BodyLength;
    if NextFrame(crc, rc, s).Ok? {
      var (f, frame, _) := NextFrame(crc, rc, s).value;
      if f.headerLength <= |frame| {
        ParseNeverPanics(acts, NO_HEADERS, frame[..f.headerLength]);
      }
    }
  }

  /** ... and a registered type with one, if the item fits a header, allows a header block that panics. */
  lemma RegisteredTypePanics(acts: Activators, k: HeaderId)
    requires k in acts && StructKind(acts[k]) && HasChar(acts[k]) && !Reserved(k) && !Dropped(k)
    requires |PanicItem(acts[k])| < 0x1_0000
    ensures Parse(acts, Block([Record(k, PanicItem(acts[k]))])) == Err(Panic)
  {
    hide ApplyAll, Decode, PanicItem, HasChar, HasType, Zero, Block;
    var r := Record(k, PanicItem(acts[k]));
    ParseStart(acts, [r]);
    OneRecord(acts, NO_HEADERS, r);
    ItemPanics(acts[k], r.body, 0, Zero(acts[k]));
  }

  // ---- node names ----

  /** Generating a node id panics exactly when the name has no separator; there is no other error. */
  lemma GeneratorPanicsExactly(v: seq<Rune>)
    ensures NodeIdFromV4(v) == Err(Panic) <==> forall k :: 0 <= k < |v| ==> v[k] != 46 && v[k] != 95
    ensures NodeIdFromV4(v).Err? ==> NodeIdFromV4(v) == Err(Panic)
  {
    hide ParseUint, HashedId, Spread, Offset;
  }
}
