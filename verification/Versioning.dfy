/** What the evolution theorem means for whole messages: round trips, shared fields, embedding. */
module Versioning {
  import opened Bytes
  import opened Schema
  import opened Codec
  import opened Evolution

  /** Types the encoder has a case for at every level. */
  predicate Supported(sc: Schema)
    decreases Size(sc), 0
  {
    match sc
    case Ptr(e) => Supported(e)
    case Slice(e) => Supported(e) && !e.Slice? && !e.Map?
    case Map(k, x) => Supported(k) && Supported(x)
    case Struct(fs) => AllSupported(AllFields(fs))
    case Other => false
    case _ => true
  }

  predicate AllSupported(ts: seq<Schema>)
    decreases SumSize(ts), 1
  {
    ts == [] || (Supported(ts[0]) && AllSupported(ts[1..]))
  }

  /** `e` is the encoding of `v`, short enough for its sizes to fit. */
  predicate EncodesTo(sc: Schema, v: Value, e: seq<byte>)
    requires HasType(sc, v)
  {
    Encode(sc, v) == Ok(e) && |e| < 0x1_0000_0000
  }

  /** `e`, followed by `rest`, unmarshals into `t` to what converting `v` gives ... */
  predicate Unmarshals(w: Schema, r: Schema, v: Value, t: Value, e: seq<byte>, rest: seq<byte>)
    requires Compat(w, r) && HasType(w, v) && HasType(r, t)
  {
    Unmarshal(r, e + rest, t) == Ok(Convert(w, r, v, t))
  }

  /** ... and the cursor stops right after it. */
  predicate DecodesExactly(w: Schema, r: Schema, v: Value, t: Value, e: seq<byte>, rest: seq<byte>)
    requires Compat(w, r) && HasType(w, v) && HasType(r, t)
  {
    e != [] && Decode(r, e[0], e + rest, 1, t) == Ok((Convert(w, r, v, t), |e|))
  }

  /** A message written as `w` and read as `r` gives the converted value, whatever follows it, and the cursor
      stops exactly where the message ends. */
  lemma CursorExact(w: Schema, r: Schema, v: Value, t: Value, e: seq<byte>, rest: seq<byte>)
    requires Compat(w, r) && HasType(w, v) && HasType(r, t) && EncodesTo(w, v, e)
    ensures DecodesExactly(w, r, v, t, e, rest)
  {
    hide Encode, Decode, Convert, Compat, HasType;
    var d := e + rest;
    assert d[0..|e|] == e;
    EncodeNonEmpty(w, v);
    Evolve(w, r, v, t, d, 0);
  }

  /** In particular a whole message written as `w` and unmarshalled as `r` gives the converted value. */
  lemma SchemaEvolution(w: Schema, r: Schema, v: Value, t: Value, e: seq<byte>, rest: seq<byte>)
    requires Compat(w, r) && HasType(w, v) && HasType(r, t) && EncodesTo(w, v, e)
    ensures Unmarshals(w, r, v, t, e, rest)
  {
    hide Encode, Decode, Convert, Compat, HasType, EncodesTo;
    CursorExact(w, r, v, t, e, rest);
  }

  lemma {:induction false} AllHaveAt(ts: seq<Schema>, vs: seq<Value>, i: nat)
    requires AllHave(ts, vs) && i < |ts|
    ensures HasType(ts[i], vs[i])
  {
    hide HasType;
    if i > 0 {
      AllHaveAt(ts[1..], vs[1..], i - 1);
    }
  }

  /** The fields a reader ends up with: converted where the writer had them, the target's own after that. */
  lemma {:induction false} SharedFields(ws: seq<Schema>, rs: seq<Schema>, vs: seq<Value>, ts: seq<Value>, i: nat)
    requires CompatAll(ws, rs) && AllHave(ws, vs) && AllHave(rs, ts) && i < |rs|
    ensures |ConvertAll(ws, rs, vs, ts)| == |rs| && |ws| == |vs| && |rs| == |ts|
    ensures HasType(rs[i], ts[i])
    ensures i < |ws| ==> Compat(ws[i], rs[i]) && HasType(ws[i], vs[i])
    ensures ConvertAll(ws, rs, vs, ts)[i] == if i < |ws| then Convert(ws[i], rs[i], vs[i], ts[i]) else ts[i]
  {
    hide Convert, Compat, HasType;
    if ws == [] {
      AllHaveAt(rs, ts, i);
    } else if i > 0 {
      SharedFields(ws[1..], rs[1..], vs[1..], ts[1..], i - 1);
    }
  }

  /** A struct read by a differing reader: its reachable fields are exactly the ones SharedFields lists. */
  lemma StructFields(fs: seq<Field>, gs: seq<Field>, v: Value, t: Value)
    requires Compat(Struct(fs), Struct(gs)) && HasType(Struct(fs), v) && HasType(Struct(gs), t)
    ensures var c := Convert(Struct(fs), Struct(gs), v, t);
            && CompatAll(AllFields(fs), AllFields(gs)) && FieldsHave(fs, v.vals) && FieldsHave(gs, t.vals)
            && c.VStruct? && FieldsHave(gs, c.vals)
            && AllVals(gs, c.vals) == ConvertAll(AllFields(fs), AllFields(gs), AllVals(fs, v.vals), AllVals(gs, t.vals))
  {
    hide AllFields, AllVals, PutVals, CompatAll, ConvertAll, FieldsHave, AllHave, Convert;
    StructConverts(fs, gs, v, t);
    PutGet(gs, t.vals, ConvertAll(AllFields(fs), AllFields(gs), AllVals(fs, v.vals), AllVals(gs, t.vals)));
  }

  // ---- the same type on both sides ----

  lemma {:induction false} SelfCompat(sc: Schema)
    requires Supported(sc)
    ensures Compat(sc, sc)
    decreases Size(sc), 0
  {
    match sc
    case Ptr(e) => SelfCompat(e);
    case Slice(e) => SelfCompat(e);
    case Map(k, x) => SelfCompat(k); SelfCompat(x);
    case Struct(fs) => SelfCompatAll(AllFields(fs));
    case _ =>
  }

  lemma {:induction false} SelfCompatAll(ts: seq<Schema>)
    requires AllSupported(ts)
    ensures CompatAll(ts, ts)
    decreases SumSize(ts), 1
  {
    if ts != [] {
      SelfCompat(ts[0]);
      SelfCompatAll(ts[1..]);
    }
  }

  /** Read with the writer's own type, a value arrives unchanged whatever the target held. */
  lemma {:induction false} SameConvert(sc: Schema, v: Value, t: Value)
    requires Compat(sc, sc) && HasType(sc, v) && HasType(sc, t)
    ensures Convert(sc, sc, v, t) == v
    decreases Size(sc), 0, 0
  {
    match sc
    case Ptr(e) => if v.VRef? { SameConvert(e, v.target, Zero(e)); }
    case Slice(e) => SameConvertElems(e, v.elems);
    case Map(k, x) => SameConvertMap(k, x, v.entries);
    case Struct(fs) =>
      StructConverts(fs, fs, v, t);
      SameConvertAll(AllFields(fs), AllVals(fs, v.vals), AllVals(fs, t.vals));
      PutSame(fs, t.vals, v.vals);
    case _ =>
  }

  lemma {:induction false} SameConvertMap(k: Schema, x: Schema, es: seq<Value>)
    requires Compat(k, k) && Compat(x, x) && HasType(Map(k, x), VMap(es))
    ensures Entries(k, x, es) && ConvertMap(k, x, k, x, es) == VMap(es)
    decreases 1 + Size(k) + Size(x), 2, 0
  {
    hide Compat, Convert, ConvertElems, Entry, DistinctKeys;
    MapHasType(k, x, es);
    EntrySize(k, x);
    EntriesHaveType(k, x, es);
    EntryCompat(k, x, k, x);
    SameConvertElems(Entry(k, x), es);
    assert [] + es == es;
    SetAllDistinct([], es);
  }

  lemma {:induction false} SameConvertElems(sc: Schema, vs: seq<Value>)
    requires Compat(sc, sc) && ElemsHave(sc, vs)
    ensures ConvertElems(sc, sc, vs) == vs
    decreases Size(sc), 1, |vs|
  {
    hide Convert, Compat, HasType, Zero;
    if vs != [] {
      SameConvert(sc, vs[0], Zero(sc));
      SameConvertElems(sc, vs[1..]);
    }
  }

  lemma {:induction false} SameConvertAll(ts: seq<Schema>, vs: seq<Value>, us: seq<Value>)
    requires CompatAll(ts, ts) && AllHave(ts, vs) && AllHave(ts, us)
    ensures ConvertAll(ts, ts, vs, us) == vs
    decreases SumSize(ts), 1, 0
  {
    hide Convert, Compat, HasType;
    if ts != [] {
      SameConvert(ts[0], vs[0], us[0]);
      SameConvertAll(ts[1..], vs[1..], us[1..]);
    }
  }

  lemma EntrySupported(k: Schema, x: Schema)
    requires Supported(k) && Supported(x)
    ensures Supported(Entry(k, x))
  {
    EntryFields(k, x);
    assert [k, x][1..] == [x] && [x][1..] == [];
    assert AllSupported([x]) && AllSupported([k, x]);
  }

  /** Every value of a supported type is encoded. */
  lemma {:induction false} SupportedEncodes(sc: Schema, v: Value)
    requires Supported(sc) && HasType(sc, v)
    ensures Encode(sc, v).Ok?
    decreases Size(sc), 0, 1
  {
    match sc
    case Ptr(e) => if v.VRef? { SupportedEncodes(e, v.target); }
    case Slice(e) => SupportedElems(e, v.elems);
    case Map(k, x) => SupportedEntries(sc, v);
    case Struct(fs) => SupportedAll(AllFields(fs), AllVals(fs, v.vals));
    case _ =>
  }

  lemma {:induction false} SupportedEntries(sc: Schema, v: Value)
    requires sc.Map? && Supported(sc) && HasType(sc, v)
    ensures v.VMap? && ElemsHave(Entry(sc.key, sc.val), v.entries)
    ensures EncodeElems(Entry(sc.key, sc.val), v.entries).Ok?
    decreases Size(sc), 0, 0
  {
    hide Encode, EncodeElems, Entry;
    var Map(k, x) := sc;
    EntrySize(k, x);
    EntriesHaveType(k, x, v.entries);
    EntrySupported(k, x);
    SupportedElems(Entry(k, x), v.entries);
  }

  lemma {:induction false} SupportedElems(sc: Schema, vs: seq<Value>)
    requires Supported(sc) && ElemsHave(sc, vs)
    ensures EncodeElems(sc, vs).Ok?
    decreases Size(sc), 1, |vs|
  {
    hide Encode, HasType, Supported;
    if vs != [] {
      SupportedEncodes(sc, vs[0]);
      SupportedElems(sc, vs[1..]);
    }
  }

  lemma {:induction false} SupportedAll(ts: seq<Schema>, vs: seq<Value>)
    requires AllSupported(ts) && AllHave(ts, vs)
    ensures EncodeAll(ts, vs).Ok?
    decreases SumSize(ts), 1, 0
  {
    hide Encode, HasType, Supported;
    if ts != [] {
      SupportedEncodes(ts[0], vs[0]);
      SupportedAll(ts[1..], vs[1..]);
    }
  }

  /** Marshal followed by Unmarshal is the identity on every value of a supported type. */
  lemma RoundTrip(sc: Schema, v: Value, t: Value, rest: seq<byte>) returns (e: seq<byte>)
    requires Supported(sc) && HasType(sc, v) && HasType(sc, t)
    ensures Encode(sc, v) == Ok(e)
    ensures |e| < 0x1_0000_0000 ==> Unmarshal(sc, e + rest, t) == Ok(v)
  {
    hide Encode, Convert, Compat, HasType, Supported, Unmarshal;
    SupportedEncodes(sc, v);
    SelfCompat(sc);
    e := Encode(sc, v).value;
    if |e| < 0x1_0000_0000 {
      SchemaEvolution(sc, sc, v, t, e, rest);
      SameConvert(sc, v, t);
    }
  }

  lemma ReadsBack(sc: Schema, v: Value, e: seq<byte>, x: seq<byte>, d: seq<byte>)
    requires Supported(sc) && HasType(sc, v) && EncodesTo(sc, v, e) && d == e + x
    ensures d != [] && Decode(sc, d[0], d, 1, Zero(sc)) == Ok((v, |e|))
  {
    hide Decode, Convert, Compat, HasType, Supported, EncodesTo, Zero;
    SelfCompat(sc);
    CursorExact(sc, sc, v, Zero(sc), e, x);
    SameConvert(sc, v, Zero(sc));
  }

  /** The code is uniquely decodable: no encoding is a prefix of another of the same type, so what follows a
      message never changes which message it is. */
  lemma UniquelyDecodable(sc: Schema, v: Value, v': Value, e: seq<byte>, e': seq<byte>, x: seq<byte>, x': seq<byte>)
    requires Supported(sc) && HasType(sc, v) && HasType(sc, v') && EncodesTo(sc, v, e) && EncodesTo(sc, v', e')
    requires e + x == e' + x'
    ensures v == v' && x == x'
  {
    hide Decode, HasType, Supported, EncodesTo, Zero;
    var d := e + x;
    ReadsBack(sc, v, e, x, d);
    ReadsBack(sc, v', e', x', d);
    assert x == d[|e|..] && x' == d[|e'|..];
  }

  // ---- embedding ----

  function PlainAll(ts: seq<Schema>): seq<Field> {
    if ts == [] then [] else [Plain(ts[0])] + PlainAll(ts[1..])
  }

  lemma {:induction false} PlainFields(ts: seq<Schema>)
    ensures AllFields(PlainAll(ts)) == ts
  {
    if ts != [] {
      PlainFields(ts[1..]);
      assert PlainAll(ts)[1..] == PlainAll(ts[1..]);
    }
  }

  lemma {:induction false} PlainVals(ts: seq<Schema>, vs: seq<Value>)
    requires AllHave(ts, vs)
    ensures FieldsHave(PlainAll(ts), vs) && AllVals(PlainAll(ts), vs) == vs
  {
    hide HasType;
    if ts != [] {
      PlainVals(ts[1..], vs[1..]);
      assert PlainAll(ts)[1..] == PlainAll(ts[1..]);
    }
  }

  /** Embedding is invisible on the wire: a struct with structs embedded to any depth is encoded exactly like
      the struct with their fields written inline. */
  lemma EmbeddingInvisible(fs: seq<Field>, v: Value)
    requires HasType(Struct(fs), v)
    ensures var flat := VStruct(AllVals(fs, v.vals));
            && HasType(Struct(PlainAll(AllFields(fs))), flat)
            && Encode(Struct(PlainAll(AllFields(fs))), flat) == Encode(Struct(fs), v)
  {
    hide AllFields, AllVals, PlainAll, AllHave, FieldsHave, EncodeAll, Object;
    PlainFields(AllFields(fs));
    PlainVals(AllFields(fs), AllVals(fs, v.vals));
  }

  function ZeroAll(ts: seq<Schema>): seq<Value> {
    if ts == [] then [] else [Zero(ts[0])] + ZeroAll(ts[1..])
  }

  lemma ZeroFirst(t: Schema, rest: seq<Schema>)
    ensures ZeroAll([t] + rest) == [Zero(t)] + ZeroAll(rest)
  {
    hide Zero;
    assert ([t] + rest)[1..] == rest;
  }

  lemma {:induction false} ZeroAllConcat(a: seq<Schema>, b: seq<Schema>)
    ensures ZeroAll(a + b) == ZeroAll(a) + ZeroAll(b)
  {
    if a == [] {
      assert a + b == b;
    } else {
      hide Zero, ZeroAll;
      var t, rest := a[0], a[1..];
      ZeroAllConcat(rest, b);
      ZeroFirst(t, rest + b);
      ZeroFirst(t, rest);
      assert a == [t] + rest && a + b == [t] + (rest + b);
      Assoc([Zero(t)], ZeroAll(rest), ZeroAll(b));
    }
  }

  lemma {:induction false} ZeroPlain(ts: seq<Schema>)
    ensures ZeroFields(PlainAll(ts)) == ZeroAll(ts)
  {
    if ts != [] {
      ZeroPlain(ts[1..]);
      assert PlainAll(ts)[1..] == PlainAll(ts[1..]);
    }
  }

  lemma {:induction false} ZeroVals(fs: seq<Field>)
    ensures AllHave(AllFields(fs), AllVals(fs, ZeroFields(fs)))
    ensures AllVals(fs, ZeroFields(fs)) == ZeroAll(AllFields(fs)) == ZeroFields(PlainAll(AllFields(fs)))
    decreases fs
  {
    if fs != [] {
      ZeroVals(fs[1..]);
      assert ZeroFields(fs)[1..] == ZeroFields(fs[1..]);
      if fs[0].Embedded? {
        ZeroVals(fs[0].fields);
      }
      ZeroAllConcat(FieldTypes(fs[0]), AllFields(fs[1..]));
    }
    ZeroPlain(AllFields(fs));
  }

  /** ... and decoding any input into either gives the same fields, fails alike and moves the cursor alike. */
  lemma EmbeddingInvisibleToReader(fs: seq<Field>, meta: byte, d: seq<byte>, p: nat, t: Value)
    requires HasType(Struct(fs), t)
    ensures var flat := VStruct(AllVals(fs, t.vals));
            HasType(Struct(PlainAll(AllFields(fs))), flat) &&
            match (Decode(Struct(fs), meta, d, p, t), Decode(Struct(PlainAll(AllFields(fs))), meta, d, p, flat))
            case (Ok((a, q)), Ok((b, z))) =>
              q == z && a.VStruct? && FieldsHave(fs, a.vals) && b == VStruct(AllVals(fs, a.vals))
            case (Err(e), Err(f)) => e == f
            case _ => false
  {
    hide AllFields, AllVals, PlainAll, AllHave, FieldsHave, DecodeAll, ObjectBegin, ObjectEnd, PutVals, ZeroFields;
    var ts, us := AllFields(fs), AllVals(fs, t.vals);
    PlainFields(ts);
    PlainVals(ts, us);
    if IsEmptyMeta(meta) {
      ZeroVals(fs);
    } else {
      var begin := ObjectBegin(meta, d, p);
      if begin.Ok? {
        var all := DecodeAll(ts, d, begin.value.1, us);
        if all.Ok? {
          PutGet(fs, t.vals, all.value.0);
          PlainVals(ts, all.value.0);
          PutSame(PlainAll(ts), us, all.value.0);
        }
      }
    }
  }

  lemma DerivedFields(base: seq<Field>, more: seq<Field>, b: Value, vs: seq<Value>)
    requires HasType(Struct(base), b) && FieldsHave(more, vs)
    ensures var fs := [Embedded(base)] + more;
            && FieldsHave(fs, [b] + vs)
            && AllFields(fs) == AllFields(base) + AllFields(more)
            && AllVals(fs, [b] + vs) == AllVals(base, b.vals) + AllVals(more, vs)
  {
    var fs := [Embedded(base)] + more;
    assert fs[1..] == more && ([b] + vs)[1..] == vs;
  }

  lemma {:induction false} PrefixCompat(ts: seq<Schema>, us: seq<Schema>)
    requires CompatAll(ts, ts)
    ensures CompatAll(ts + us, ts)
  {
    hide Compat;
    if ts != [] {
      PrefixCompat(ts[1..], us);
      assert (ts + us)[1..] == ts[1..] + us;
    }
  }

  lemma {:induction false} PrefixConvert(ts: seq<Schema>, us: seq<Schema>, vs: seq<Value>, ws: seq<Value>,
                                         xs: seq<Value>)
    requires CompatAll(ts, ts) && CompatAll(ts + us, ts)
    requires AllHave(ts, vs) && AllHave(us, ws) && AllHave(ts, xs) && AllHave(ts + us, vs + ws)
    ensures ConvertAll(ts + us, ts, vs + ws, xs) == ConvertAll(ts, ts, vs, xs)
  {
    hide Convert, Compat, HasType;
    if ts != [] {
      assert (ts + us)[1..] == ts[1..] + us && (vs + ws)[1..] == vs[1..] + ws;
      PrefixConvert(ts[1..], us, vs[1..], ws, xs[1..]);
    }
  }

  /** A reader of an embedded base recovers the base of any derived value. */
  lemma BaseReadsDerived(base: seq<Field>, more: seq<Field>, b: Value, vs: seq<Value>, t: Value, rest: seq<byte>)
    requires Supported(Struct(base)) && HasType(Struct(base), b) && HasType(Struct(base), t)
    requires FieldsHave(more, vs)
    ensures var derived := Struct([Embedded(base)] + more);
            var v := VStruct([b] + vs);
            && HasType(derived, v)
            && (Encode(derived, v).Ok? && |Encode(derived, v).value| < 0x1_0000_0000 ==>
                  Unmarshal(Struct(base), Encode(derived, v).value + rest, t) == Ok(b))
  {
    hide Encode, Unmarshal, Decode, FieldsHave, AllHave, PutVals;
    var fs := [Embedded(base)] + more;
    var derived, v := Struct(fs), VStruct([b] + vs);
    DerivedFields(base, more, b, vs);
    SelfCompat(Struct(base));
    PrefixCompat(AllFields(base), AllFields(more));
    if Encode(derived, v).Ok? && |Encode(derived, v).value| < 0x1_0000_0000 {
      SchemaEvolution(derived, Struct(base), v, t, Encode(derived, v).value, rest);
      StructConverts(fs, base, v, t);
      StructConverts(base, base, b, t);
      PrefixConvert(AllFields(base), AllFields(more), AllVals(base, b.vals), AllVals(more, vs), AllVals(base, t.vals));
      SameConvert(Struct(base), b, t);
    }
  }
}
