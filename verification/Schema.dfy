/** The types the codec works on, their values, and which values a type has. */
module Schema {
  import opened Bytes
  import opened Compress
  import opened Utf16

  /** A Go type as the codec sees it. `Other` is any kind the codec has no case for. */
  datatype Schema =
    | Bool
    | Char(signed: bool)                    // int8, uint8
    | Num(signed: bool, width: Width)       // int16 to uint64
    | Float                                 // float64, as a 64-bit word
    | Str
    | Ptr(elem: Schema)
    | Slice(elem: Schema)
    | Map(key: Schema, val: Schema)
    | Struct(fields: seq<Field>)
    | Guid                                  // custom marshalers
    | NodeId
    | NodeIdRange
    | Other

  /** A declared field. `Hidden` is one the codec never reaches: unexported, or an embedded non-struct. */
  datatype Field = Plain(ty: Schema) | Embedded(fields: seq<Field>) | Hidden

  datatype GuidValue = GuidValue(data1: u32, data2: u16, data3: u16, data4: seq<byte>)
  datatype Node = Node(hi: u64, lo: u64)

  /** Nil and empty slices or maps are one value. A map is the list of its entries in one enumeration order. */
  datatype Value =
    | VBool(b: bool)
    | VInt(n: int)
    | VFloat(bits: u64)
    | VStr(runes: seq<Rune>)
    | VNil
    | VRef(target: Value)
    | VSeq(elems: seq<Value>)
    | VMap(entries: seq<Value>)
    | VStruct(vals: seq<Value>)
    | VGuid(guid: GuidValue)
    | VNode(node: Node)
    | VRange(begin: Node, end: Node)
    | VOther

  const EMPTY_GUID := GuidValue(0, 0, 0, [0, 0, 0, 0, 0, 0, 0, 0])

  predicate IsGuid(g: GuidValue) { |g.data4| == 8 }

  /** The struct a map entry is written as. */
  function Entry(key: Schema, val: Schema): Schema {
    Struct([Plain(key), Plain(val)])
  }

  predicate StructKind(sc: Schema) {
    sc.Struct? || sc.Guid? || sc.NodeId? || sc.NodeIdRange?
  }

  // ---- well-typed values ----

  predicate IsEntry(e: Value) {
    e.VStruct? && |e.vals| == 2
  }

  predicate AllEntries(es: seq<Value>) {
    forall i {:trigger es[i]} :: 0 <= i < |es| ==> IsEntry(es[i])
  }

  predicate DistinctKeys(es: seq<Value>)
    requires AllEntries(es)
  {
    forall i, j :: 0 <= i < j < |es| ==> es[i].vals[0] != es[j].vals[0]
  }

  predicate HasType(sc: Schema, v: Value)
    decreases sc
  {
    match sc
    case Bool => v.VBool?
    case Char(signed) => v.VInt? && (if signed then -128 <= v.n < 128 else 0 <= v.n < 256)
    case Num(signed, w) => v.VInt? && InRange(signed, w, v.n)
    case Float => v.VFloat?
    case Str => v.VStr?
    case Ptr(e) => v.VNil? || (v.VRef? && HasType(e, v.target))
    case Slice(e) => v.VSeq? && forall i {:trigger v.elems[i]} :: 0 <= i < |v.elems| ==> HasType(e, v.elems[i])
    case Map(k, x) =>
      && v.VMap?
      && AllEntries(v.entries)
      && (forall i {:trigger v.entries[i]} :: 0 <= i < |v.entries| ==>
            HasType(k, v.entries[i].vals[0]) && HasType(x, v.entries[i].vals[1]))
      && DistinctKeys(v.entries)
    case Struct(fs) => v.VStruct? && FieldsHave(fs, v.vals)
    case Guid => v.VGuid? && IsGuid(v.guid)
    case NodeId => v.VNode?
    case NodeIdRange => v.VRange?
    case Other => v.VOther?
  }

  predicate FieldsHave(fs: seq<Field>, vs: seq<Value>)
    decreases fs
  {
    && |fs| == |vs|
    && (fs == [] || (FieldHas(fs[0], vs[0]) && FieldsHave(fs[1..], vs[1..])))
  }

  predicate FieldHas(f: Field, v: Value)
    decreases f
  {
    match f
    case Plain(ty) => HasType(ty, v)
    case Embedded(gs) => v.VStruct? && FieldsHave(gs, v.vals)
    case Hidden => v.VOther?
  }

  lemma TwoFields(k: Schema, x: Schema, vs: seq<Value>)
    requires |vs| == 2
    ensures FieldsHave([Plain(k), Plain(x)], vs) <==> HasType(k, vs[0]) && HasType(x, vs[1])
  {
    hide HasType;
    var fs := [Plain(k), Plain(x)];
    assert fs[1..] == [Plain(x)] && fs[1..][1..] == [];
    assert vs[1..][0] == vs[1] && vs[1..][1..] == [];
    assert FieldsHave(fs[1..], vs[1..]) <==> HasType(x, vs[1]);
  }

  lemma EntryHasType(k: Schema, x: Schema, e: Value)
    ensures HasType(Entry(k, x), e) <==> IsEntry(e) && HasType(k, e.vals[0]) && HasType(x, e.vals[1])
  {
    if IsEntry(e) {
      hide FieldsHave;
      TwoFields(k, x, e.vals);
    }
  }

  // ---- size, the measure every recursion over types decreases ----

  function Size(sc: Schema): (n: nat)
    ensures n > 0
    decreases sc
  {
    match sc
    case Ptr(e) => 1 + Size(e)
    case Slice(e) => 1 + Size(e)
    case Map(k, x) => 5 + Size(k) + Size(x)
    case Struct(fs) => 1 + FieldsSize(fs)
    case _ => 1
  }

  function FieldsSize(fs: seq<Field>): nat
    decreases fs
  {
    if fs == [] then 0 else FieldSize(fs[0]) + FieldsSize(fs[1..])
  }

  function FieldSize(f: Field): nat
    decreases f
  {
    match f
    case Plain(ty) => Size(ty)
    case Embedded(gs) => FieldsSize(gs)
    case Hidden => 0
  }

  function SumSize(ts: seq<Schema>): nat {
    if ts == [] then 0 else Size(ts[0]) + SumSize(ts[1..])
  }

  lemma {:induction false} SumSizeConcat(a: seq<Schema>, b: seq<Schema>)
    ensures SumSize(a + b) == SumSize(a) + SumSize(b)
  {
    if a == [] {
      assert a + b == b;
    } else {
      SumSizeConcat(a[1..], b);
      assert (a + b)[1..] == a[1..] + b;
    }
  }

  lemma EntrySize(k: Schema, x: Schema)
    ensures Size(Entry(k, x)) == 1 + Size(k) + Size(x)
  {
    var fs := [Plain(k), Plain(x)];
    assert fs[1..] == [Plain(x)] && fs[1..][1..] == [];
    assert FieldsSize(fs[1..]) == Size(x);
    assert FieldsSize(fs) == Size(k) + Size(x);
  }

  // ---- the fields the codec reaches, embedded structs flattened ----

  function AllFields(fs: seq<Field>): (ts: seq<Schema>)
    ensures SumSize(ts) == FieldsSize(fs)
    decreases fs
  {
    if fs == [] then []
    else
      SumSizeConcat(FieldTypes(fs[0]), AllFields(fs[1..]));
      FieldTypes(fs[0]) + AllFields(fs[1..])
  }

  function FieldTypes(f: Field): (ts: seq<Schema>)
    ensures SumSize(ts) == FieldSize(f)
    decreases f
  {
    match f
    case Plain(ty) => assert [ty][1..] == []; [ty]
    case Embedded(gs) => AllFields(gs)
    case Hidden => []
  }

  predicate AllHave(ts: seq<Schema>, vs: seq<Value>) {
    |ts| == |vs| && (ts == [] || (HasType(ts[0], vs[0]) && AllHave(ts[1..], vs[1..])))
  }

  lemma {:induction false} AllHaveConcat(ts: seq<Schema>, us: seq<Schema>, vs: seq<Value>, ws: seq<Value>)
    requires AllHave(ts, vs) && AllHave(us, ws)
    ensures AllHave(ts + us, vs + ws)
  {
    if ts == [] {
      assert ts + us == us && vs + ws == ws;
    } else {
      AllHaveConcat(ts[1..], us, vs[1..], ws);
      assert (ts + us)[1..] == ts[1..] + us && (vs + ws)[1..] == vs[1..] + ws;
    }
  }

  function AllVals(fs: seq<Field>, vs: seq<Value>): (r: seq<Value>)
    requires FieldsHave(fs, vs)
    ensures AllHave(AllFields(fs), r)
    decreases fs
  {
    if fs == [] then []
    else
      AllHaveConcat(FieldTypes(fs[0]), AllFields(fs[1..]), FieldVals(fs[0], vs[0]), AllVals(fs[1..], vs[1..]));
      FieldVals(fs[0], vs[0]) + AllVals(fs[1..], vs[1..])
  }

  function FieldVals(f: Field, v: Value): (r: seq<Value>)
    requires FieldHas(f, v)
    ensures AllHave(FieldTypes(f), r)
    decreases f
  {
    match f
    case Plain(ty) => assert [v][1..] == []; [v]
    case Embedded(gs) => AllVals(gs, v.vals)
    case Hidden => []
  }

  lemma HaveLength(ts: seq<Schema>, vs: seq<Value>)
    requires AllHave(ts, vs)
    ensures |ts| == |vs|
  {
  }

  lemma FieldsLength(fs: seq<Field>, vs: seq<Value>)
    requires FieldsHave(fs, vs)
    ensures |fs| == |vs|
  {
  }

  lemma NextReached(fs: seq<Field>, vs: seq<Value>, i: nat)
    requires i < |fs| == |vs| && FieldsHave(fs[i..], vs[i..])
    ensures FieldHas(fs[i], vs[i]) && FieldsHave(fs[i + 1..], vs[i + 1..])
    ensures AllFields(fs[i..]) == FieldTypes(fs[i]) + AllFields(fs[i + 1..])
    ensures AllVals(fs[i..], vs[i..]) == FieldVals(fs[i], vs[i]) + AllVals(fs[i + 1..], vs[i + 1..])
  {
    hide HasType;
    assert fs[i..][0] == fs[i] && fs[i..][1..] == fs[i + 1..] && vs[i..][1..] == vs[i + 1..];
  }

  lemma NoneReached(fs: seq<Field>, vs: seq<Value>)
    requires |fs| == |vs| && FieldsHave(fs[|fs|..], vs[|fs|..])
    ensures AllFields(fs[|fs|..]) == [] && AllVals(fs[|fs|..], vs[|fs|..]) == []
  {
  }

  /** The fields the codec reaches and their values, gathered in declaration order. */
  method CollectFields(fs: seq<Field>, vs: seq<Value>) returns (ts: seq<Schema>, us: seq<Value>)
    requires FieldsHave(fs, vs)
    ensures ts == AllFields(fs) && us == AllVals(fs, vs)
    decreases fs
  {
    hide AllFields, AllVals, FieldsHave, FieldHas, FieldTypes, FieldVals;
    ts, us := [], [];
    FieldsLength(fs, vs);
    assert fs[0..] == fs && vs[0..] == vs;
    for i := 0 to |fs|
      invariant FieldsHave(fs[i..], vs[i..])
      invariant AllFields(fs) == ts + AllFields(fs[i..])
      invariant AllVals(fs, vs) == us + AllVals(fs[i..], vs[i..])
    {
      NextReached(fs, vs, i);
      var inner, innerVals := CollectField(fs[i], vs[i]);
      Assoc(ts, inner, AllFields(fs[i + 1..]));
      Assoc(us, innerVals, AllVals(fs[i + 1..], vs[i + 1..]));
      ts, us := ts + inner, us + innerVals;
    }
    NoneReached(fs, vs);
  }

  method CollectField(f: Field, v: Value) returns (ts: seq<Schema>, us: seq<Value>)
    requires FieldHas(f, v)
    ensures ts == FieldTypes(f) && us == FieldVals(f, v)
    decreases f
  {
    match f
    case Plain(ty) => ts, us := [ty], [v];
    case Embedded(gs) => ts, us := CollectFields(gs, v.vals);
    case Hidden => ts, us := [], [];
  }

  /** The declared fields `vs` with `flat` stored into the fields the codec reaches. */
  function PutVals(fs: seq<Field>, vs: seq<Value>, flat: seq<Value>): (r: seq<Value>)
    requires FieldsHave(fs, vs) && |flat| == |AllFields(fs)|
    decreases fs
  {
    if fs == [] then []
    else
      var n := |FieldTypes(fs[0])|;
      [PutVal(fs[0], vs[0], flat[..n])] + PutVals(fs[1..], vs[1..], flat[n..])
  }

  function PutVal(f: Field, v: Value, flat: seq<Value>): (r: Value)
    requires FieldHas(f, v) && |flat| == |FieldTypes(f)|
    decreases f
  {
    match f
    case Plain(_) => flat[0]
    case Embedded(gs) => VStruct(PutVals(gs, v.vals, flat))
    case Hidden => v
  }

  lemma {:induction false} AllHaveSplit(ts: seq<Schema>, us: seq<Schema>, vs: seq<Value>)
    requires AllHave(ts + us, vs)
    ensures AllHave(ts, vs[..|ts|]) && AllHave(us, vs[|ts|..])
  {
    if ts == [] {
      assert ts + us == us;
    } else {
      assert (ts + us)[1..] == ts[1..] + us;
      AllHaveSplit(ts[1..], us, vs[1..]);
      assert vs[..|ts|][1..] == vs[1..][..|ts| - 1];
    }
  }

  lemma ConsVals(fs: seq<Field>, x: Value, t: seq<Value>)
    requires fs != [] && FieldHas(fs[0], x) && FieldsHave(fs[1..], t)
    ensures FieldsHave(fs, [x] + t)
    ensures AllVals(fs, [x] + t) == FieldVals(fs[0], x) + AllVals(fs[1..], t)
  {
    assert ([x] + t)[1..] == t;
  }

  /** The first declared field and the others, of types, values and stored values. */
  lemma FirstDeclared(fs: seq<Field>, vs: seq<Value>)
    requires fs != [] && FieldsHave(fs, vs)
    ensures vs != [] && FieldHas(fs[0], vs[0]) && FieldsHave(fs[1..], vs[1..])
    ensures AllFields(fs) == FieldTypes(fs[0]) + AllFields(fs[1..])
    ensures AllVals(fs, vs) == FieldVals(fs[0], vs[0]) + AllVals(fs[1..], vs[1..])
  {
    hide HasType, FieldHas, FieldTypes, FieldVals;
  }

  lemma FirstStored(fs: seq<Field>, vs: seq<Value>, flat: seq<Value>)
    requires fs != [] && vs != [] && FieldsHave(fs, vs) && |flat| == |AllFields(fs)|
    requires FieldHas(fs[0], vs[0]) && FieldsHave(fs[1..], vs[1..])
    requires AllFields(fs) == FieldTypes(fs[0]) + AllFields(fs[1..])
    ensures var n := |FieldTypes(fs[0])|;
            PutVals(fs, vs, flat) == [PutVal(fs[0], vs[0], flat[..n])] + PutVals(fs[1..], vs[1..], flat[n..])
  {
    hide HasType, FieldHas, FieldTypes, FieldsHave, PutVal, AllFields;
  }

  lemma NoneDeclared(vs: seq<Value>, flat: seq<Value>)
    requires FieldsHave([], vs) && AllHave(AllFields([]), flat)
    ensures PutVals([], vs, flat) == [] && AllVals([], []) == [] && flat == [] && vs == [] && FieldsHave([], [])
  {
  }

  /** Storing well-typed values gives well-typed fields that read back as what was stored. */
  lemma {:induction false} PutGet(fs: seq<Field>, vs: seq<Value>, flat: seq<Value>)
    requires FieldsHave(fs, vs) && AllHave(AllFields(fs), flat)
    ensures FieldsHave(fs, PutVals(fs, vs, flat))
    ensures AllVals(fs, PutVals(fs, vs, flat)) == flat
    decreases fs
  {
    hide HasType, FieldHas, FieldTypes, FieldVals, FieldsHave, PutVal, PutVals, AllFields, AllVals, AllHave;
    if fs == [] {
      NoneDeclared(vs, flat);
    } else {
      var n := |FieldTypes(fs[0])|;
      FirstDeclared(fs, vs);
      AllHaveSplit(FieldTypes(fs[0]), AllFields(fs[1..]), flat);
      HaveLength(AllFields(fs), flat);
      FirstStored(fs, vs, flat);
      PutGetOne(fs[0], vs[0], flat[..n]);
      PutGet(fs[1..], vs[1..], flat[n..]);
      ConsVals(fs, PutVal(fs[0], vs[0], flat[..n]), PutVals(fs[1..], vs[1..], flat[n..]));
      assert flat == flat[..n] + flat[n..];
    }
  }

  lemma {:induction false} PutGetOne(f: Field, v: Value, flat: seq<Value>)
    requires FieldHas(f, v) && AllHave(FieldTypes(f), flat)
    ensures FieldHas(f, PutVal(f, v, flat))
    ensures FieldVals(f, PutVal(f, v, flat)) == flat
    decreases f
  {
    if f.Embedded? {
      PutGet(f.fields, v.vals, flat);
    }
  }

  /** Storing back what is there changes nothing. */
  lemma {:induction false} PutSame(fs: seq<Field>, us: seq<Value>, vs: seq<Value>)
    requires FieldsHave(fs, us) && FieldsHave(fs, vs)
    ensures |AllVals(fs, vs)| == |AllFields(fs)|
    ensures PutVals(fs, us, AllVals(fs, vs)) == vs
    decreases fs
  {
    hide HasType, FieldHas, FieldTypes, FieldVals, FieldsHave, PutVal, PutVals, AllFields, AllVals, AllHave;
    var flat := AllVals(fs, vs);
    HaveLength(AllFields(fs), flat);
    if fs == [] {
      NoneDeclared(us, flat);
      NoneDeclared(vs, flat);
    } else {
      FirstDeclared(fs, us);
      FirstDeclared(fs, vs);
      var n := |FieldTypes(fs[0])|;
      HaveLength(FieldTypes(fs[0]), FieldVals(fs[0], vs[0]));
      assert flat[..n] == FieldVals(fs[0], vs[0]) && flat[n..] == AllVals(fs[1..], vs[1..]);
      FirstStored(fs, us, flat);
      PutSameOne(fs[0], us[0], vs[0]);
      PutSame(fs[1..], us[1..], vs[1..]);
      assert vs == [vs[0]] + vs[1..];
    }
  }

  lemma {:induction false} PutSameOne(f: Field, u: Value, v: Value)
    requires FieldHas(f, u) && FieldHas(f, v)
    ensures PutVal(f, u, FieldVals(f, v)) == v
    decreases f
  {
    if f.Embedded? {
      PutSame(f.fields, u.vals, v.vals);
    }
  }

  // ---- zero values ----

  function Zero(sc: Schema): (v: Value)
    ensures HasType(sc, v)
    decreases sc
  {
    match sc
    case Bool => VBool(false)
    case Char(_) => VInt(0)
    case Num(_, _) => VInt(0)
    case Float => VFloat(0)
    case Str => VStr([])
    case Ptr(_) => VNil
    case Slice(_) => VSeq([])
    case Map(_, _) => VMap([])
    case Struct(fs) => VStruct(ZeroFields(fs))
    case Guid => VGuid(EMPTY_GUID)
    case NodeId => VNode(Node(0, 0))
    case NodeIdRange => VRange(Node(0, 0), Node(0, 0))
    case Other => VOther
  }

  function ZeroFields(fs: seq<Field>): (vs: seq<Value>)
    ensures FieldsHave(fs, vs)
    decreases fs
  {
    if fs == [] then [] else [ZeroField(fs[0])] + ZeroFields(fs[1..])
  }

  function ZeroField(f: Field): (v: Value)
    ensures FieldHas(f, v)
    decreases f
  {
    match f
    case Plain(ty) => Zero(ty)
    case Embedded(gs) => VStruct(ZeroFields(gs))
    case Hidden => VOther
  }

  // ---- maps built entry by entry ----

  /** Storing an entry in a map: a key already there gets the new value. */
  function SetIndex(m: seq<Value>, e: Value): (r: seq<Value>)
    requires IsEntry(e) && AllEntries(m)
    ensures AllEntries(r)
  {
    if m == [] then [e]
    else if m[0].vals[0] == e.vals[0] then [e] + m[1..]
    else [m[0]] + SetIndex(m[1..], e)
  }

  function SetAll(m: seq<Value>, es: seq<Value>): (r: seq<Value>)
    requires AllEntries(m)
    requires AllEntries(es)
    ensures AllEntries(r)
    decreases |es|
  {
    if es == [] then m else SetAll(SetIndex(m, es[0]), es[1..])
  }

  predicate Entries(k: Schema, x: Schema, es: seq<Value>) {
    && AllEntries(es)
    && forall i {:trigger es[i]} :: 0 <= i < |es| ==> HasType(k, es[i].vals[0]) && HasType(x, es[i].vals[1])
  }

  predicate KeyFree(m: seq<Value>, key: Value)
    requires AllEntries(m)
  {
    forall i {:trigger m[i]} :: 0 <= i < |m| ==> m[i].vals[0] != key
  }

  lemma {:induction false} SetIndexFree(m: seq<Value>, e: Value, key: Value)
    requires AllEntries(m) && IsEntry(e)
    requires KeyFree(m, key) && e.vals[0] != key
    ensures KeyFree(SetIndex(m, e), key)
  {
    if m != [] {
      SetIndexFree(m[1..], e, key);
    }
  }

  lemma {:induction false} SetIndexDistinct(m: seq<Value>, e: Value)
    requires AllEntries(m) && IsEntry(e) && DistinctKeys(m)
    ensures DistinctKeys(SetIndex(m, e))
  {
    if m != [] && m[0].vals[0] != e.vals[0] {
      SetIndexDistinct(m[1..], e);
      SetIndexFree(m[1..], e, m[0].vals[0]);
    }
  }

  lemma {:induction false} SetIndexMember(m: seq<Value>, e: Value)
    requires AllEntries(m) && IsEntry(e)
    ensures forall y :: y in SetIndex(m, e) ==> y == e || y in m
  {
    if m != [] {
      SetIndexMember(m[1..], e);
    }
  }

  lemma {:induction false} SetAllMember(m: seq<Value>, es: seq<Value>)
    requires AllEntries(m) && AllEntries(es) && DistinctKeys(m)
    ensures forall y :: y in SetAll(m, es) ==> y in m || y in es
    ensures DistinctKeys(SetAll(m, es))
    decreases |es|
  {
    if es != [] {
      SetIndexDistinct(m, es[0]);
      SetIndexMember(m, es[0]);
      SetAllMember(SetIndex(m, es[0]), es[1..]);
    }
  }

  lemma EntriesSubset(k: Schema, x: Schema, es: seq<Value>, r: seq<Value>)
    requires Entries(k, x, es) && AllEntries(r)
    requires forall y :: y in r ==> y in es
    ensures Entries(k, x, r)
  {
    forall i | 0 <= i < |r| ensures HasType(k, r[i].vals[0]) && HasType(x, r[i].vals[1]) {
      assert r[i] in es;
      var j :| 0 <= j < |es| && es[j] == r[i];
    }
  }

  lemma MapHasType(k: Schema, x: Schema, r: seq<Value>)
    requires AllEntries(r)
    ensures HasType(Map(k, x), VMap(r)) <==> Entries(k, x, r) && DistinctKeys(r)
  {
  }

  lemma SetAllTyped(k: Schema, x: Schema, es: seq<Value>)
    requires Entries(k, x, es)
    ensures HasType(Map(k, x), VMap(SetAll([], es)))
  {
    SetAllMember([], es);
    var r := SetAll([], es);
    EntriesSubset(k, x, es, r);
    MapHasType(k, x, r);
  }

  lemma {:induction false} SetIndexNew(m: seq<Value>, e: Value)
    requires IsEntry(e) && AllEntries(m)
    requires KeyFree(m, e.vals[0])
    ensures SetIndex(m, e) == m + [e]
  {
    if m != [] {
      SetIndexNew(m[1..], e);
    }
  }

  /** Entries with distinct keys, stored one after another, are the map. */
  lemma {:induction false} SetAllDistinct(m: seq<Value>, es: seq<Value>)
    requires AllEntries(m + es)
    requires AllEntries(m)
    requires AllEntries(es)
    requires DistinctKeys(m + es)
    ensures SetAll(m, es) == m + es
    decreases |es|
  {
    if es == [] {
      assert m + es == m;
    } else {
      assert KeyFree(m, es[0].vals[0]) by {
        forall i | 0 <= i < |m| ensures m[i].vals[0] != es[0].vals[0] {
          assert (m + es)[i] == m[i] && (m + es)[|m|] == es[0];
        }
      }
      SetIndexNew(m, es[0]);
      assert m + [es[0]] + es[1..] == m + es;
      SetAllDistinct(m + [es[0]], es[1..]);
    }
  }

  lemma {:induction false} SetIndexKeeps(m: seq<Value>, e: Value, y: Value)
    requires AllEntries(m) && IsEntry(e) && y in m && IsEntry(y) && y.vals[0] != e.vals[0]
    ensures y in SetIndex(m, e)
  {
    if m[0].vals[0] == e.vals[0] {
      assert y in m[1..];
    } else if y != m[0] {
      SetIndexKeeps(m[1..], e, y);
    }
  }

  lemma {:induction false} SetIndexAdds(m: seq<Value>, e: Value)
    requires AllEntries(m) && IsEntry(e)
    ensures e in SetIndex(m, e)
  {
    if m != [] && m[0].vals[0] != e.vals[0] {
      SetIndexAdds(m[1..], e);
    }
  }

  lemma {:induction false} SetAllKeeps(m: seq<Value>, es: seq<Value>, y: Value)
    requires AllEntries(m) && AllEntries(es) && y in m && IsEntry(y) && KeyFree(es, y.vals[0])
    ensures y in SetAll(m, es)
    decreases |es|
  {
    if es != [] {
      SetIndexKeeps(m, es[0], y);
      SetAllKeeps(SetIndex(m, es[0]), es[1..], y);
    }
  }

  /** Of entries with one key the last one stored stays. */
  lemma {:induction false} LastWins(m: seq<Value>, es: seq<Value>, i: nat)
    requires AllEntries(m) && AllEntries(es) && i < |es| && KeyFree(es[i + 1..], es[i].vals[0])
    ensures es[i] in SetAll(m, es)
    decreases i
  {
    if i == 0 {
      SetIndexAdds(m, es[0]);
      SetAllKeeps(SetIndex(m, es[0]), es[1..], es[0]);
    } else {
      assert es[1..][i..] == es[i + 1..];
      LastWins(SetIndex(m, es[0]), es[1..], i - 1);
    }
  }
}
