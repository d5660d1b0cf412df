/** The encodings of leaves and of the header bodies made of them are short. */
module ShortBodies {
  import opened Bytes
  import opened Compress
  import opened Schema
  import opened Codec
  import opened Evolution
  import opened Versioning
  import opened Headers

  predicate Small(sc: Schema, v: Value)
    requires HasType(sc, v)
  {
    Encode(sc, v).Ok? && |Encode(sc, v).value| <= 100
  }

  lemma LeafSmall(sc: Schema, v: Value)
    requires sc.Num? || sc.Guid? || sc.Bool? || (sc.Str? && v == VStr([]))
    requires HasType(sc, v)
    ensures Small(sc, v)
  {
    if sc.Num? {
      FitsBuffer(sc.signed, sc.width, v.n);
    }
  }

  lemma {:induction false} AllSmall(ts: seq<Schema>, vs: seq<Value>)
    requires AllHave(ts, vs)
    requires forall i {:trigger ts[i]} :: 0 <= i < |ts| ==> HasType(ts[i], vs[i]) && Small(ts[i], vs[i])
    ensures EncodeAll(ts, vs).Ok? && |EncodeAll(ts, vs).value| <= 100 * |ts|
  {
    hide HasType, Encode;
    if ts != [] {
      AllSmall(ts[1..], vs[1..]);
    }
  }

  lemma StructSmall(fs: seq<Field>, vs: seq<Value>)
    requires FieldsHave(fs, vs)
    requires EncodeAll(AllFields(fs), AllVals(fs, vs)).Ok?
    ensures HasType(Struct(fs), VStruct(vs)) && Encode(Struct(fs), VStruct(vs)).Ok?
    ensures |Encode(Struct(fs), VStruct(vs)).value| == 12 + |EncodeAll(AllFields(fs), AllVals(fs, vs)).value|
  {
    hide AllFields, AllVals, FieldsHave, EncodeAll, Object;
  }

  lemma PlainSmall(ts: seq<Schema>, vs: seq<Value>)
    requires AllHave(ts, vs) && EncodeAll(ts, vs).Ok?
    ensures HasType(Struct(PlainAll(ts)), VStruct(vs)) && Encode(Struct(PlainAll(ts)), VStruct(vs)).Ok?
    ensures |Encode(Struct(PlainAll(ts)), VStruct(vs)).value| == 12 + |EncodeAll(ts, vs).value|
  {
    hide AllFields, AllVals, PlainAll, EncodeAll;
    PlainFields(ts);
    PlainVals(ts, vs);
    StructSmall(PlainAll(ts), vs);
  }

  lemma TwoReached(a: Schema, b: Schema, vs: seq<Value>)
    requires |vs| == 2 && HasType(a, vs[0]) && HasType(b, vs[1])
    ensures var fs := [Plain(a), Plain(b)];
            FieldsHave(fs, vs) && AllFields(fs) == [a, b] && AllVals(fs, vs) == vs && AllHave([a, b], vs)
  {
    hide HasType;
    var fs := [Plain(a), Plain(b)];
    EntryFields(a, b);
    assert fs[1..] == [Plain(b)] && fs[1..][1..] == [] && vs[1..][1..] == [];
    assert FieldsHave(fs[1..], vs[1..]);
    assert AllVals(fs[1..], vs[1..]) == [vs[1]] + AllVals([], []);
    assert AllVals(fs, vs) == [vs[0]] + [vs[1]];
  }

  lemma IdSmall(id: MessageId)
    requires IsGuid(id.guid)
    ensures |IdBody(id)| < 0x1000
  {
    hide Encode, EncodeAll, AllFields, AllVals, FieldsHave, AllHave, Supported;
    var ts, vs := [Guid, Num(false, 4)], [VGuid(id.guid), VInt(id.index)];
    var fs := [Plain(Guid), Plain(Num(false, 4))];
    TwoHaveType(Guid, Num(false, 4), IdValue(id));
    TwoReached(Guid, Num(false, 4), vs);
    LeafSmall(ts[0], vs[0]);
    LeafSmall(ts[1], vs[1]);
    AllSmall(ts, vs);
    StructSmall(fs, vs);
  }

  lemma OneReached(a: Schema, v: Value)
    requires HasType(a, v)
    ensures var fs, vs := [Plain(a)], [v];
            FieldsHave(fs, vs) && AllFields(fs) == [a] && AllVals(fs, vs) == vs && AllHave([a], vs)
  {
    hide HasType;
    var fs, vs := [Plain(a)], [v];
    assert fs[1..] == [] && vs[1..] == [] && [a][1..] == [];
    assert AllFields(fs) == [a] + AllFields([]) && AllVals(fs, vs) == [v] + AllVals([], []);
  }

  lemma NumSmall(w: Width, n: int)
    requires InRange(true, w, n)
    ensures HasType(Struct([Plain(Num(true, w))]), One(VInt(n)))
    ensures Encode(Struct([Plain(Num(true, w))]), One(VInt(n))).Ok?
    ensures |Encode(Struct([Plain(Num(true, w))]), One(VInt(n))).value| < 0x1000
  {
    hide Encode, EncodeAll, AllFields, AllVals, FieldsHave, AllHave;
    var sc := Num(true, w);
    OneReached(sc, VInt(n));
    LeafSmall(sc, VInt(n));
    AllSmall([sc], [VInt(n)]);
    StructSmall([Plain(sc)], [VInt(n)]);
  }

  lemma ActorSmall(n: i64)
    ensures |ActorBody(n)| < 0x1000
  {
    hide Encode;
    NumSmall(8, n);
  }

  lemma RetrySmall(n: i32)
    ensures |RetryBody(n)| < 0x1000
  {
    hide Encode;
    NumSmall(4, n);
  }
}
