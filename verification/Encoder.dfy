/** The encoder: a stack of buffers, the top one being written, that computes Codec.Encode. */
module Encoder {
  import opened Bytes
  import opened Compress
  import opened Utf16
  import opened Schema
  import opened Codec

  // ---- one round of each loop ----

  /** The shifted value is all sign bits, and the group `b` just taken shows the sign. */
  predicate IsLast(next: int, b: byte, target: int) {
    next == target && (b / 64) % 2 == -target
  }

  function LowGroup(temp: int): (b: byte)
    ensures b < 128
  {
    temp % 128
  }

  lemma GroupBits(temp: int, isFirst: bool)
    ensures var b := temp % 128 + if isFirst then 0 else 128;
            IsLast(temp / 128, b, if temp < 0 then -1 else 0) <==> -64 <= temp < 64
  {
    var b := temp % 128 + if isFirst then 0 else 128;
    assert (b / 64) % 2 == (temp % 128) / 64;
  }

  /** One round of the loop: the low group is taken off, and whether it was the last one. */
  lemma Round(value: int, temp: int, isFirst: bool, written: seq<byte>)
    requires Groups(value, 0) == Groups(temp, if isFirst then 0 else 128) + written
    ensures var b := LowGroup(temp) + if isFirst then 0 else 128;
            Groups(value, 0) ==
              (if IsLast(temp / 128, b, if temp < 0 then -1 else 0) then [] else Groups(temp / 128, 128))
              + ([b] + written)
    ensures temp / 128 < 0 <==> temp < 0
  {
    hide IsLast;
    GroupBits(temp, isFirst);
  }

  predicate IsLeaf(sc: Schema) {
    sc.Char? || sc.Num? || sc.Float? || sc.Str? || sc.Guid? || sc.NodeId? || sc.NodeIdRange?
  }

  /** What the cases with components consist of, and that they are smaller. */
  lemma Parts(sc: Schema, v: Value)
    requires HasType(sc, v)
    ensures !StructKind(sc) && (sc.Bool? || IsZero(v)) ==>
              Encode(sc, v) == if EmptyTag(sc, v).Ok? then Ok([EmptyTag(sc, v).value]) else Err(EmptyTag(sc, v).error)
    ensures sc.Ptr? && !IsZero(v) ==>
              v.VRef? && HasType(sc.elem, v.target) && Size(sc.elem) < Size(sc)
              && Encode(sc, v) == Join([0x01], Encode(sc.elem, v.target))
    ensures sc.Struct? ==>
              v.VStruct? && FieldsHave(sc.fields, v.vals) && SumSize(AllFields(sc.fields)) < Size(sc)
              && AllHave(AllFields(sc.fields), AllVals(sc.fields, v.vals))
              && var all := EncodeAll(AllFields(sc.fields), AllVals(sc.fields, v.vals));
                 Encode(sc, v) == if all.Ok? then Ok(Object(all.value)) else all
    ensures sc.Slice? && !IsZero(v) ==>
              v.VSeq? && ElemsHave(sc.elem, v.elems) && Size(sc.elem) < Size(sc)
              && (SliceTag(sc.elem).Err? ==> Encode(sc, v).Err?)
              && (SliceTag(sc.elem).Ok? ==>
                    Encode(sc, v) == Join([SliceTag(sc.elem).value] + Count(|v.elems|), EncodeElems(sc.elem, v.elems)))
    ensures sc.Map? && !IsZero(v) ==>
              v.VMap? && ElemsHave(Entry(sc.key, sc.val), v.entries) && Size(Entry(sc.key, sc.val)) < Size(sc)
              && Encode(sc, v) == Join([0x80] + Count(|v.entries|), EncodeElems(Entry(sc.key, sc.val), v.entries))
    ensures sc.Other? ==> Encode(sc, v).Err?
  {
    hide AllFields, AllVals, FieldsHave, AllHave, EncodeAll, EncodeElems, Count, Object, SliceTag, DistinctKeys, LE,
      Compressed, Units, Pairs, GuidBytes, NodeItem;
    if sc.Map? && v.VMap? {
      EntrySize(sc.key, sc.val);
      EntriesHaveType(sc.key, sc.val, v.entries);
    }
  }

  lemma ObjectPieces(base: seq<byte>, body: seq<byte>)
    ensures base + [0x00] + ObjectHeader(|body|) + [SCOPE_BEGIN] + body + [SCOPE_END] + [OBJECT_END]
            == base + Object(body)
  {
    hide LE;
  }

  lemma JoinNothing(r: Result<seq<byte>>)
    ensures Join([], r) == r
  {
    assert r.Ok? ==> [] + r.value == r.value;
  }

  lemma JoinAssoc(done: seq<byte>, first: seq<byte>, r: Result<seq<byte>>)
    ensures Join(done, Join(first, r)) == Join(done + first, r)
  {
    assert r.Ok? ==> done + (first + r.value) == done + first + r.value;
  }

  lemma FirstField(ts: seq<Schema>, vs: seq<Value>, i: nat)
    requires i < |ts| == |vs| && AllHave(ts[i..], vs[i..])
    ensures HasType(ts[i], vs[i]) && Size(ts[i]) <= SumSize(ts[i..])
    ensures AllHave(ts[i + 1..], vs[i + 1..]) && SumSize(ts[i + 1..]) <= SumSize(ts[i..])
    ensures Encode(ts[i], vs[i]).Err? ==> EncodeAll(ts[i..], vs[i..]).Err?
  {
    hide HasType, Encode;
    assert ts[i..][1..] == ts[i + 1..] && vs[i..][1..] == vs[i + 1..];
  }

  lemma NoFields(ts: seq<Schema>, vs: seq<Value>)
    requires |ts| == |vs| && AllHave(ts[|ts|..], vs[|ts|..])
    ensures EncodeAll(ts[|ts|..], vs[|ts|..]) == Ok([])
  {
  }

  lemma NextField(done: seq<byte>, ts: seq<Schema>, vs: seq<Value>, i: nat)
    requires i < |ts| == |vs| && AllHave(ts[i..], vs[i..])
    requires HasType(ts[i], vs[i]) && Encode(ts[i], vs[i]).Ok? && AllHave(ts[i + 1..], vs[i + 1..])
    ensures Join(done, EncodeAll(ts[i..], vs[i..])) ==
            Join(done + Encode(ts[i], vs[i]).value, EncodeAll(ts[i + 1..], vs[i + 1..]))
  {
    hide HasType, Encode;
    assert ts[i..][1..] == ts[i + 1..] && vs[i..][1..] == vs[i + 1..];
    JoinAssoc(done, Encode(ts[i], vs[i]).value, EncodeAll(ts[i + 1..], vs[i + 1..]));
  }

  lemma NoElems(e: Schema, vs: seq<Value>)
    ensures vs[|vs|..] == [] && EncodeElems(e, []) == Ok([])
  {
  }

  lemma NextElem(done: seq<byte>, e: Schema, vs: seq<Value>, i: nat)
    requires i < |vs| && ElemsHave(e, vs)
    ensures HasType(e, vs[i])
    ensures Encode(e, vs[i]).Err? ==> EncodeElems(e, vs[i..]).Err?
    ensures Encode(e, vs[i]).Ok? ==>
              Join(done, EncodeElems(e, vs[i..])) == Join(done + Encode(e, vs[i]).value, EncodeElems(e, vs[i + 1..]))
  {
    hide HasType, Encode;
    assert vs[i..][0] == vs[i] && vs[i..][1..] == vs[i + 1..];
    if Encode(e, vs[i]).Ok? {
      JoinAssoc(done, Encode(e, vs[i]).value, EncodeElems(e, vs[i + 1..]));
    }
  }

  // ---- the encoder ----

  class Buffer {
    var data: seq<byte>

    constructor ()
      ensures data == []
    {
      data := [];
    }

    method Write(s: seq<byte>)
      modifies this
      ensures data == old(data) + s
    {
      data := data + s;
    }
  }

  /** Fills a buffer from its end, least significant group first: never past its front, and what is filled is the
      code. The shift is arithmetic; at the end nothing but sign bits is left. */
  method FillBackwards(value: int, size: nat) returns (buffer: array<byte>, start: nat)
    requires |Groups(value, 0)| <= size
    ensures fresh(buffer) && start <= buffer.Length && buffer[start..] == Groups(value, 0)
  {
    hide Groups, IsLast, LowGroup;
    buffer := new byte[size];
    var index := size - 1;
    var target := if value < 0 then -1 else 0;
    var temp := value;
    var isFirst := true;
    ghost var written: seq<byte> := [];
    assert Groups(value, 0) == Groups(value, 0) + [];
    while true
      invariant -1 <= index < size && (isFirst ==> temp == value && written == [])
      invariant written == buffer[index + 1..]
      invariant Groups(value, 0) == Groups(temp, if isFirst then 0 else 128) + written
      invariant target == if temp < 0 then -1 else 0
      decreases index
    {
      Round(value, temp, isFirst, written);
      var b := LowGroup(temp);
      if !isFirst {
        b := b + 128;
      }
      assert buffer[index + 1..] == written;
      buffer[index] := b;
      assert buffer[index..] == [b] + written;
      written := [b] + written;
      isFirst := false;
      index := index - 1;
      temp := temp / 128;
      if IsLast(temp, b, target) {
        assert [] + written == written;
        break;
      }
    }
    start := index + 1;
  }

  class EncodeState {
    var bufStack: seq<Buffer>
    var buf: Buffer?

    /** `buf` is the top of the stack, and no buffer is on it twice. */
    ghost predicate Valid()
      reads this
    {
      && bufStack != []
      && buf == bufStack[|bufStack| - 1]
      && forall i, j :: 0 <= i < j < |bufStack| ==> bufStack[i] != bufStack[j]
    }

    constructor ()
      ensures bufStack == [] && buf == null
    {
      bufStack, buf := [], null;
    }

    method PushBuffer()
      requires bufStack == [] || Valid()
      modifies this
      ensures Valid() && fresh(buf) && buf.data == []
      ensures bufStack == old(bufStack) + [buf]
    {
      var b := new Buffer();
      bufStack := bufStack + [b];
      buf := b;
    }

    method PopBuffer() returns (top: Buffer)
      requires Valid() && |bufStack| > 1
      modifies this
      ensures Valid()
      ensures top == old(buf) && bufStack == old(bufStack)[..|old(bufStack)| - 1]
    {
      var n := |bufStack| - 1;
      top := bufStack[n];
      bufStack := bufStack[..n];
      buf := bufStack[|bufStack| - 1];
    }

    method WriteTypeMeta(meta: byte)
      requires Valid()
      modifies buf
      ensures buf.data == old(buf.data) + [meta]
    {
      buf.Write([meta]);
    }

    method WriteCompressed(signed: bool, w: Width, value: int)
      requires Valid() && InRange(signed, w, value)
      modifies buf
      ensures buf.data == old(buf.data) + Compressed(value)
    {
      if value == 0 {
        assert buf.data == buf.data + [];
        return;
      }
      FitsBuffer(signed, w, value);
      var buffer, start := FillBackwards(value, MaxBytes(w));
      buf.Write(buffer[start..]);
    }

    method WriteCount(n: nat)
      requires Valid()
      modifies buf
      ensures buf.data == old(buf.data) + Count(n)
    {
      WriteCompressed(false, 4, n % 0x1_0000_0000);
    }

    /** Closes the scope on top of the stack and writes it, framed by its size, to the buffer below. */
    method ObjectScopeEnd()
      requires Valid() && |bufStack| > 1
      modifies this, bufStack[|bufStack| - 2]
      ensures Valid() && bufStack == old(bufStack)[..|old(bufStack)| - 1]
      ensures buf.data == old(bufStack[|bufStack| - 2].data) + Object(old(buf.data))
    {
      var objbuf := PopBuffer();
      ghost var base, body := buf.data, objbuf.data;
      WriteTypeMeta(0x00);
      buf.Write(LE(|objbuf.data| + 11, 4) + [0, 0, 0, 0]);
      WriteTypeMeta(SCOPE_BEGIN);
      buf.Write(objbuf.data);
      WriteTypeMeta(SCOPE_END);
      WriteTypeMeta(OBJECT_END);
      ObjectPieces(base, body);
    }

    method WriteEmpty(sc: Schema, v: Value) returns (ok: bool)
      requires Valid() && HasType(sc, v)
      modifies buf
      ensures ok == EmptyTag(sc, v).Ok?
      ensures buf.data == old(buf.data) + if ok then [EmptyTag(sc, v).value] else []
    {
      var tag := EmptyTag(sc, v);
      if tag.Err? {
        return false;
      }
      WriteTypeMeta(tag.value);
      return true;
    }

    /** A non-empty value of a type without components. */
    method Leaf(sc: Schema, v: Value)
      requires Valid() && HasType(sc, v) && IsLeaf(sc) && (StructKind(sc) || !IsZero(v))
      modifies buf
      ensures Encode(sc, v).Ok? && buf.data == old(buf.data) + Encode(sc, v).value
    {
      hide AllFields, AllVals, FieldsHave, AllHave, EncodeAll, EncodeElems, Count, Object, EmptyTag,
        DistinctKeys, LE, Compressed, Units, Pairs, GuidBytes, NodeItem;
      ghost var base := buf.data;
      match sc
      case Char(signed) =>
        WriteTypeMeta(if signed then 0x03 else 0x04);
        buf.Write([v.n % 256]);
      case Num(signed, w) =>
        WriteTypeMeta(BaseTag(sc).value);
        WriteCompressed(signed, w, v.n);
      case Float =>
        WriteTypeMeta(0x0B);
        buf.Write(LE(v.bits, 8));
      case Str =>
        var units := Units(v.runes);
        WriteTypeMeta(WSTRING_TAG);
        WriteCount(|units|);
        buf.Write(Pairs(units));
        assert base + [WSTRING_TAG] + Count(|units|) + Pairs(units)
            == base + ([WSTRING_TAG] + (Count(|units|) + Pairs(units)));
      case Guid =>
        if v.guid == EMPTY_GUID {
          WriteTypeMeta(0x4C);
        } else {
          WriteTypeMeta(0x0C);
          buf.Write(GuidBytes(v.guid));
        }
      case NodeId => WriteNode(v.node);
      case NodeIdRange =>
        WriteNode(v.begin);
        WriteNode(v.end);
    }

    /** Writes one value. Success appends exactly its encoding to the current buffer and restores the stack;
        in every case the buffers below keep their contents. */
    method Value(sc: Schema, v: Value) returns (ok: bool)
      requires Valid() && HasType(sc, v)
      modifies this, buf
      ensures ok == Encode(sc, v).Ok?
      ensures ok ==> Valid() && bufStack == old(bufStack) && buf == old(buf)
                     && buf.data == old(buf.data) + Encode(sc, v).value
      ensures forall i :: 0 <= i < |old(bufStack)| - 1 ==> old(bufStack)[i].data == old(bufStack[i].data)
      decreases Size(sc), 3, 0
    {
      hide Encode, HasType, AllFields, AllVals, FieldsHave, AllHave, EncodeAll, EncodeElems, Count, Object, BaseTag,
        SliceTag, EmptyTag, Entry, ElemsHave, IsZero, Size;
      Parts(sc, v);
      if !StructKind(sc) && (sc.Bool? || IsZero(v)) {
        ok := WriteEmpty(sc, v);
        return;
      }
      match sc
      case Ptr(e) =>
        WriteTypeMeta(0x01);
        ok := Value(e, v.target);
      case Struct(fs) =>
        var ts, vs := CollectFields(fs, v.vals);
        ok := Fields(ts, vs);
      case Slice(e) =>
        if SliceTag(e).Err? {
          return false;
        }
        ok := Elements(SliceTag(e).value, e, v.elems);
      case Map(k, x) =>
        ok := Elements(0x80, Entry(k, x), v.entries);
      case Other => ok := false;
      case _ =>
        Leaf(sc, v);
        ok := true;
    }

    method WriteNode(n: Node)
      requires Valid()
      modifies buf
      ensures buf.data == old(buf.data) + NodeItem(n)
    {
      ghost var base := buf.data;
      assert Groups(16, 0) == [16] && Count(16) == [16];
      WriteTypeMeta(NODE_ID_TAG);
      WriteCount(16);
      buf.Write(NodeBytes(n));
      assert base + [NODE_ID_TAG] + [16] + NodeBytes(n) == base + NodeItem(n);
    }

    /** The object scope of a struct: its fields one after another into a buffer of their own. */
    method Fields(ts: seq<Schema>, vs: seq<Value>) returns (ok: bool)
      requires Valid() && AllHave(ts, vs)
      modifies this, buf
      ensures ok == EncodeAll(ts, vs).Ok?
      ensures ok ==> Valid() && bufStack == old(bufStack) && buf == old(buf)
                     && buf.data == old(buf.data) + Object(EncodeAll(ts, vs).value)
      ensures forall i :: 0 <= i < |old(bufStack)| - 1 ==> old(bufStack)[i].data == old(bufStack[i].data)
      decreases SumSize(ts), 4, 0
    {
      hide Encode, HasType, EncodeAll, AllHave, Object, Size, SumSize;
      PushBuffer();
      HaveLength(ts, vs);
      assert ts[0..] == ts && vs[0..] == vs;
      JoinNothing(EncodeAll(ts, vs));
      for i := 0 to |ts|
        invariant Valid() && fresh(buf) && bufStack == old(bufStack) + [buf]
        invariant old(buf).data == old(buf.data)
        invariant forall j :: 0 <= j < |old(bufStack)| - 1 ==> old(bufStack)[j].data == old(bufStack[j].data)
        invariant AllHave(ts[i..], vs[i..]) && SumSize(ts[i..]) <= SumSize(ts)
        invariant EncodeAll(ts, vs) == Join(buf.data, EncodeAll(ts[i..], vs[i..]))
      {
        ghost var done := buf.data;
        FirstField(ts, vs, i);
        ok := Value(ts[i], vs[i]);
        if !ok {
          return;
        }
        NextField(done, ts, vs, i);
      }
      NoFields(ts, vs);
      assert buf.data + [] == buf.data;
      ObjectScopeEnd();
      return true;
    }

    /** A tag, the element count and the elements. */
    method Elements(tag: byte, e: Schema, vs: seq<Value>) returns (ok: bool)
      requires Valid() && ElemsHave(e, vs)
      modifies this, buf
      ensures ok == EncodeElems(e, vs).Ok?
      ensures ok ==> Valid() && bufStack == old(bufStack) && buf == old(buf)
                     && buf.data == old(buf.data) + ([tag] + Count(|vs|) + EncodeElems(e, vs).value)
      ensures forall i :: 0 <= i < |old(bufStack)| - 1 ==> old(bufStack)[i].data == old(bufStack[i].data)
      decreases Size(e), 4, 0
    {
      hide Encode, EncodeElems, HasType, Count, Size;
      ghost var base := buf.data;
      WriteTypeMeta(tag);
      WriteCount(|vs|);
      ghost var start := buf.data;
      ghost var done: seq<byte> := [];
      assert vs[0..] == vs;
      JoinNothing(EncodeElems(e, vs));
      for i := 0 to |vs|
        invariant Valid() && bufStack == old(bufStack) && buf == old(buf)
        invariant forall j :: 0 <= j < |old(bufStack)| - 1 ==> old(bufStack)[j].data == old(bufStack[j].data)
        invariant buf.data == start + done
        invariant EncodeElems(e, vs) == Join(done, EncodeElems(e, vs[i..]))
      {
        NextElem(done, e, vs, i);
        ok := Value(e, vs[i]);
        if !ok {
          return;
        }
        done := done + Encode(e, vs[i]).value;
      }
      NoElems(e, vs);
      assert base + [tag] + Count(|vs|) + done == base + ([tag] + Count(|vs|) + done);
      return true;
    }
  }

  /** Bytes pass through; for a struct the root buffer ends up holding its encoding. */
  method Marshal(p: Payload) returns (r: Result<seq<byte>>)
    requires ValidPayload(p)
    ensures r.Ok? <==> MarshalPayload(p).Ok?
    ensures r.Ok? ==> r == MarshalPayload(p)
  {
    hide Encode, HasType;
    match p
    case Raw(b) => return Ok(b);
    case Typed(ty, v) =>
      if !StructKind(ty) {
        return Err(Unsupported);
      }
      var s := new EncodeState();
      s.PushBuffer();
      var ok := s.Value(ty, v);
      if !ok {
        return Err(Unsupported);
      }
      assert s.buf.data == Encode(ty, v).value;
      return Ok(s.buf.data);
  }
}
