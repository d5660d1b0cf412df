/** The decoder: a cursor over the input, advanced by reads and moved by seeks, that computes Codec.Decode. */
module Decoder {
  import opened Bytes
  import opened Compress
  import opened Utf16
  import opened Schema
  import opened Codec

  /** What a read at a position promises: the function's outcome and, on success, its cursor. */
  ghost predicate Reads<T(!new)>(r: Result<T>, pos: nat, spec: Result<(T, nat)>) {
    match spec
    case Ok((v, q)) => r == Ok(v) && pos == q
    case Err(e) => r == Err(e)
  }

  // ---- one round of each loop ----

  lemma OneMore(d: seq<byte>, p: nat, q: nat)
    ensures Continued(d, p, p)
    ensures Continued(d, p, q) && q < |d| && d[q] >= 128 ==> Continued(d, p, q + 1)
  {
  }

  /** No terminator among the bytes read so far. */
  lemma StopCases(d: seq<byte>, p: nat, n: nat, q: nat, k: nat)
    requires q == p + k && k <= n && Continued(d, p, q)
    ensures q >= |d| && k < n ==> Stop(d, p, n) == Err(Eof)
    ensures k == n && q <= |d| ==> Stop(d, p, n) == Err(Malformed)
  {
    hide Stop;
  }

  lemma ReadFails(signed: bool, w: Width, d: seq<byte>, p: nat)
    ensures Stop(d, p, MaxBytes(w)).Err? ==> ReadAt(signed, w, d, p) == Err(Stop(d, p, MaxBytes(w)).error)
  {
    hide Stop, Val, Wrap;
  }

  /** All ones if the first byte has the sign bit. */
  function SignFill(signed: bool, b: byte): int {
    Wrap(signed, if (b / 64) % 2 == 1 then -1 else 0)
  }

  /** Seven more bits shifted in. */
  function ShiftIn(signed: bool, value: int, b: byte): int {
    Wrap(signed, value * 128 + b % 128)
  }

  /** What the loop has after the bytes from `p` up to `q`. */
  function Partial(signed: bool, d: seq<byte>, p: nat, q: nat): int
    requires p < |d| && p <= q <= |d|
  {
    Wrap(signed, Fold(Init(d[p]), d[p..q]))
  }

  lemma ReadUnfolds(signed: bool, w: Width, d: seq<byte>, p: nat, last: nat)
    requires p <= last < |d| && Stop(d, p, MaxBytes(w)) == Ok(last)
    ensures ReadAt(signed, w, d, p) == Ok((Wrap(signed, Val(d[p..last + 1])), last + 1))
  {
    hide Stop, Wrap, MaxBytes, InRange, Val;
  }

  lemma ReadFinds(signed: bool, w: Width, d: seq<byte>, p: nat, last: nat)
    requires p <= last < |d| && Stop(d, p, MaxBytes(w)) == Ok(last)
    ensures ReadAt(signed, w, d, p) == Ok((Partial(signed, d, p, last + 1), last + 1))
  {
    hide Stop, Wrap, MaxBytes, Fold, Init, ReadAt;
    ReadUnfolds(signed, w, d, p, last);
    assert d[p..last + 1][0] == d[p];
  }

  lemma FilledFirst(signed: bool, d: seq<byte>, p: nat)
    requires p < |d|
    ensures SignFill(signed, d[p]) == Partial(signed, d, p, p)
  {
    assert d[p..p] == [];
  }

  lemma WrapFormula(signed: bool, x: int)
    ensures var shift := if signed then 0x8000_0000_0000_0000 else 0;
            Wrap(signed, x) == (x + shift) % 0x1_0000_0000_0000_0000 - shift
  {
  }

  lemma ModPeriod(x: int, k: int)
    ensures (x + k * 0x1_0000_0000_0000_0000) % 0x1_0000_0000_0000_0000 == x % 0x1_0000_0000_0000_0000
  {
  }

  lemma WrapPeriod(signed: bool, x: int, k: int)
    ensures Wrap(signed, x + k * 0x1_0000_0000_0000_0000) == Wrap(signed, x)
  {
    hide Truncate, InRange;
    WrapFormula(signed, x);
    WrapFormula(signed, x + k * 0x1_0000_0000_0000_0000);
    var shift := if signed then 0x8000_0000_0000_0000 else 0;
    assert x + k * 0x1_0000_0000_0000_0000 + shift == (x + shift) + k * 0x1_0000_0000_0000_0000;
    ModPeriod(x + shift, k);
  }

  lemma WrapMultiple(signed: bool, x: int) returns (k: int)
    ensures Wrap(signed, x) == x - k * 0x1_0000_0000_0000_0000
  {
    k := if signed then (x + 0x8000_0000_0000_0000) / 0x1_0000_0000_0000_0000 else x / 0x1_0000_0000_0000_0000;
  }

  lemma WrapTwice(signed: bool, x: int, b: int)
    ensures Wrap(signed, Wrap(signed, x) * 128 + b) == Wrap(signed, x * 128 + b)
  {
    var k := WrapMultiple(signed, x);
    WrapPeriod(signed, x * 128 + b, -128 * k);
  }

  /** Wrapping around at every step is wrapping around once. */
  lemma WrapStep(signed: bool, init: int, s: seq<byte>, b: byte)
    ensures Wrap(signed, Wrap(signed, Fold(init, s)) * 128 + b % 128) == Wrap(signed, Fold(init, s + [b]))
  {
    assert (s + [b])[..|s|] == s;
    WrapTwice(signed, Fold(init, s), b % 128);
  }

  lemma ShiftedIn(signed: bool, d: seq<byte>, p: nat, q: nat)
    requires p <= q < |d|
    ensures ShiftIn(signed, Partial(signed, d, p, q), d[q]) == Partial(signed, d, p, q + 1)
  {
    hide Wrap, Fold, Init;
    WrapStep(signed, Init(d[p]), d[p..q], d[q]);
    assert d[p..q + 1] == d[p..q] + [d[q]];
  }

  function Prepend(done: seq<Value>, r: Result<(seq<Value>, nat)>): Result<(seq<Value>, nat)> {
    if r.Ok? then Ok((done + r.value.0, r.value.1)) else r
  }

  lemma PrependNone(r: Result<(seq<Value>, nat)>)
    ensures Prepend([], r) == r
  {
    assert r.Ok? ==> [] + r.value.0 == r.value.0;
  }

  lemma PrependOne(done: seq<Value>, x: Value, r: Result<(seq<Value>, nat)>)
    ensures Prepend(done, Prepend([x], r)) == Prepend(done + [x], r)
  {
    assert r.Ok? ==> done + ([x] + r.value.0) == done + [x] + r.value.0;
  }

  lemma NoFields(ts: seq<Schema>, d: seq<byte>, p: nat, us: seq<Value>)
    requires |ts| == |us| && AllHave(ts[|ts|..], us[|ts|..])
    ensures DecodeAll(ts[|ts|..], d, p, us[|ts|..]) == Ok(([], p))
  {
  }

  /** One round of the field loop. */
  lemma NextField(done: seq<Value>, ts: seq<Schema>, d: seq<byte>, p: nat, us: seq<Value>, i: nat)
    requires i < |ts| == |us| && AllHave(ts[i..], us[i..])
    ensures HasType(ts[i], us[i]) && Size(ts[i]) <= SumSize(ts[i..])
    ensures AllHave(ts[i + 1..], us[i + 1..]) && SumSize(ts[i + 1..]) <= SumSize(ts[i..])
    ensures var all := DecodeAll(ts[i..], d, p, us[i..]);
            if p >= |d| then all == Err(Eof)
            else if d[p] == SCOPE_END then all == Ok((us[i..], p + 1))
            else
              var x := Decode(ts[i], d[p], d, p + 1, us[i]);
              if x.Err? then all == Err(x.error)
              else Prepend(done, all) == Prepend(done + [x.value.0], DecodeAll(ts[i + 1..], d, x.value.1, us[i + 1..]))
  {
    hide Decode, HasType;
    assert ts[i..][1..] == ts[i + 1..] && us[i..][1..] == us[i + 1..];
    if p < |d| && d[p] != SCOPE_END {
      var x := Decode(ts[i], d[p], d, p + 1, us[i]);
      if x.Ok? {
        PrependOne(done, x.value.0, DecodeAll(ts[i + 1..], d, x.value.1, us[i + 1..]));
      }
    }
  }

  lemma NoElems(e: Schema, d: seq<byte>, p: nat)
    ensures DecodeElems(e, 0, d, p) == Ok(([], p))
  {
  }

  /** One round of the element loop. */
  lemma NextElem(done: seq<Value>, e: Schema, n: nat, d: seq<byte>, p: nat)
    requires n > 0
    ensures var all := DecodeElems(e, n, d, p);
            if p >= |d| then all == Err(Eof)
            else
              var x := Decode(e, d[p], d, p + 1, Zero(e));
              if x.Err? then all == Err(x.error)
              else Prepend(done, all) == Prepend(done + [x.value.0], DecodeElems(e, n - 1, d, x.value.1))
  {
    hide Decode, HasType, Zero;
    if p < |d| {
      var x := Decode(e, d[p], d, p + 1, Zero(e));
      if x.Ok? {
        PrependOne(done, x.value.0, DecodeElems(e, n - 1, d, x.value.1));
      }
    }
  }

  // ---- the decoder ----

  class DecodeState {
    const data: seq<byte>
    var pos: nat

    constructor (data: seq<byte>)
      ensures this.data == data && pos == 0
    {
      this.data, pos := data, 0;
    }

    method ReadByte() returns (r: Result<byte>)
      modifies this
      ensures r == ByteAt(data, old(pos))
      ensures pos == old(pos) + if r.Ok? then 1 else 0
    {
      if pos >= |data| {
        return Err(Eof);
      }
      r := Ok(data[pos]);
      pos := pos + 1;
    }

    /** A failing read consumes what there was. */
    method ReadBinary(n: nat) returns (r: Result<seq<byte>>)
      modifies this
      ensures r == Take(data, old(pos), n)
      ensures r.Ok? ==> pos == old(pos) + n
      ensures r.Err? ==> pos >= |data|
    {
      r := Take(data, pos, n);
      if r.Ok? {
        pos := pos + n;
      } else if pos < |data| {
        pos := |data|;
      }
    }

    method Seek(p: int) returns (r: Result<nat>)
      modifies this
      ensures r == if p < 0 then Err(Malformed) else Ok(p)
      ensures pos == if p < 0 then old(pos) else p
    {
      if p < 0 {
        return Err(Malformed);
      }
      pos := p;
      return Ok(pos);
    }

    method ExpectTypeMeta(meta: byte) returns (r: Result<byte>)
      modifies this
      ensures r == if ByteAt(data, old(pos)).Ok? && data[old(pos)] != meta then Err(Malformed)
                   else ByteAt(data, old(pos))
      ensures r.Ok? ==> pos == old(pos) + 1
    {
      r := ReadByte();
      if r.Ok? && r.value != meta {
        r := Err(Malformed);
      }
    }

    /** Shifts in seven bits a byte, wrapping around at 64 bits, until a byte has no continuation bit. */
    method ReadCompressed(signed: bool, w: Width) returns (r: Result<int>)
      modifies this
      ensures Reads(r, pos, ReadAt(signed, w, data, old(pos)))
    {
      hide Stop, ReadAt, Continued, SignFill, ShiftIn, Partial;
      ghost var start := pos;
      var maxSize := MaxBytes(w);
      OneMore(data, start, start);
      var b := ReadByte();
      if b.Err? {
        StopCases(data, start, maxSize, start, 0);
        ReadFails(signed, w, data, start);
        return Err(b.error);
      }
      var byteValue := b.value;
      var value := SignFill(signed, byteValue);
      FilledFirst(signed, data, start);
      var readSize := 1;
      while readSize <= maxSize
        invariant 1 <= readSize <= maxSize && pos == start + readSize <= |data| && byteValue == data[pos - 1]
        invariant Continued(data, start, pos - 1)
        invariant value == Partial(signed, data, start, pos - 1)
        decreases maxSize - readSize
      {
        ShiftedIn(signed, data, start, pos - 1);
        value := ShiftIn(signed, value, byteValue);
        if byteValue < 128 {
          break;
        }
        OneMore(data, start, pos - 1);
        StopCases(data, start, maxSize, pos, readSize);
        ReadFails(signed, w, data, start);
        if readSize == maxSize {
          return Err(Malformed);
        }
        b := ReadByte();
        if b.Err? {
          return Err(b.error);
        }
        byteValue := b.value;
        readSize := readSize + 1;
      }
      StopAt(data, start, maxSize, pos - 1);
      ReadFinds(signed, w, data, start, pos - 1);
      return Ok(value);
    }

    method ReadCount() returns (r: Result<u32>)
      modifies this
      ensures Reads(r, pos, Codec.ReadCount(data, old(pos)))
    {
      var n := ReadCompressed(false, 4);
      if n.Err? {
        return Err(n.error);
      }
      return Ok(Truncate(false, 4, n.value));
    }

    method ReadNode(meta: byte) returns (r: Result<Node>)
      modifies this
      ensures Reads(r, pos, Codec.ReadNode(meta, data, old(pos)))
    {
      if meta != NODE_ID_TAG {
        return Err(Malformed);
      }
      var c := ReadCount();
      if c.Err? {
        return Err(c.error);
      }
      if c.value != 16 {
        return Err(Malformed);
      }
      var s := ReadBinary(16);
      if s.Err? {
        return Err(s.error);
      }
      WordBound(s.value[0..8]);
      WordBound(s.value[8..16]);
      return Ok(Node(FromLE(s.value[0..8]), FromLE(s.value[8..16])));
    }

    /** Reads an object's header. Whether the header itself was complete is not checked. */
    method ReadObjectBegin(meta: byte) returns (r: Result<int>)
      modifies this
      ensures Reads(r, pos, ObjectBegin(meta, data, old(pos)))
    {
      if meta != 0x00 {
        return Ok(-1);
      }
      var headerPosition := pos;
      var h := ReadBinary(8);
      var size, flag := 0, 0;
      if h.Ok? {
        size, flag := FromLE(h.value[0..4]), h.value[4];
      }
      if flag % 2 == 1 {
        var len := ReadCount();
        if len.Err? {
          return Err(len.error);
        }
        if len.value == 0 {
          return Err(Malformed);
        }
        if pos + len.value > |data| {
          return Err(Eof);
        }
        pos := pos + len.value;
      }
      var b := ExpectTypeMeta(SCOPE_BEGIN);
      if b.Err? {
        return Err(b.error);
      }
      return Ok(headerPosition as int + size as int - 2);
    }

    /** Skips to the recorded end of an object and past its closing tags. */
    method ConsumeObjectEnd(meta: byte, endpos: int) returns (r: Result<nat>)
      modifies this
      ensures match Codec.ObjectEnd(meta, data, endpos, old(pos))
              case Ok(q) => r.Ok? && pos == q
              case Err(e) => r == Err(e)
    {
      if meta != 0x00 {
        return Ok(pos);
      }
      r := Seek(endpos);
      if r.Err? {
        return;
      }
      var b := ExpectTypeMeta(SCOPE_END);
      if b.Err? {
        return Err(b.error);
      }
      b := ExpectTypeMeta(OBJECT_END);
      if b.Err? {
        return Err(b.error);
      }
    }

    /** Values without components. */
    method Leaf(sc: Schema, meta: byte) returns (r: Result<Value>)
      modifies this
      ensures Reads(r, pos, DecodeLeaf(sc, meta, data, old(pos)))
    {
      hide ReadAt, Codec.ReadCount, Codec.ReadNode, FromLE, Runes, UnPairs, GuidFrom, Truncate, InRange, HasType;
      match sc
      case Char(signed) =>
        var b := ReadByte();
        if b.Err? {
          return Err(b.error);
        }
        if meta != 0x03 && meta != 0x04 {
          return Err(Malformed);
        }
        if signed != (meta == 0x03) {
          return Err(Panic);
        }
        return Ok(VInt(if signed && b.value >= 128 then b.value as int - 256 else b.value));
      case Num(signed, w) =>
        if !NumMeta(signed, meta) {
          return Err(Malformed);
        }
        var n := ReadCompressed(signed, w);
        if n.Err? {
          return Err(n.error);
        }
        return Ok(VInt(Truncate(signed, w, n.value)));
      case Float =>
        if meta != 0x0B {
          return Err(Malformed);
        }
        var s := ReadBinary(8);
        if s.Err? {
          return Err(s.error);
        }
        WordBound(s.value);
        return Ok(VFloat(FromLE(s.value)));
      case Str =>
        if meta != WSTRING_TAG {
          return Err(Malformed);
        }
        var n := ReadCount();
        if n.Err? {
          return Err(n.error);
        }
        var s := ReadBinary(2 * n.value as nat);
        if s.Err? {
          return Err(s.error);
        }
        return Ok(VStr(Runes(UnPairs(s.value))));
      case Guid =>
        if meta % 16 != 0x0C {
          return Err(Malformed);
        }
        var s := ReadBinary(16);
        if s.Err? {
          return Err(s.error);
        }
        return Ok(VGuid(GuidFrom(s.value)));
      case NodeId =>
        var n := ReadNode(meta);
        if n.Err? {
          return Err(n.error);
        }
        return Ok(VNode(n.value));
      case NodeIdRange =>
        var b := ReadNode(meta);
        if b.Err? {
          return Err(b.error);
        }
        var m := ReadByte();
        if m.Err? {
          return Err(m.error);
        }
        var e := ReadNode(m.value);
        if e.Err? {
          return Err(e.error);
        }
        return Ok(VRange(b.value, e.value));
      case _ => return Err(Unsupported);
    }

    /** Decodes one item into a target of type `sc` holding `t`, its tag already read. */
    method Value(sc: Schema, meta: byte, t: Value) returns (r: Result<Value>)
      requires HasType(sc, t)
      modifies this
      ensures Reads(r, pos, Decode(sc, meta, data, old(pos), t))
      decreases Size(sc), 3, 0
    {
      if IsEmptyMeta(meta) {
        return DecodeEmpty(sc, meta);
      }
      match sc
      case Ptr(e) =>
        var m := ReadByte();
        if m.Err? {
          return Err(m.error);
        }
        var x := Value(e, m.value, Zero(e));
        if x.Err? {
          return x;
        }
        return Ok(VRef(x.value));
      case Struct(fs) =>
        r := StructValue(fs, meta, t);
      case Slice(e) =>
        if !SliceMetaOk(e, meta) {
          return Err(Malformed);
        }
        var xs := Elements(e);
        if xs.Err? {
          return Err(xs.error);
        }
        return Ok(VSeq(xs.value));
      case Map(k, x) =>
        if meta != 0x80 {
          return Err(Malformed);
        }
        EntrySize(k, x);
        var es := Elements(Entry(k, x));
        if es.Err? {
          return Err(es.error);
        }
        EntriesOf(k, x, es.value);
        return Ok(VMap(SetAll([], es.value)));
      case _ => r := Leaf(sc, meta);
    }

    method StructValue(fs: seq<Field>, meta: byte, t: Value) returns (r: Result<Value>)
      requires HasType(Struct(fs), t) && !IsEmptyMeta(meta)
      modifies this
      ensures Reads(r, pos, Decode(Struct(fs), meta, data, old(pos), t))
      decreases FieldsSize(fs), 5, 0
    {
      var begin := ReadObjectBegin(meta);
      if begin.Err? {
        return Err(begin.error);
      }
      var ts, us := CollectFields(fs, t.vals);
      var flat := Fields(ts, us);
      if flat.Err? {
        return Err(flat.error);
      }
      var end := ConsumeObjectEnd(meta, begin.value);
      if end.Err? {
        return Err(end.error);
      }
      return Ok(VStruct(PutVals(fs, t.vals, flat.value)));
    }

    /** The fields of a struct in order, leaving off at ScopeEnd. */
    method Fields(ts: seq<Schema>, us: seq<Value>) returns (r: Result<seq<Value>>)
      requires AllHave(ts, us)
      modifies this
      ensures Reads(r, pos, DecodeAll(ts, data, old(pos), us))
      decreases SumSize(ts), 4, 0
    {
      hide Decode, DecodeAll, HasType, AllHave, Size, SumSize;
      HaveLength(ts, us);
      var done: seq<Value> := [];
      ghost var start := pos;
      assert ts[0..] == ts && us[0..] == us;
      PrependNone(DecodeAll(ts, data, pos, us));
      for i := 0 to |ts|
        invariant AllHave(ts[i..], us[i..]) && SumSize(ts[i..]) <= SumSize(ts)
        invariant DecodeAll(ts, data, start, us) == Prepend(done, DecodeAll(ts[i..], data, pos, us[i..]))
      {
        NextField(done, ts, data, pos, us, i);
        var m := ReadByte();
        if m.Err? {
          return Err(m.error);
        }
        if m.value == SCOPE_END {
          return Ok(done + us[i..]);
        }
        var x := Value(ts[i], m.value, us[i]);
        if x.Err? {
          return Err(x.error);
        }
        done := done + [x.value];
      }
      NoFields(ts, data, pos, us);
      assert done + [] == done;
      return Ok(done);
    }

    /** A count and that many elements, each decoded into a fresh zero value. */
    method Elements(e: Schema) returns (r: Result<seq<Value>>)
      modifies this
      ensures match Codec.ReadCount(data, old(pos))
              case Ok((n, q)) => Reads(r, pos, DecodeElems(e, n, data, q))
              case Err(x) => r == Err(x)
      decreases Size(e), 4, 0
    {
      hide Decode, DecodeElems, HasType, Size, Zero, Codec.ReadCount;
      var n := ReadCount();
      if n.Err? {
        return Err(n.error);
      }
      var done: seq<Value> := [];
      ghost var start := pos;
      PrependNone(DecodeElems(e, n.value, data, pos));
      for i := 0 to n.value
        invariant DecodeElems(e, n.value, data, start) == Prepend(done, DecodeElems(e, n.value - i, data, pos))
      {
        NextElem(done, e, n.value - i, data, pos);
        var m := ReadByte();
        if m.Err? {
          return Err(m.error);
        }
        var x := Value(e, m.value, Zero(e));
        if x.Err? {
          return Err(x.error);
        }
        done := done + [x.value];
      }
      NoElems(e, data, pos);
      assert done + [] == done;
      return Ok(done);
    }
  }

  /** Unmarshals into a target of struct type; what follows the item is not looked at. */
  method UnmarshalInto(sc: Schema, data: seq<byte>, t: Value) returns (r: Result<Value>)
    requires StructKind(sc) && HasType(sc, t)
    ensures r == Unmarshal(sc, data, t)
  {
    hide Decode, HasType;
    var d := new DecodeState(data);
    var meta := d.ReadByte();
    if meta.Err? {
      return Err(meta.error);
    }
    r := d.Value(sc, meta.value, t);
  }
}
