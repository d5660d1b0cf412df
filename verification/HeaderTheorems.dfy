/** Message headers are read back as they were written, whatever order the custom ones are written in. */
module HeaderTheorems {
  import opened Bytes
  import opened Utf16
  import opened Schema
  import opened Codec
  import Evolution
  import opened Versioning
  import opened Headers

  // ---- framing: a block of records ----

  lemma BlockOne(r: Record)
    ensures Block([r]) == RecordBytes(r) && Block([]) == []
  {
    assert [r][1..] == [];
  }

  lemma BlockFirst(r: Record, rest: seq<Record>)
    ensures Block([r] + rest) == RecordBytes(r) + Block(rest)
  {
    hide RecordBytes;
    assert ([r] + rest)[1..] == rest;
  }

  lemma {:induction false} BlockAppend(a: seq<Record>, b: seq<Record>)
    ensures Block(a + b) == Block(a) + Block(b)
  {
    if a == [] {
      assert a + b == b;
    } else {
      hide Block, RecordBytes;
      var r, rest := a[0], a[1..];
      BlockAppend(rest, b);
      BlockFirst(r, rest + b);
      BlockFirst(r, rest);
      assert a == [r] + rest && a + b == [r] + (rest + b);
      Assoc(RecordBytes(r), Block(rest), Block(b));
    }
  }

  lemma NextOfNothing()
    ensures NextRecord([]) == Err(Eof)
  {
  }

  /** Parsing a block of records that fit is applying them in order. */
  lemma {:induction false} ParseBlock(acts: Activators, h: Headers, rs: seq<Record>)
    requires ValidHeaders(h) && AllFit(rs)
    ensures ParseFrom(acts, h, Block(rs)) == ApplyAll(acts, h, rs)
    decreases |rs|
  {
    hide Apply, NextRecord, RecordBytes, ValidHeaders;
    if rs == [] {
      assert NextRecord([]) == Err(Eof) by { NextOfNothing(); }
    } else {
      NextOfBlock(rs[0], Block(rs[1..]));
      var g := Apply(acts, h, rs[0]);
      if g.Ok? {
        ParseBlock(acts, g.value, rs[1..]);
      }
    }
  }

  /** A record cut short is seen as the end of the block exactly when the cut falls before the record, between
      its id and its size, or between its size and its body. */
  lemma NextOfCut(r: Record, n: nat)
    requires Fits(r) && n < |RecordBytes(r)|
    ensures NextRecord(RecordBytes(r)[..n]) == Err(if n == 0 || n == 2 || n == 4 then Eof else Truncated)
  {
    var s := RecordBytes(r);
    assert s[2..4] == LE(|r.body|, 2);
    WordRoundTrip(|r.body|, 2);
    assert n >= 4 ==> s[..n][2..4] == s[2..4];
  }

  lemma {:induction false} PrefixStep(tail: seq<Record>, j: nat, n: nat)
    requires j < |tail| && n < |RecordBytes(tail[j])|
    ensures |Block(tail[..j])| + n <= |Block(tail)|
  {
    hide RecordBytes;
    if j == 0 {
      assert tail[..0] == [];
    } else {
      assert tail[..j][0] == tail[0] && tail[..j][1..] == tail[1..][..j - 1];
      PrefixStep(tail[1..], j - 1, n);
    }
  }

  /** What is read of a block cut `n` bytes into the record after the first `j`. */
  lemma {:induction false} ParseCut(acts: Activators, h: Headers, rs: seq<Record>, j: nat, n: nat)
    requires ValidHeaders(h) && AllFit(rs) && j < |rs| && n < |RecordBytes(rs[j])|
    ensures |Block(rs[..j])| + n <= |Block(rs)|
    ensures ParseFrom(acts, h, Block(rs)[..|Block(rs[..j])| + n]) ==
              if ApplyAll(acts, h, rs[..j]).Err? || n == 0 || n == 2 || n == 4 then ApplyAll(acts, h, rs[..j])
              else Err(Truncated)
    decreases j
  {
    hide Apply, NextRecord, ValidHeaders;
    if j == 0 {
      assert rs[..0] == [];
      assert Block(rs)[..n] == RecordBytes(rs[0])[..n];
      NextOfCut(rs[0], n);
    } else {
      var tail := rs[1..];
      assert rs[..j][0] == rs[0] && rs[..j][1..] == tail[..j - 1];
      var k := |Block(tail[..j - 1])| + n;
      var g := Apply(acts, h, rs[0]);
      PrefixStep(tail, j - 1, n);
      assert Block(rs)[..|RecordBytes(rs[0])| + k] == RecordBytes(rs[0]) + Block(tail)[..k];
      NextOfBlock(rs[0], Block(tail)[..k]);
      if g.Ok? {
        ParseCut(acts, g.value, tail, j - 1, n);
      }
    }
  }

  /** Every proper prefix of a block holds some whole records and a part, possibly empty, of the next one. */
  lemma {:induction false} CutAt(rs: seq<Record>, m: nat) returns (j: nat, n: nat)
    requires m < |Block(rs)|
    ensures j < |rs| && n < |RecordBytes(rs[j])| && m == |Block(rs[..j])| + n
    decreases |rs|
  {
    hide RecordBytes;
    var first := |RecordBytes(rs[0])|;
    if m < first {
      j, n := 0, m;
      assert rs[..0] == [];
    } else {
      var i;
      i, n := CutAt(rs[1..], m - first);
      j := i + 1;
      assert rs[..j][0] == rs[0] && rs[..j][1..] == rs[1..][..i];
    }
  }

  /** Any prefix of a block, cut after any `m` bytes, parses to what its `j` whole records give, or to an error;
      never to a part of the record the cut is in. `n` bytes of that record are left. */
  lemma ParsePrefix(acts: Activators, rs: seq<Record>, m: nat) returns (j: nat, n: nat)
    requires AllFit(rs) && m < |Block(rs)|
    ensures j < |rs| && n < |RecordBytes(rs[j])| && m == |Block(rs[..j])| + n
    ensures Parse(acts, Block(rs)[..m]) == Parse(acts, Block(rs[..j]))
            || (n != 0 && n != 2 && n != 4 && Parse(acts, Block(rs)[..m]) == Err(Truncated))
    ensures n == 0 || n == 2 || n == 4 ==> Parse(acts, Block(rs)[..m]) == Parse(acts, Block(rs[..j]))
  {
    hide Block, RecordBytes, ParseFrom, ApplyAll;
    j, n := CutAt(rs, m);
    ParseCut(acts, NO_HEADERS, rs, j, n);
    ParseBlock(acts, NO_HEADERS, rs[..j]);
  }

  lemma {:induction false} ApplyConcat(acts: Activators, h: Headers, a: seq<Record>, b: seq<Record>)
    requires ValidHeaders(h)
    ensures var x := ApplyAll(acts, h, a);
            ApplyAll(acts, h, a + b) == if x.Ok? then ApplyAll(acts, x.value, b) else x
    decreases |a|
  {
    hide Apply, ValidHeaders;
    if a == [] {
      assert a + b == b;
    } else {
      assert (a + b)[0] == a[0] && (a + b)[1..] == a[1..] + b;
      var g := Apply(acts, h, a[0]);
      if g.Ok? {
        ApplyConcat(acts, g.value, a[1..], b);
      }
    }
  }

  // ---- the fixed headers ----

  /** The encoding of `v`, if it fits a header, unmarshals to `v`. */
  predicate ComesBack(sc: Schema, v: Value, t: Value)
    requires Supported(sc) && HasType(sc, v) && HasType(sc, t)
  {
    |Marshalled(sc, v)| < 0x1_0000 ==> Unmarshal(sc, Marshalled(sc, v), t) == Ok(v)
  }

  lemma UnmarshalOwn(sc: Schema, v: Value, t: Value)
    requires Supported(sc) && HasType(sc, v) && HasType(sc, t)
    ensures ComesBack(sc, v, t)
  {
    hide Encode, Unmarshal, HasType, Supported;
    var e := RoundTrip(sc, v, t, []);
    assert e + [] == e;
  }

  lemma IdBack(id: MessageId, prior: MessageId)
    requires IsGuid(id.guid) && IsGuid(prior.guid) && |IdBody(id)| < 0x1_0000
    ensures ParseId(IdBody(id), prior) == Ok(id)
  {
    TwoHaveType(Guid, Num(false, 4), IdValue(id));
    TwoHaveType(Guid, Num(false, 4), IdValue(prior));
    TwoSupported(Guid, Num(false, 4));
    hide Unmarshal, Supported, HasType, Marshalled;
    UnmarshalOwn(IdType(), IdValue(id), IdValue(prior));
  }

  lemma ActorBack(n: i64)
    requires |ActorBody(n)| < 0x1_0000
    ensures ParseActor(ActorBody(n)) == Ok(n)
  {
    OneHasType(Num(true, 8), One(VInt(n)));
    OneSupported(Num(true, 8));
    hide Unmarshal, Supported, HasType, Marshalled, Zero;
    UnmarshalOwn(ActorType(), One(VInt(n)), Zero(ActorType()));
  }

  lemma ActionBack(s: seq<Rune>)
    requires |ActionBody(s)| < 0x1_0000
    ensures ParseAction(ActionBody(s)) == Ok(s)
  {
    OneHasType(Str, One(VStr(s)));
    OneSupported(Str);
    hide Unmarshal, Supported, HasType, Marshalled, Zero;
    UnmarshalOwn(ActionType(), One(VStr(s)), Zero(ActionType()));
  }

  lemma FlagBack(b: bool)
    requires |FlagBody(b)| < 0x1_0000
    ensures ParseFlag(FlagBody(b)) == Ok(b)
  {
    OneHasType(Bool, One(VBool(b)));
    OneSupported(Bool);
    hide Unmarshal, Supported, HasType, Marshalled, Zero;
    UnmarshalOwn(FlagType(), One(VBool(b)), Zero(FlagType()));
  }

  lemma FaultBack(n: i64, b: bool)
    requires |FaultBody(n, b)| < 0x1_0000
    ensures ParseFault(FaultBody(n, b)) == Ok((n, b))
  {
    TwoHaveType(Num(true, 8), Bool, VStruct([VInt(n), VBool(b)]));
    TwoSupported(Num(true, 8), Bool);
    hide Unmarshal, Supported, HasType, Marshalled, Zero;
    UnmarshalOwn(FaultType(), VStruct([VInt(n), VBool(b)]), Zero(FaultType()));
  }

  lemma RetryBack(n: i32)
    requires |RetryBody(n)| < 0x1_0000
    ensures ParseRetry(RetryBody(n)) == Ok(n)
  {
    OneHasType(Num(true, 4), One(VInt(n)));
    OneSupported(Num(true, 4));
    hide Unmarshal, Supported, HasType, Marshalled, Zero;
    UnmarshalOwn(RetryType(), One(VInt(n)), Zero(RetryType()));
  }

  lemma OneRecord(acts: Activators, h: Headers, r: Record)
    requires ValidHeaders(h)
    ensures ApplyAll(acts, h, [r]) == Apply(acts, h, r)
    ensures ApplyAll(acts, h, []) == Ok(h)
  {
    assert [r][1..] == [];
  }

  /** An optional record: applied when written; when not, the target must already hold what it would say. */
  lemma OptBack(acts: Activators, h: Headers, c: bool, r: Record, g: Headers, rest: seq<Record>)
    requires ValidHeaders(h) && ValidHeaders(g)
    requires if c then Apply(acts, h, r) == Ok(g) else g == h
    ensures ApplyAll(acts, h, Opt(c, r) + rest) == ApplyAll(acts, g, rest)
  {
    hide Apply, ValidHeaders, ApplyAll;
    OneRecord(acts, h, r);
    ApplyConcat(acts, h, Opt(c, r), rest);
  }

  /** `h` without custom headers, and with the retry count as far as it is written. */
  function Fixed(h: Headers): Headers {
    h.(custom := map[], retryCount := if h.retryCount > 0 then h.retryCount else 0)
  }

  lemma FitSplit(a: seq<Record>, b: seq<Record>)
    requires AllFit(a + b)
    ensures AllFit(a) && AllFit(b)
  {
    forall i | 0 <= i < |a| ensures Fits(a[i]) {
      assert (a + b)[i] == a[i];
    }
    forall i | 0 <= i < |b| ensures Fits(b[i]) {
      assert (a + b)[|a| + i] == b[i];
    }
  }

  lemma FitOpt(c: bool, r: Record, rest: seq<Record>)
    requires AllFit(Opt(c, r) + rest)
    ensures (c ==> Fits(r)) && AllFit(rest)
  {
    FitSplit(Opt(c, r), rest);
    assert c ==> Opt(c, r)[0] == r;
  }

  lemma FitLast(c: bool, r: Record)
    requires AllFit(Opt(c, r))
    ensures c ==> Fits(r)
  {
    assert c ==> Opt(c, r)[0] == r;
  }

  function FromFault(h: Headers): seq<Record> {
    Opt(h.errorCode != 0 || h.hasFaultBody, Record(FAULT, FaultBody(h.errorCode, h.hasFaultBody)))
    + Opt(h.retryCount > 0, Record(RETRY, RetryBody(h.retryCount)))
  }

  function FromFlags(h: Headers): seq<Record> {
    Opt(h.expectsReply, Record(EXPECTS_REPLY, FlagBody(h.expectsReply)))
    + (Opt(h.highPriority, Record(HIGH_PRIORITY, FlagBody(h.highPriority)))
    + (Opt(h.idempotent, Record(IDEMPOTENT, FlagBody(h.idempotent)))
    + FromFault(h)))
  }

  function FromActor(h: Headers): seq<Record> {
    [Record(ACTOR, ActorBody(h.actor))]
    + (Opt(h.action != [], Record(ACTION, ActionBody(h.action))) + FromFlags(h))
  }

  lemma FaultApplied(acts: Activators, h: Headers, g: Headers)
    requires ValidHeaders(g) && AllFit(FromFault(h))
    requires g.errorCode == 0 && !g.hasFaultBody && g.retryCount == 0
    ensures ApplyAll(acts, g, FromFault(h)) ==
            Ok(g.(errorCode := h.errorCode, hasFaultBody := h.hasFaultBody, retryCount := Fixed(h).retryCount))
  {
    hide ApplyAll, FaultBody, RetryBody, ParseFault, ParseRetry, ParseId, ParseActor, ParseAction, ParseFlag, Receive;
    var fault, retry := Record(FAULT, FaultBody(h.errorCode, h.hasFaultBody)), Record(RETRY, RetryBody(h.retryCount));
    FitOpt(h.errorCode != 0 || h.hasFaultBody, fault, Opt(h.retryCount > 0, retry));
    FitLast(h.retryCount > 0, retry);
    if h.errorCode != 0 || h.hasFaultBody {
      FaultBack(h.errorCode, h.hasFaultBody);
    }
    var g1 := g.(errorCode := h.errorCode, hasFaultBody := h.hasFaultBody);
    OptBack(acts, g, h.errorCode != 0 || h.hasFaultBody, fault, g1, Opt(h.retryCount > 0, retry));
    if h.retryCount > 0 {
      RetryBack(h.retryCount);
    }
    var g2 := g1.(retryCount := Fixed(h).retryCount);
    assert Opt(h.retryCount > 0, retry) == Opt(h.retryCount > 0, retry) + [];
    OptBack(acts, g1, h.retryCount > 0, retry, g2, []);
    OneRecord(acts, g2, retry);
  }

  lemma FlagsApplied(acts: Activators, h: Headers, g: Headers)
    requires ValidHeaders(g) && AllFit(FromFlags(h))
    requires !g.expectsReply && !g.highPriority && !g.idempotent
    ensures ApplyAll(acts, g, FromFlags(h)) == ApplyAll(acts,
              g.(expectsReply := h.expectsReply, highPriority := h.highPriority, idempotent := h.idempotent),
              FromFault(h))
    ensures AllFit(FromFault(h))
  {
    hide ApplyAll, FlagBody, FromFault, ParseFault, ParseRetry, ParseId, ParseActor, ParseAction, ParseFlag, Receive;
    var expects := Record(EXPECTS_REPLY, FlagBody(h.expectsReply));
    var high := Record(HIGH_PRIORITY, FlagBody(h.highPriority));
    var idem := Record(IDEMPOTENT, FlagBody(h.idempotent));
    var t2 := Opt(h.idempotent, idem) + FromFault(h);
    var t1 := Opt(h.highPriority, high) + t2;
    FitOpt(h.expectsReply, expects, t1);
    FitOpt(h.highPriority, high, t2);
    FitOpt(h.idempotent, idem, FromFault(h));
    var g1 := g.(expectsReply := h.expectsReply);
    var g2 := g1.(highPriority := h.highPriority);
    var g3 := g2.(idempotent := h.idempotent);
    if h.expectsReply || h.highPriority || h.idempotent {
      FlagBack(true);
    }
    OptBack(acts, g, h.expectsReply, expects, g1, t1);
    OptBack(acts, g1, h.highPriority, high, g2, t2);
    OptBack(acts, g2, h.idempotent, idem, g3, FromFault(h));
  }

  lemma ActorApplied(acts: Activators, h: Headers, g: Headers)
    requires ValidHeaders(g) && AllFit(FromActor(h)) && g.action == []
    ensures ApplyAll(acts, g, FromActor(h)) == ApplyAll(acts, g.(actor := h.actor, action := h.action), FromFlags(h))
    ensures AllFit(FromFlags(h))
  {
    hide ApplyAll, ActorBody, ActionBody, FromFlags, ParseFault, ParseRetry, ParseId, ParseActor, ParseAction,
         ParseFlag, Receive;
    var actor, action := Record(ACTOR, ActorBody(h.actor)), Record(ACTION, ActionBody(h.action));
    var t := Opt(h.action != [], action) + FromFlags(h);
    FitOpt(true, actor, t);
    FitOpt(h.action != [], action, FromFlags(h));
    ActorBack(h.actor);
    if h.action != [] {
      ActionBack(h.action);
    }
    OptBack(acts, g, true, actor, g.(actor := h.actor), t);
    OptBack(acts, g.(actor := h.actor), h.action != [], action, g.(actor := h.actor, action := h.action), FromFlags(h));
  }

  lemma FixedShape(h: Headers)
    requires ValidHeaders(h)
    ensures FixedRecords(h) == Opt(true, Record(MESSAGE_ID, IdBody(h.id)))
              + (Opt(h.relatesTo != EMPTY_ID, Record(RELATES_TO, IdBody(h.relatesTo))) + FromActor(h))
  {
    hide IdBody, ActorBody, ActionBody, FlagBody, FaultBody, RetryBody;
  }

  lemma IdsApplied(acts: Activators, h: Headers)
    requires ValidHeaders(h) && AllFit(FixedRecords(h))
    ensures ApplyAll(acts, NO_HEADERS, FixedRecords(h)) ==
            ApplyAll(acts, NO_HEADERS.(id := h.id, relatesTo := h.relatesTo), FromActor(h))
    ensures AllFit(FromActor(h))
  {
    hide ApplyAll, IdBody, ParseFault, ParseRetry, ParseId, ParseActor, ParseAction, ParseFlag, Receive, FromActor;
    var id, relates := Record(MESSAGE_ID, IdBody(h.id)), Record(RELATES_TO, IdBody(h.relatesTo));
    var t := Opt(h.relatesTo != EMPTY_ID, relates) + FromActor(h);
    FixedShape(h);
    FitOpt(true, id, t);
    FitOpt(h.relatesTo != EMPTY_ID, relates, FromActor(h));
    IdBack(h.id, EMPTY_ID);
    if h.relatesTo != EMPTY_ID {
      IdBack(h.relatesTo, EMPTY_ID);
    }
    var g := NO_HEADERS.(id := h.id);
    OptBack(acts, NO_HEADERS, true, id, g, t);
    OptBack(acts, g, h.relatesTo != EMPTY_ID, relates, g.(relatesTo := h.relatesTo), FromActor(h));
  }

  /** The fixed headers, read back. */
  lemma FixedBack(acts: Activators, h: Headers)
    requires ValidHeaders(h) && AllFit(FixedRecords(h))
    ensures ApplyAll(acts, NO_HEADERS, FixedRecords(h)) == Ok(Fixed(h))
  {
    hide Apply, ApplyAll, FixedRecords, FromActor, FromFlags, FromFault, AllFit;
    IdsApplied(acts, h);
    var g1 := NO_HEADERS.(id := h.id, relatesTo := h.relatesTo);
    ActorApplied(acts, h, g1);
    var g2 := g1.(actor := h.actor, action := h.action);
    FlagsApplied(acts, h, g2);
    FaultApplied(acts, h,
      g2.(expectsReply := h.expectsReply, highPriority := h.highPriority, idempotent := h.idempotent));
  }

  // ---- custom headers ----

  /** What a list of custom headers of one id arrives as. */
  function ReceiveAll(acts: Activators, k: HeaderId, ps: seq<Payload>): Result<seq<Payload>>
    requires forall i :: 0 <= i < |ps| ==> ValidPayload(ps[i])
  {
    if ps == [] then Ok([])
    else
      var b :- MarshalPayload(ps[0]);
      var p :- Receive(acts, k, b);
      var rest :- ReceiveAll(acts, k, ps[1..]);
      Ok([p] + rest)
  }

  predicate PayloadFits(p: Payload)
    requires ValidPayload(p)
  {
    MarshalPayload(p).Ok? && |MarshalPayload(p).value| < 0x1_0000
  }

  predicate ListFits(ps: seq<Payload>) {
    forall i {:trigger ps[i]} :: 0 <= i < |ps| ==> ValidPayload(ps[i]) && PayloadFits(ps[i])
  }

  /** Every record of `h` can be marshalled and fits its 16-bit size. */
  predicate HeadersFit(h: Headers)
    requires ValidHeaders(h)
  {
    AllFit(FixedRecords(h)) && forall k {:trigger h.custom[k]} :: k in h.custom ==> ListFits(h.custom[k])
  }

  function AppendAll(m: map<HeaderId, seq<Payload>>, k: HeaderId, xs: seq<Payload>): map<HeaderId, seq<Payload>> {
    if xs == [] then m else m[k := (if k in m then m[k] else []) + xs]
  }

  lemma {:induction false} ListWrites(k: HeaderId, ps: seq<Payload>)
    requires ListFits(ps)
    ensures ListRecords(k, ps).Ok? && AllFit(ListRecords(k, ps).value)
    ensures |ListRecords(k, ps).value| == |ps|
  {
    hide MarshalPayload;
    if ps != [] {
      ListWrites(k, ps[1..]);
    }
  }

  lemma AppendFirst(m: map<HeaderId, seq<Payload>>, k: HeaderId, p: Payload, xs: seq<Payload>)
    ensures AppendAll(Append(m, k, p), k, xs) == AppendAll(m, k, [p] + xs)
  {
    var base := if k in m then m[k] else [];
    assert base + [p] + xs == base + ([p] + xs);
    assert xs == [] ==> base + [p] == base + ([p] + xs);
  }

  lemma ApplyCustom(acts: Activators, h: Headers, k: HeaderId, b: seq<byte>)
    requires ValidHeaders(h) && !Reserved(k)
    ensures Apply(acts, h, Record(k, b)) ==
              if Dropped(k) then Ok(h)
              else if Receive(acts, k, b).Ok? then Ok(h.(custom := Append(h.custom, k, Receive(acts, k, b).value)))
              else Err(Receive(acts, k, b).error)
  {
    hide Receive;
  }

  lemma AppendNothing(m: map<HeaderId, seq<Payload>>, k: HeaderId)
    ensures AppendAll(m, k, []) == m
  {
  }

  /** Applying the records of one list appends what it arrives as, or fails where that fails. */
  lemma {:induction false} ListApplied(acts: Activators, h: Headers, k: HeaderId, ps: seq<Payload>)
    requires ValidHeaders(h) && ListFits(ps) && !Reserved(k)
    ensures ListRecords(k, ps).Ok?
    ensures var x := ApplyAll(acts, h, ListRecords(k, ps).value);
            if Dropped(k) then x == Ok(h)
            else if ReceiveAll(acts, k, ps).Ok? then
              x == Ok(h.(custom := AppendAll(h.custom, k, ReceiveAll(acts, k, ps).value)))
            else x == Err(ReceiveAll(acts, k, ps).error)
    decreases |ps|
  {
    hide MarshalPayload, Receive, Apply, Append, AppendAll, ValidHeaders;
    ListWrites(k, ps);
    if ps == [] {
      AppendNothing(h.custom, k);
    } else {
      ListWrites(k, ps[1..]);
      var b := MarshalPayload(ps[0]).value;
      ApplyCustom(acts, h, k, b);
      assert ListRecords(k, ps).value[1..] == ListRecords(k, ps[1..]).value;
      var g := Apply(acts, h, Record(k, b));
      if g.Ok? {
        ListApplied(acts, g.value, k, ps[1..]);
        if !Dropped(k) && ReceiveAll(acts, k, ps[1..]).Ok? {
          AppendFirst(h.custom, k, Receive(acts, k, b).value, ReceiveAll(acts, k, ps[1..]).value);
        }
      }
    }
  }

  /** What the custom headers arrive as when written in the given order of ids. */
  function Arrive(acts: Activators, m: map<HeaderId, seq<Payload>>, order: seq<HeaderId>)
    : Result<map<HeaderId, seq<Payload>>>
    requires ValidCustom(m) && forall k :: k in order ==> k in m
  {
    if order == [] then Ok(map[])
    else
      var k := order[0];
      if Dropped(k) then Arrive(acts, m, order[1..])
      else
        var xs :- ReceiveAll(acts, k, m[k]);
        var rest :- Arrive(acts, m, order[1..]);
        Ok(if xs == [] then rest else rest[k := xs])
  }

  predicate CustomFits(m: map<HeaderId, seq<Payload>>) {
    forall k {:trigger m[k]} :: k in m ==> ListFits(m[k]) && !Reserved(k)
  }

  lemma {:induction false} CustomWrites(m: map<HeaderId, seq<Payload>>, order: seq<HeaderId>)
    requires ValidCustom(m) && CustomFits(m) && forall k :: k in order ==> k in m
    ensures CustomRecords(m, order).Ok? && AllFit(CustomRecords(m, order).value)
  {
    hide ListFits, ListRecords;
    if order != [] {
      ListWrites(order[0], m[order[0]]);
      CustomWrites(m, order[1..]);
    }
  }

  lemma {:induction false} ArriveKeys(acts: Activators, m: map<HeaderId, seq<Payload>>, order: seq<HeaderId>)
    requires ValidCustom(m) && forall k :: k in order ==> k in m
    ensures Arrive(acts, m, order).Ok? ==> forall k :: k in Arrive(acts, m, order).value ==> k in order
  {
    hide ReceiveAll;
    if order != [] {
      ArriveKeys(acts, m, order[1..]);
    }
  }

  lemma AppendedValid(acts: Activators, h: Headers, k: HeaderId, ps: seq<Payload>)
    requires ValidHeaders(h) && ListFits(ps) && !Reserved(k) && !Dropped(k) && ReceiveAll(acts, k, ps).Ok?
    ensures ValidHeaders(h.(custom := AppendAll(h.custom, k, ReceiveAll(acts, k, ps).value)))
  {
    hide ReceiveAll, ApplyAll, ListFits, ListRecords;
    ListApplied(acts, h, k, ps);
  }

  lemma MergeOrder(c: map<HeaderId, seq<Payload>>, k: HeaderId, xs: seq<Payload>, a: map<HeaderId, seq<Payload>>)
    requires k !in c && k !in a
    ensures AppendAll(c, k, xs) + a == c + (if xs == [] then a else a[k := xs])
  {
    assert [] + xs == xs;
  }

  lemma {:induction false} CustomApplied(acts: Activators, h: Headers, m: map<HeaderId, seq<Payload>>,
                                         order: seq<HeaderId>)
    requires ValidHeaders(h) && ValidCustom(m) && CustomFits(m)
    requires Distinct(order) && forall k :: k in order ==> k in m && k !in h.custom
    ensures CustomRecords(m, order).Ok?
    ensures var x := ApplyAll(acts, h, CustomRecords(m, order).value);
            if Arrive(acts, m, order).Ok? then x == Ok(h.(custom := h.custom + Arrive(acts, m, order).value))
            else x == Err(Arrive(acts, m, order).error)
    decreases |order|
  {
    hide ReceiveAll, ListFits, ListRecords, Apply, ApplyAll, ValidHeaders, Dropped, Reserved, AllFit;
    CustomWrites(m, order);
    if order == [] {
      OneRecord(acts, h, Record(0, []));
      assert h.custom + map[] == h.custom;
    } else {
      var k, tail := order[0], order[1..];
      CustomWrites(m, tail);
      ListApplied(acts, h, k, m[k]);
      ApplyConcat(acts, h, ListRecords(k, m[k]).value, CustomRecords(m, tail).value);
      ArriveKeys(acts, m, tail);
      if Dropped(k) {
        CustomApplied(acts, h, m, tail);
      } else if ReceiveAll(acts, k, m[k]).Ok? {
        var xs := ReceiveAll(acts, k, m[k]).value;
        var g := h.(custom := AppendAll(h.custom, k, xs));
        AppendedValid(acts, h, k, m[k]);
        CustomApplied(acts, g, m, tail);
        if Arrive(acts, m, tail).Ok? {
          MergeOrder(h.custom, k, xs, Arrive(acts, m, tail).value);
        }
      }
    }
  }

  // ---- the order does not matter ----

  /** Every custom header that is not skipped can be received. */
  ghost predicate Arrives(acts: Activators, m: map<HeaderId, seq<Payload>>)
    requires ValidCustom(m)
  {
    forall k {:trigger m[k]} :: k in m && !Dropped(k) ==> ReceiveAll(acts, k, m[k]).Ok?
  }

  ghost function Arrived(acts: Activators, m: map<HeaderId, seq<Payload>>): map<HeaderId, seq<Payload>>
    requires ValidCustom(m) && Arrives(acts, m)
  {
    map k | k in m && !Dropped(k) && ReceiveAll(acts, k, m[k]).value != [] :: ReceiveAll(acts, k, m[k]).value
  }

  lemma {:induction false} ArriveEach(acts: Activators, m: map<HeaderId, seq<Payload>>, order: seq<HeaderId>)
    requires ValidCustom(m) && Distinct(order) && forall k :: k in order ==> k in m
    ensures Arrive(acts, m, order).Ok? <==> forall k :: k in order && !Dropped(k) ==> ReceiveAll(acts, k, m[k]).Ok?
    ensures Arrive(acts, m, order).Ok? ==>
              var a := Arrive(acts, m, order).value;
              && (forall k :: k in a <==> k in order && !Dropped(k) && ReceiveAll(acts, k, m[k]).value != [])
              && (forall k :: k in a ==> a[k] == ReceiveAll(acts, k, m[k]).value)
    decreases |order|
  {
    hide ReceiveAll;
    if order != [] {
      ArriveEach(acts, m, order[1..]);
      assert forall k :: k in order <==> k == order[0] || k in order[1..];
    }
  }

  /** Whatever order the ids are enumerated in, the same headers arrive, or none do. */
  lemma AnyOrder(acts: Activators, m: map<HeaderId, seq<Payload>>, order: seq<HeaderId>)
    requires ValidCustom(m) && Enumerates(order, m)
    ensures Arrive(acts, m, order).Ok? <==> Arrives(acts, m)
    ensures Arrives(acts, m) ==> Arrive(acts, m, order) == Ok(Arrived(acts, m))
  {
    hide ReceiveAll;
    ArriveEach(acts, m, order);
    assert Arrive(acts, m, order).Ok? <==> Arrives(acts, m);
    if Arrives(acts, m) {
      var a, b := Arrive(acts, m, order).value, Arrived(acts, m);
      assert forall k :: k in a <==> k in b;
      assert a == b;
    }
  }

  lemma FixedValid(h: Headers)
    requires ValidHeaders(h)
    ensures ValidHeaders(Fixed(h)) && ValidHeaders(NO_HEADERS) && ValidCustom(h.custom)
  {
  }

  lemma ParseStart(acts: Activators, rs: seq<Record>)
    requires AllFit(rs)
    ensures Parse(acts, Block(rs)) == ApplyAll(acts, NO_HEADERS, rs)
  {
    ParseBlock(acts, NO_HEADERS, rs);
  }

  lemma ApplyFromNothing(acts: Activators, a: seq<Record>, b: seq<Record>)
    ensures var x := ApplyAll(acts, NO_HEADERS, a);
            ApplyAll(acts, NO_HEADERS, a + b) == if x.Ok? then ApplyAll(acts, x.value, b) else x
  {
    ApplyConcat(acts, NO_HEADERS, a, b);
  }

  lemma FitConcat(a: seq<Record>, b: seq<Record>)
    requires AllFit(a) && AllFit(b)
    ensures AllFit(a + b)
  {
  }

  /** Headers round trip: parsing what was written, in any order of the custom headers, gives back the fixed
      headers and each id's custom headers in order; it fails exactly when one of those cannot be received. */
  lemma HeadersRoundTrip(acts: Activators, h: Headers, order: seq<HeaderId>)
    requires ValidHeaders(h) && HeadersFit(h) && CustomFits(h.custom) && Enumerates(order, h.custom)
    ensures WriteTo(h, order).Ok?
    ensures Arrives(acts, h.custom) ==>
              Parse(acts, WriteTo(h, order).value) == Ok(Fixed(h).(custom := Arrived(acts, h.custom)))
    ensures !Arrives(acts, h.custom) ==> Parse(acts, WriteTo(h, order).value).Err?
  {
    hide FixedRecords, CustomRecords, ParseFrom, ApplyAll, Arrives, Arrived, ListFits, Arrive, ValidHeaders;
    FixedValid(h);
    var custom := CustomRecords(h.custom, order);
    CustomWrites(h.custom, order);
    FitConcat(FixedRecords(h), custom.value);
    ParseStart(acts, FixedRecords(h) + custom.value);
    ApplyFromNothing(acts, FixedRecords(h), custom.value);
    FixedBack(acts, h);
    CustomApplied(acts, Fixed(h), h.custom, order);
    AnyOrder(acts, h.custom, order);
    if Arrives(acts, h.custom) {
      assert map[] + Arrived(acts, h.custom) == Arrived(acts, h.custom);
    }
  }

  /** Exactly when the headers come back identical. A negative retry count never does: it is not written. */
  lemma BackExactly(acts: Activators, h: Headers, order: seq<HeaderId>)
    requires ValidHeaders(h) && HeadersFit(h) && CustomFits(h.custom) && Enumerates(order, h.custom)
    ensures WriteTo(h, order).Ok?
    ensures Parse(acts, WriteTo(h, order).value) == Ok(h) <==>
              h.retryCount >= 0 && Arrives(acts, h.custom) && Arrived(acts, h.custom) == h.custom
  {
    hide Parse, WriteTo, Arrives, Arrived, ListFits, HeadersFit, CustomFits;
    HeadersRoundTrip(acts, h, order);
    var x := Parse(acts, WriteTo(h, order).value);
    if Arrives(acts, h.custom) {
      assert x == Ok(Fixed(h).(custom := Arrived(acts, h.custom)));
    }
  }

  /** A typed custom header read under an activator of another version of its type arrives converted. */
  lemma TypedArrives(acts: Activators, k: HeaderId, w: Schema, v: Value)
    requires k in acts && StructKind(w) && StructKind(acts[k]) && Evolution.Compat(w, acts[k])
    requires HasType(w, v) && PayloadFits(Typed(w, v))
    ensures Receive(acts, k, MarshalPayload(Typed(w, v)).value) ==
            Ok(Typed(acts[k], Evolution.Convert(w, acts[k], v, Zero(acts[k]))))
  {
    hide Encode, Unmarshal, HasType, Evolution.Convert, Evolution.Compat;
    var e := Encode(w, v).value;
    SchemaEvolution(w, acts[k], v, Zero(acts[k]), e, []);
    assert e + [] == e;
  }
}
