/** The forwarding loop of the proxy, and what any number of hops through it leaves unchanged. */
module Proxy {
  import opened Bytes
  import opened Schema
  import opened Codec
  import opened Versioning
  import opened Headers
  import opened HeaderTheorems
  import opened Frames

  // ---- headers that came out of the parser ----

  predicate SettledPayload(acts: Activators, k: HeaderId, p: Payload) {
    if k in acts then p.Typed? && p.ty == acts[k] && StructKind(p.ty) && HasType(p.ty, p.val) else p.Raw?
  }

  predicate SettledList(acts: Activators, k: HeaderId, ps: seq<Payload>) {
    ps != [] && forall i {:trigger ps[i]} :: 0 <= i < |ps| ==> SettledPayload(acts, k, ps[i])
  }

  /** Custom headers as the parser leaves them: under ids of their own, no list empty, typed where an activator
      is registered and raw otherwise. */
  predicate Settled(acts: Activators, h: Headers) {
    forall k {:trigger h.custom[k]} :: k in h.custom ==>
      !Reserved(k) && !Dropped(k) && SettledList(acts, k, h.custom[k])
  }

  lemma ReceiveSettles(acts: Activators, k: HeaderId, b: seq<byte>)
    ensures Receive(acts, k, b).Ok? ==> SettledPayload(acts, k, Receive(acts, k, b).value)
  {
  }

  lemma FixedKeepsCustom(acts: Activators, h: Headers, r: Record)
    requires ValidHeaders(h) && (Reserved(r.id) || Dropped(r.id))
    ensures Apply(acts, h, r).Ok? ==> Apply(acts, h, r).value.custom == h.custom
  {
    hide ParseId, ParseActor, ParseAction, ParseFlag, ParseFault, ParseRetry, Receive, ValidHeaders;
  }

  lemma ApplySettles(acts: Activators, h: Headers, r: Record)
    requires ValidHeaders(h) && Settled(acts, h)
    ensures Apply(acts, h, r).Ok? ==> Settled(acts, Apply(acts, h, r).value)
  {
    if Reserved(r.id) || Dropped(r.id) {
      FixedKeepsCustom(acts, h, r);
    } else {
      hide Apply, Receive, SettledPayload, ValidHeaders;
      ApplyCustom(acts, h, r.id, r.body);
      ReceiveSettles(acts, r.id, r.body);
    }
  }

  lemma {:induction false} ParseFromSettles(acts: Activators, h: Headers, s: seq<byte>)
    requires ValidHeaders(h) && Settled(acts, h)
    ensures ParseFrom(acts, h, s).Ok? ==> Settled(acts, ParseFrom(acts, h, s).value)
    decreases |s|
  {
    hide Apply, NextRecord, Settled, ValidHeaders;
    if NextRecord(s).Ok? {
      var (r, rest) := NextRecord(s).value;
      ApplySettles(acts, h, r);
      if Apply(acts, h, r).Ok? {
        ParseFromSettles(acts, Apply(acts, h, r).value, rest);
      }
    }
  }

  /** Whatever bytes are parsed, the headers are settled. */
  lemma ParseSettles(acts: Activators, s: seq<byte>)
    ensures Parse(acts, s).Ok? ==> Settled(acts, Parse(acts, s).value)
  {
    ParseFromSettles(acts, NO_HEADERS, s);
  }

  /** Activators are registered for types the encoder supports. */
  predicate ActivatorsSupported(acts: Activators) {
    forall k {:trigger acts[k]} :: k in acts ==> Supported(acts[k])
  }

  lemma SettledReceived(acts: Activators, k: HeaderId, p: Payload)
    requires ActivatorsSupported(acts) && SettledPayload(acts, k, p) && ValidPayload(p) && PayloadFits(p)
    ensures Receive(acts, k, MarshalPayload(p).value) == Ok(p)
  {
    hide Encode, Unmarshal, HasType, Supported;
    if k in acts {
      var e := RoundTrip(acts[k], p.val, Zero(acts[k]), []);
      assert e + [] == e;
    }
  }

  lemma {:induction false} SettledListReceived(acts: Activators, k: HeaderId, ps: seq<Payload>)
    requires ActivatorsSupported(acts) && ListFits(ps)
    requires forall i {:trigger ps[i]} :: 0 <= i < |ps| ==> SettledPayload(acts, k, ps[i])
    ensures ReceiveAll(acts, k, ps) == Ok(ps)
  {
    hide Receive, MarshalPayload, SettledPayload, ActivatorsSupported;
    if ps != [] {
      SettledReceived(acts, k, ps[0]);
      SettledListReceived(acts, k, ps[1..]);
      assert [ps[0]] + ps[1..] == ps;
    }
  }

  /** Settled custom headers arrive unchanged. */
  lemma SettledArrives(acts: Activators, h: Headers)
    requires ActivatorsSupported(acts) && ValidHeaders(h) && Settled(acts, h) && CustomFits(h.custom)
    ensures ValidCustom(h.custom) && Arrives(acts, h.custom) && Arrived(acts, h.custom) == h.custom
  {
    hide ReceiveAll, ListFits, ActivatorsSupported, SettledPayload;
    forall k | k in h.custom ensures ReceiveAll(acts, k, h.custom[k]) == Ok(h.custom[k]) {
      SettledListReceived(acts, k, h.custom[k]);
    }
  }

  /** Exactly when headers come back identical: their retry count is not negative, and their custom headers are
      settled. */
  lemma BackIffSettled(acts: Activators, h: Headers, order: seq<HeaderId>)
    requires ActivatorsSupported(acts)
    requires ValidHeaders(h) && HeadersFit(h) && CustomFits(h.custom) && Enumerates(order, h.custom)
    ensures WriteTo(h, order).Ok?
    ensures Parse(acts, WriteTo(h, order).value) == Ok(h) <==> h.retryCount >= 0 && Settled(acts, h)
  {
    hide Parse, WriteTo, Arrives, Arrived, HeadersFit, CustomFits, Settled, ActivatorsSupported, ValidHeaders;
    BackExactly(acts, h, order);
    if Settled(acts, h) {
      SettledArrives(acts, h);
    }
    ParseSettles(acts, WriteTo(h, order).value);
  }

  // ---- one hop ----

  /** What the two connections of a direction are configured with. */
  datatype Hop = Hop(source: ReadConfig, dest: WriteConfig)

  function Copy(h: Headers, b: seq<byte>): Message {
    Message(h, Some(Raw(b)))
  }

  /** A filter sees each message and drops it or gives the one to send instead. */
  type Filter = (Headers, seq<byte>) -> Option<Message>

  function Filtered(filter: Option<Filter>, h: Headers, b: seq<byte>): Option<Message> {
    if filter.None? then Some(Copy(h, b)) else filter.value(h, b)
  }

  /** What a filter returns is a message of the program: its values have the types they claim. */
  ghost predicate FilterOk(filter: Option<Filter>) {
    filter.Some? ==> forall h, b {:trigger filter.value(h, b)} ::
                       filter.value(h, b).Some? ==> ValidMessage(filter.value(h, b).value)
  }

  /** The loop of one direction: `out` is what it sends for the input `s`, the custom headers of the messages
      sent having been enumerated in `orders`. */
  ghost predicate Copies(crc: Checksums, acts: Activators, hop: Hop, filter: Option<Filter>, s: seq<byte>,
                         orders: seq<seq<HeaderId>>, out: seq<byte>)
    requires FilterOk(filter)
    decreases |s|
  {
    match NextMessage(crc, acts, hop.source, s)
    case Err(_) => orders == [] && out == []
    case Ok((h, b, rest)) =>
      match Filtered(filter, h, b)
      case None => Copies(crc, acts, hop, filter, rest, orders, out)
      case Some(m) =>
        && orders != [] && ValidMessage(m) && Enumerates(orders[0], m.headers.custom)
        && match Packet(crc, m, orders[0], hop.dest)
           case Err(_) => |orders| == 1 && out == []
           case Ok(p) => p <= out && Copies(crc, acts, hop, filter, rest, orders[1..], out[|p|..])
  }

  /** A parsed message that can be written again: its parts fit their size fields. */
  ghost predicate Passable(h: Headers, b: seq<byte>) {
    ValidHeaders(h) && Sendable(Copy(h, b))
  }

  ghost predicate AllPassable(ms: seq<(Headers, seq<byte>)>) {
    forall i {:trigger ms[i]} :: 0 <= i < |ms| ==> Passable(ms[i].0, ms[i].1)
  }

  /** What one hop makes of parsed headers: a negative retry count is not written, so it is lost. */
  function Forwarded(h: Headers): Headers {
    if h.retryCount < 0 then h.(retryCount := 0) else h
  }

  function ForwardedAll(ms: seq<(Headers, seq<byte>)>): (fs: seq<(Headers, seq<byte>)>)
    ensures |fs| == |ms|
  {
    seq(|ms|, i requires 0 <= i < |ms| => (Forwarded(ms[i].0), ms[i].1))
  }

  predicate NoneNegative(ms: seq<(Headers, seq<byte>)>) {
    forall i {:trigger ms[i]} :: 0 <= i < |ms| ==> ms[i].0.retryCount >= 0
  }

  lemma ForwardedSame(ms: seq<(Headers, seq<byte>)>)
    ensures ForwardedAll(ms) == ms <==> NoneNegative(ms)
    ensures NoneNegative(ForwardedAll(ms)) && ForwardedAll(ForwardedAll(ms)) == ForwardedAll(ms)
  {
    if ForwardedAll(ms) == ms {
      forall i | 0 <= i < |ms| ensures ms[i].0.retryCount >= 0 {
        assert ForwardedAll(ms)[i] == (Forwarded(ms[i].0), ms[i].1);
      }
    }
  }

  lemma SameFixed(h: Headers)
    requires ValidHeaders(h)
    ensures ValidHeaders(Forwarded(h)) && FixedRecords(Forwarded(h)) == FixedRecords(h)
  {
    hide ValidPayload, IdBody, ActorBody, FaultBody, FlagBody, ActionBody;
  }

  /** Losing a negative retry count changes none of the bytes written. */
  lemma SameWritten(h: Headers, order: seq<HeaderId>)
    requires ValidHeaders(h) && Enumerates(order, h.custom)
    ensures ValidHeaders(Forwarded(h))
    ensures WriteTo(Forwarded(h), order) == WriteTo(h, order)
  {
    hide CustomRecords, ValidPayload, FixedRecords, Block, Enumerates;
    SameFixed(h);
  }

  lemma ForwardedPasses(h: Headers, b: seq<byte>)
    requires Passable(h, b)
    ensures Passable(Forwarded(h), b)
  {
    hide CustomFits, ListFits, AllFit, FixedRecords, WriteTo, Enumerates, MarshalPayload;
    var f := Forwarded(h);
    assert ValidHeaders(f);
    assert BodyBytes(Copy(f, b)) == BodyBytes(Copy(h, b));
    forall order {:trigger WriteTo(f, order)} | Enumerates(order, f.custom)
      ensures WriteTo(f, order) == WriteTo(h, order)
    {
      SameWritten(h, order);
    }
    SameFixed(h);
    assert HeadersFit(f);
  }

  lemma MessageSettles(crc: Checksums, acts: Activators, rc: ReadConfig, s: seq<byte>)
    ensures NextMessage(crc, acts, rc, s).Ok? ==>
              && ValidHeaders(NextMessage(crc, acts, rc, s).value.0)
              && Settled(acts, NextMessage(crc, acts, rc, s).value.0)
  {
    hide Parse, NextFrame, Settled, ValidHeaders;
    if NextMessage(crc, acts, rc, s).Ok? {
      var (f, frame, rest) := NextFrame(crc, rc, s).value;
      ParseSettles(acts, frame[..f.headerLength]);
    }
  }

  /** One forwarded message: read again, it is the same message, but for a negative retry count. */
  lemma PassOn(crc: Checksums, acts: Activators, h: Headers, b: seq<byte>, order: seq<HeaderId>, wc: WriteConfig,
               rc: ReadConfig, rest: seq<byte>)
    requires ActivatorsSupported(acts) && ValidHeaders(h) && Settled(acts, h) && Passable(h, b)
    requires Enumerates(order, h.custom) && Agree(wc, rc)
    ensures Packet(crc, Copy(h, b), order, wc).Ok?
    ensures NextMessage(crc, acts, rc, Packet(crc, Copy(h, b), order, wc).value + rest) == Ok((Forwarded(h), b, rest))
  {
    hide Packet, NextMessage, Arrives, Arrived, HeadersFit, CustomFits, WriteTo, Settled, ActivatorsSupported,
         ValidHeaders;
    SettledArrives(acts, h);
    MessageRoundTrip(crc, acts, Copy(h, b), order, wc, rc, rest);
    assert Fixed(h).(custom := h.custom) == Forwarded(h);
  }

  lemma FirstMessage(m: (Headers, seq<byte>), rest: seq<(Headers, seq<byte>)>)
    ensures AllPassable([m] + rest) ==> Passable(m.0, m.1) && AllPassable(rest)
    ensures ForwardedAll([m] + rest) == [(Forwarded(m.0), m.1)] + ForwardedAll(rest)
  {
    hide Passable, Forwarded;
    var ms := [m] + rest;
    assert ms[0] == m && ms[1..] == rest;
    forall i | 0 <= i < |rest| && AllPassable(ms) ensures Passable(rest[i].0, rest[i].1) {
      assert ms[i + 1] == rest[i];
    }
  }

  lemma {:induction false} HopForwards(crc: Checksums, acts: Activators, hop: Hop, rc: ReadConfig, s: seq<byte>,
                                       orders: seq<seq<HeaderId>>, out: seq<byte>)
    requires ActivatorsSupported(acts) && Agree(hop.dest, rc)
    requires Copies(crc, acts, hop, None, s, orders, out)
    requires AllPassable(Messages(crc, acts, hop.source, s))
    ensures Messages(crc, acts, rc, out) == ForwardedAll(Messages(crc, acts, hop.source, s))
    ensures StopsWith(crc, acts, rc, out) == Eof
    decreases |s|
  {
    hide NextMessage, Packet, Passable, AllPassable, ActivatorsSupported, Agree, Settled, ValidHeaders, Forwarded,
         ForwardedAll;
    var next := NextMessage(crc, acts, hop.source, s);
    if next.Err? {
      NothingNext(crc, acts, rc);
      assert ForwardedAll([]) == [];
    } else {
      var (h, b, rest) := next.value;
      FirstMessage((h, b), Messages(crc, acts, hop.source, rest));
      MessageSettles(crc, acts, hop.source, s);
      var p := Packet(crc, Copy(h, b), orders[0], hop.dest);
      PassOn(crc, acts, h, b, orders[0], hop.dest, rc, if p.Ok? then out[|p.value|..] else []);
      var tail := out[|p.value|..];
      assert out == p.value + tail;
      HopForwards(crc, acts, hop, rc, rest, orders[1..], tail);
    }
  }

  /** An unfiltered direction sends on the messages it reads, in order, whatever order it rewrites their custom
      headers in; so a hop is transparent exactly when no retry count is negative. */
  lemma HopTransparent(crc: Checksums, acts: Activators, hop: Hop, rc: ReadConfig, s: seq<byte>,
                       orders: seq<seq<HeaderId>>, out: seq<byte>)
    requires ActivatorsSupported(acts) && Agree(hop.dest, rc)
    requires Copies(crc, acts, hop, None, s, orders, out)
    requires AllPassable(Messages(crc, acts, hop.source, s))
    ensures Messages(crc, acts, rc, out) == ForwardedAll(Messages(crc, acts, hop.source, s))
    ensures StopsWith(crc, acts, rc, out) == Eof
    ensures Messages(crc, acts, rc, out) == Messages(crc, acts, hop.source, s)
            <==> NoneNegative(Messages(crc, acts, hop.source, s))
  {
    hide *;
    HopForwards(crc, acts, hop, rc, s, orders, out);
    ForwardedSame(Messages(crc, acts, hop.source, s));
  }

  // ---- one hop with a filter ----

  /** What `f` makes of the messages read: the ones it returns, in order; nothing for those it drops. */
  function Kept(f: Filter, ms: seq<(Headers, seq<byte>)>): seq<Message> {
    if ms == [] then []
    else match f(ms[0].0, ms[0].1)
      case None => Kept(f, ms[1..])
      case Some(m) => [m] + Kept(f, ms[1..])
  }

  /** Every message `f` returns for one of those read can be sent and received. */
  ghost predicate KeptReceivable(acts: Activators, f: Filter, ms: seq<(Headers, seq<byte>)>) {
    forall i {:trigger ms[i]} :: 0 <= i < |ms| ==>
      match f(ms[i].0, ms[i].1)
      case None => true
      case Some(m) => Receivable(acts, m)
  }

  /** What a reader gets of messages sent. */
  ghost predicate Delivered(acts: Activators, sent: seq<Message>, got: seq<(Headers, seq<byte>)>) {
    |got| == |sent| && forall i {:trigger sent[i]} :: 0 <= i < |sent| ==>
                         Receivable(acts, sent[i]) && got[i] == Received(acts, sent[i])
  }

  lemma KeptFirst(acts: Activators, f: Filter, h: Headers, b: seq<byte>, rest: seq<(Headers, seq<byte>)>)
    ensures Kept(f, [(h, b)] + rest) ==
            match f(h, b) case None => Kept(f, rest) case Some(m) => [m] + Kept(f, rest)
    ensures KeptReceivable(acts, f, [(h, b)] + rest) ==>
              KeptReceivable(acts, f, rest) && (f(h, b).Some? ==> Receivable(acts, f(h, b).value))
  {
    hide Receivable;
    var ms := [(h, b)] + rest;
    assert ms[0] == (h, b) && ms[1..] == rest;
    if KeptReceivable(acts, f, ms) {
      forall i | 0 <= i < |rest|
        ensures match f(rest[i].0, rest[i].1) case None => true case Some(m) => Receivable(acts, m)
      {
        assert ms[i + 1] == rest[i];
      }
    }
  }

  lemma DeliveredFirst(acts: Activators, m: Message, sent: seq<Message>, got: seq<(Headers, seq<byte>)>)
    requires Receivable(acts, m) && Delivered(acts, sent, got)
    ensures Delivered(acts, [m] + sent, [Received(acts, m)] + got)
  {
    hide Receivable, Received;
  }

  lemma NothingKept(acts: Activators, f: Filter)
    ensures Kept(f, []) == [] && Delivered(acts, [], [])
  {
  }

  /** A message that can be received, at the front of a stream. */
  lemma MessageArrives(crc: Checksums, acts: Activators, m: Message, order: seq<HeaderId>, wc: WriteConfig,
                       rc: ReadConfig, out: seq<byte>)
    requires Receivable(acts, m) && ValidMessage(m) && Enumerates(order, m.headers.custom) && Agree(wc, rc)
    ensures var p := Packet(crc, m, order, wc);
            && p.Ok?
            && (p.value <= out ==>
                  NextMessage(crc, acts, rc, out) == Ok((Received(acts, m).0, Received(acts, m).1, out[|p.value|..])))
  {
    hide Packet, NextMessage, Agree, Sendable, Arrives, Arrived, ValidMessage, BodyBytes, Fixed;
    MessageRoundTrip(crc, acts, m, order, wc, rc, []);
    var p := Packet(crc, m, order, wc).value;
    if p <= out {
      MessageRoundTrip(crc, acts, m, order, wc, rc, out[|p|..]);
      assert p + out[|p|..] == out;
    }
  }

  /** A filtered direction sends exactly the messages the filter returns, in order, and nothing for those it
      drops. */
  lemma {:induction false} FilterLaw(crc: Checksums, acts: Activators, hop: Hop, f: Filter, rc: ReadConfig,
                                     s: seq<byte>, orders: seq<seq<HeaderId>>, out: seq<byte>)
    requires FilterOk(Some(f)) && Agree(hop.dest, rc) && Copies(crc, acts, hop, Some(f), s, orders, out)
    requires KeptReceivable(acts, f, Messages(crc, acts, hop.source, s))
    ensures Delivered(acts, Kept(f, Messages(crc, acts, hop.source, s)), Messages(crc, acts, rc, out))
    ensures StopsWith(crc, acts, rc, out) == Eof
    decreases |s|
  {
    hide NextMessage, Packet, Agree, Receivable, Received, Kept, KeptReceivable, Delivered, FilterOk, ValidMessage;
    var next := NextMessage(crc, acts, hop.source, s);
    if next.Err? {
      NothingNext(crc, acts, rc);
      NothingKept(acts, f);
    } else {
      var (h, b, rest) := next.value;
      KeptFirst(acts, f, h, b, Messages(crc, acts, hop.source, rest));
      match f(h, b)
      case None => FilterLaw(crc, acts, hop, f, rc, rest, orders, out);
      case Some(m) =>
        MessageArrives(crc, acts, m, orders[0], hop.dest, rc, out);
        var p := Packet(crc, m, orders[0], hop.dest).value;
        FilterLaw(crc, acts, hop, f, rc, rest, orders[1..], out[|p|..]);
        DeliveredFirst(acts, m, Kept(f, Messages(crc, acts, hop.source, rest)), Messages(crc, acts, rc, out[|p|..]));
    }
  }

  /** A message that cannot be marshalled, whatever order its custom headers are enumerated in. */
  ghost predicate Unsendable(m: Message) {
    ValidMessage(m) && forall crc, order, wc {:trigger Packet(crc, m, order, wc)} ::
                         Enumerates(order, m.headers.custom) ==> Packet(crc, m, order, wc).Err?
  }

  /** The direction ends at the first message it cannot send: what came before is delivered, nothing after. */
  lemma {:induction false} FilterStops(crc: Checksums, acts: Activators, hop: Hop, f: Filter, rc: ReadConfig,
                                       s: seq<byte>, orders: seq<seq<HeaderId>>, out: seq<byte>, k: nat)
    requires FilterOk(Some(f)) && Agree(hop.dest, rc) && Copies(crc, acts, hop, Some(f), s, orders, out)
    requires var ms := Messages(crc, acts, hop.source, s);
             && k < |ms| && KeptReceivable(acts, f, ms[..k])
             && f(ms[k].0, ms[k].1).Some? && Unsendable(f(ms[k].0, ms[k].1).value)
    ensures Delivered(acts, Kept(f, Messages(crc, acts, hop.source, s)[..k]), Messages(crc, acts, rc, out))
    ensures StopsWith(crc, acts, rc, out) == Eof
    decreases |s|
  {
    hide NextMessage, Packet, Agree, Receivable, Received, Kept, KeptReceivable, Delivered, FilterOk, ValidMessage;
    var (h, b, rest) := NextMessage(crc, acts, hop.source, s).value;
    var ms, more := Messages(crc, acts, hop.source, s), Messages(crc, acts, hop.source, rest);
    if k == 0 {
      assert ms[..0] == [] && ms[0] == (h, b);
      NothingNext(crc, acts, rc);
      NothingKept(acts, f);
    } else {
      assert ms[..k] == [(h, b)] + more[..k - 1] && ms[k] == more[k - 1];
      KeptFirst(acts, f, h, b, more[..k - 1]);
      match f(h, b)
      case None => FilterStops(crc, acts, hop, f, rc, rest, orders, out, k - 1);
      case Some(m) =>
        MessageArrives(crc, acts, m, orders[0], hop.dest, rc, out);
        var p := Packet(crc, m, orders[0], hop.dest).value;
        FilterStops(crc, acts, hop, f, rc, rest, orders[1..], out[|p|..], k - 1);
        DeliveredFirst(acts, m, Kept(f, more[..k - 1]), Messages(crc, acts, rc, out[|p|..]));
    }
  }

  /** `out` holds, for every reader the checksums suit, exactly what `f` returned for the messages in `s`. */
  ghost predicate Filters(crc: Checksums, acts: Activators, hop: Hop, f: Filter, s: seq<byte>, out: seq<byte>) {
    KeptReceivable(acts, f, Messages(crc, acts, hop.source, s)) ==>
      forall rc {:trigger Messages(crc, acts, rc, out)} :: Agree(hop.dest, rc) ==>
        Delivered(acts, Kept(f, Messages(crc, acts, hop.source, s)), Messages(crc, acts, rc, out))
  }

  lemma CopiesFilter(crc: Checksums, acts: Activators, hop: Hop, f: Filter, s: seq<byte>,
                     orders: seq<seq<HeaderId>>, out: seq<byte>)
    requires FilterOk(Some(f)) && Copies(crc, acts, hop, Some(f), s, orders, out)
    ensures Filters(crc, acts, hop, f, s, out)
  {
    hide Copies, Agree, Delivered, Kept, KeptReceivable, Messages, FilterOk;
    if KeptReceivable(acts, f, Messages(crc, acts, hop.source, s)) {
      forall rc {:trigger Messages(crc, acts, rc, out)} | Agree(hop.dest, rc)
        ensures Delivered(acts, Kept(f, Messages(crc, acts, hop.source, s)), Messages(crc, acts, rc, out))
      {
        FilterLaw(crc, acts, hop, f, rc, s, orders, out);
      }
    }
  }

  /** `out` holds, for every reader the checksums suit, the messages in `s` as an unfiltered hop forwards them. */
  ghost predicate Forwards(crc: Checksums, acts: Activators, hop: Hop, s: seq<byte>, out: seq<byte>) {
    ActivatorsSupported(acts) && AllPassable(Messages(crc, acts, hop.source, s)) ==>
      forall rc {:trigger Messages(crc, acts, rc, out)} :: Agree(hop.dest, rc) ==>
        Messages(crc, acts, rc, out) == ForwardedAll(Messages(crc, acts, hop.source, s))
  }

  lemma CopiesForward(crc: Checksums, acts: Activators, hop: Hop, s: seq<byte>, orders: seq<seq<HeaderId>>,
                      out: seq<byte>)
    requires Copies(crc, acts, hop, None, s, orders, out)
    ensures Forwards(crc, acts, hop, s, out)
  {
    hide Copies, Agree, AllPassable, ActivatorsSupported, Messages, ForwardedAll;
    if ActivatorsSupported(acts) && AllPassable(Messages(crc, acts, hop.source, s)) {
      forall rc {:trigger Messages(crc, acts, rc, out)} | Agree(hop.dest, rc)
        ensures Messages(crc, acts, rc, out) == ForwardedAll(Messages(crc, acts, hop.source, s))
      {
        HopForwards(crc, acts, hop, rc, s, orders, out);
      }
    }
  }

  // ---- many hops ----

  /** Each stream of `streams` but the first is what a hop made of the one before it. */
  ghost predicate Chain(crc: Checksums, acts: Activators, hops: seq<Hop>, orders: seq<seq<seq<HeaderId>>>,
                        streams: seq<seq<byte>>) {
    && |streams| == |hops| + 1 && |orders| == |hops|
    && forall i {:trigger hops[i]} :: 0 <= i < |hops| ==>
         Copies(crc, acts, hops[i], None, streams[i], orders[i], streams[i + 1])
  }

  /** The configuration the stream after `i` hops is read with. */
  function ReaderAt(hops: seq<Hop>, last: ReadConfig, i: nat): ReadConfig
    requires i <= |hops|
  {
    if i < |hops| then hops[i].source else last
  }

  lemma AllForwardedPass(ms: seq<(Headers, seq<byte>)>)
    requires AllPassable(ms)
    ensures AllPassable(ForwardedAll(ms))
  {
    hide Passable, Forwarded;
    var fs := ForwardedAll(ms);
    forall i | 0 <= i < |fs| ensures Passable(fs[i].0, fs[i].1) {
      assert Passable(ms[i].0, ms[i].1);
      ForwardedPasses(ms[i].0, ms[i].1);
    }
  }

  lemma {:induction false} HopsForward(crc: Checksums, acts: Activators, hops: seq<Hop>, last: ReadConfig,
                                       orders: seq<seq<seq<HeaderId>>>, streams: seq<seq<byte>>, n: nat)
    requires ActivatorsSupported(acts) && Chain(crc, acts, hops, orders, streams) && 0 < n <= |hops|
    requires forall i {:trigger hops[i]} :: 0 <= i < |hops| ==> Agree(hops[i].dest, ReaderAt(hops, last, i + 1))
    requires AllPassable(Messages(crc, acts, ReaderAt(hops, last, 0), streams[0]))
    ensures Messages(crc, acts, ReaderAt(hops, last, n), streams[n])
            == ForwardedAll(Messages(crc, acts, ReaderAt(hops, last, 0), streams[0]))
    decreases n
  {
    hide Copies, Messages, AllPassable, Agree, ActivatorsSupported, ForwardedAll, NoneNegative;
    var first := Messages(crc, acts, ReaderAt(hops, last, 0), streams[0]);
    if n > 1 {
      HopsForward(crc, acts, hops, last, orders, streams, n - 1);
      ForwardedSame(first);
      AllForwardedPass(first);
    }
    HopForwards(crc, acts, hops[n - 1], ReaderAt(hops, last, n), streams[n - 1], orders[n - 1], streams[n]);
  }

  /** Any number of unfiltered hops delivers the messages that entered the first one, but for negative retry
      counts; the first hop loses those, and so exactly with none of them is the whole chain transparent. */
  lemma ProxyTransparent(crc: Checksums, acts: Activators, hops: seq<Hop>, last: ReadConfig,
                         orders: seq<seq<seq<HeaderId>>>, streams: seq<seq<byte>>)
    requires ActivatorsSupported(acts) && Chain(crc, acts, hops, orders, streams) && hops != []
    requires forall i {:trigger hops[i]} :: 0 <= i < |hops| ==> Agree(hops[i].dest, ReaderAt(hops, last, i + 1))
    requires AllPassable(Messages(crc, acts, ReaderAt(hops, last, 0), streams[0]))
    ensures var first := Messages(crc, acts, ReaderAt(hops, last, 0), streams[0]);
            var delivered := Messages(crc, acts, last, streams[|hops|]);
            delivered == ForwardedAll(first) && (delivered == first <==> NoneNegative(first))
  {
    hide Copies, Messages, AllPassable, Agree, ActivatorsSupported, ForwardedAll, NoneNegative;
    HopsForward(crc, acts, hops, last, orders, streams, |hops|);
    ForwardedSame(Messages(crc, acts, ReaderAt(hops, last, 0), streams[0]));
  }
}
