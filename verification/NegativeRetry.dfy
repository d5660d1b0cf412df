/** A message with a negative retry count: it can be received, and one hop of the proxy makes it zero. */
module NegativeRetry {
  import opened Bytes
  import opened Headers
  import opened HeaderTheorems
  import opened Frames
  import opened Proxy
  import opened ShortBodies

  /** The message whose only header is a retry count. */
  function RetryBlock(n: i32): seq<byte> {
    Block([Record(RETRY, RetryBody(n))])
  }

  function RetryFrame(crc: Checksums, n: i32, wc: WriteConfig): seq<byte> {
    FrameOf(crc, |RetryBlock(n)|, RetryBlock(n), wc)
  }

  function Retried(n: i32): Headers {
    NO_HEADERS.(retryCount := n)
  }

  /** Any retry count is received as it is, negative ones too. */
  lemma RetryReceived(acts: Activators, n: i32)
    ensures Parse(acts, RetryBlock(n)) == Ok(Retried(n))
  {
    hide RetryBody, ParseRetry, ApplyAll;
    var r := Record(RETRY, RetryBody(n));
    RetrySmall(n);
    RetryBack(n);
    ParseStart(acts, [r]);
    OneRecord(acts, NO_HEADERS, r);
  }

  lemma RetryRead(crc: Checksums, acts: Activators, n: i32, wc: WriteConfig, rc: ReadConfig)
    requires Agree(wc, rc)
    ensures Messages(crc, acts, rc, RetryFrame(crc, n, wc)) == [(Retried(n), [])]
  {
    hide RetryBody, Parse, FrameOf, NextFrame, Retried;
    var block := RetryBlock(n);
    BlockOne(Record(RETRY, RetryBody(n)));
    RetrySmall(n);
    FrameRoundTrip(crc, |block|, block, wc, rc, []);
    assert RetryFrame(crc, n, wc) + [] == RetryFrame(crc, n, wc);
    assert block[..|block|] == block && block[|block|..] == [];
    RetryReceived(acts, n);
    NothingNext(crc, acts, rc);
  }

  lemma FirstKey<T>(order: seq<HeaderId>, m: map<HeaderId, T>)
    requires order != [] && Enumerates(order, m)
    ensures m != map[]
  {
    assert order[0] in order;
  }

  lemma RetryRecords(n: i32)
    requires n <= 0
    ensures ValidHeaders(Retried(n))
    ensures FixedRecords(Retried(n)) == [Record(MESSAGE_ID, IdBody(EMPTY_ID)), Record(ACTOR, ActorBody(0))]
  {
    hide IdBody, ActorBody;
  }

  /** What is written of such a message: its id and its actor, both empty. */
  lemma RetryPassable(n: i32)
    requires n <= 0
    ensures Passable(Retried(n), [])
  {
    hide IdBody, ActorBody, RecordBytes, FixedRecords;
    var h := Retried(n);
    IdSmall(EMPTY_ID);
    ActorSmall(0);
    RetryRecords(n);
    var i, a := Record(MESSAGE_ID, IdBody(EMPTY_ID)), Record(ACTOR, ActorBody(0));
    BlockOne(i);
    BlockOne(a);
    BlockAppend([i], [a]);
    assert [i] + [a] == [i, a];
    forall order {:trigger WriteTo(h, order)} | Enumerates(order, h.custom)
      ensures WriteTo(h, order) == Ok(Block([i, a]))
    {
      if order != [] {
        FirstKey(order, h.custom);
        assert false;
      }
      assert [i, a] + [] == [i, a];
    }
  }

  /** A received negative retry count is not what arrives after one unfiltered hop. */
  lemma NegativeRetryLost(crc: Checksums, acts: Activators, n: i32, wc: WriteConfig, hop: Hop, rc: ReadConfig,
                          orders: seq<seq<HeaderId>>, out: seq<byte>)
    requires n < 0 && ActivatorsSupported(acts) && Agree(wc, hop.source) && Agree(hop.dest, rc)
    requires Copies(crc, acts, hop, None, RetryFrame(crc, n, wc), orders, out)
    ensures Messages(crc, acts, hop.source, RetryFrame(crc, n, wc)) == [(Retried(n), [])]
    ensures Messages(crc, acts, rc, out) == [(NO_HEADERS, [])]
  {
    hide Copies, Messages, RetryFrame, Passable, ActivatorsSupported, Agree;
    RetryRead(crc, acts, n, wc, hop.source);
    RetryPassable(n);
    HopTransparent(crc, acts, hop, rc, RetryFrame(crc, n, wc), orders, out);
    assert ForwardedAll([(Retried(n), [])]) == [(NO_HEADERS, [])];
  }
}
